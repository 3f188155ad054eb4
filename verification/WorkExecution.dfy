/**
 * Any well-bracketed run carried out on the thread's cells: each scope changes
 * them on the way in and restores them on the way out, and the cells end as the
 * run's function of their values says, the checkpoints having reported as it says.
 */
module WorkExecution {
  import opened Ordering
  import opened Sequences
  import opened Machine
  import opened WorkBudgets
  import opened WorkRuns

  function Report(note: Note): seq<bool> {
    if note.Reported? then [note.exceeded] else []
  }

  /** What the checkpoints of a run reported, in order. */
  function Reports(notes: seq<Note>): seq<bool> {
    if notes == [] then [] else Report(notes[0]) + Reports(notes[1..])
  }

  lemma {:induction false} ReportsConcat(a: seq<Note>, b: seq<Note>)
    ensures Reports(a + b) == Reports(a) + Reports(b)
  {
    if a == [] {
      assert a + b == b;
    } else {
      ReportsConcat(a[1..], b);
      assert (a + b)[1..] == a[1..] + b;
      Three(Report(a[0]), Reports(a[1..]), Reports(b));
    }
  }

  lemma ReportsOfOne(note: Note)
    ensures Reports([note]) == Report(note)
  {
    assert [note][1..] == [];
  }

  lemma ReportsOfCheck(paid: Note, report: Note)
    requires paid.Spent? && report.Reported?
    ensures Reports([paid, report]) == [report.exceeded]
  {
    ReportsOfOne(report);
    assert [paid, report][1..] == [report];
  }

  /** The cells and the reports are those of the trace. */
  ghost predicate CarriesOut(after: Budgets, reports: seq<bool>, t: Trace) {
    after == t.after && reports == Reports(t.notes)
  }

  method Execute(cells: Instrumentation, ops: seq<Op>) returns (reports: seq<bool>)
    modifies cells
    ensures CarriesOut(cells.State(), reports, Run(old(cells.State()), ops))
    decreases ops, 1
  {
    if ops == [] {
      return [];
    }
    ghost var before := cells.State();
    var first := ExecuteOne(cells, ops[0]);
    var rest := Execute(cells, ops[1..]);
    ReportsConcat(RunOne(before, ops[0]).notes, Run(RunOne(before, ops[0]).after, ops[1..]).notes);
    return first + rest;
  }

  method ExecuteOne(cells: Instrumentation, op: Op) returns (reports: seq<bool>)
    modifies cells
    ensures CarriesOut(cells.State(), reports, RunOne(old(cells.State()), op))
    decreases op, 1
  {
    match op {
      case Work(units, contained) =>
        ReportsOfOne(Charging(cells.State(), units));
        cells.RecordDeterministicWork(units, contained);
        return [];
      case Check(units, contained) =>
        ghost var paid := Charging(cells.State(), units);
        var exceeded := cells.DeadlineExceededWithWork(units, contained);
        ReportsOfCheck(paid, Reported(contained, exceeded));
        return [exceeded];
      case Burn(units) =>
        ReportsOfOne(Burned(units));
        cells.SpendDecisionFuel(units);
        return [];
      case InTactic(event, body, failed) =>
        reports := ExecuteInTactic(cells, event, body, failed);
      case UnderRun(limit, body) =>
        reports := ExecuteUnderRun(cells, limit, body);
      case UnderLimits(limits, body) =>
        reports := ExecuteUnderLimits(cells, limits, body);
      case UnderFuel(limit, body) =>
        reports := ExecuteUnderFuel(cells, limit, body);
      case Uncharged(body) =>
        var former := cells.uncharged;
        cells.uncharged := true;
        reports := Execute(cells, body);
        cells.uncharged := former;
      case Collecting(body) =>
        reports := ExecuteCollecting(cells, body);
      case Measured(body) =>
        reports := ExecuteMeasured(cells, body);
    }
  }

  method ExecuteInTactic(cells: Instrumentation, event: TacticEvent, body: seq<Op>, failed: bool) returns (reports: seq<bool>)
    modifies cells
    ensures CarriesOut(cells.State(), reports, RunOne(old(cells.State()), InTactic(event, body, failed)))
    decreases body, 2
  {
    cells.StartTactic(event);
    reports := Execute(cells, body);
    cells.EndTactic(event, failed);
  }

  method ExecuteUnderRun(cells: Instrumentation, limit: USize, body: seq<Op>) returns (reports: seq<bool>)
    modifies cells
    ensures CarriesOut(cells.State(), reports, RunOne(old(cells.State()), UnderRun(limit, body)))
    decreases body, 2
  {
    cells.BeginRun(limit);
    reports := Execute(cells, body);
    cells.EndRun();
  }

  method ExecuteUnderLimits(cells: Instrumentation, limits: TacticLimits, body: seq<Op>) returns (reports: seq<bool>)
    modifies cells
    ensures CarriesOut(cells.State(), reports, RunOne(old(cells.State()), UnderLimits(limits, body)))
    decreases body, 2
  {
    cells.InstallLimits(limits);
    reports := Execute(cells, body);
    cells.RemoveLimits();
  }

  method ExecuteMeasured(cells: Instrumentation, body: seq<Op>) returns (reports: seq<bool>)
    modifies cells
    ensures CarriesOut(cells.State(), reports, RunOne(old(cells.State()), Measured(body)))
    decreases body, 2
  {
    var former := |cells.counters|;
    cells.counters := cells.counters + [0];
    reports := Execute(cells, body);
    cells.counters := cells.counters[..former];
  }

  /** A decision inside an open one shares its fuel; only the outermost takes the fuel away at its end. */
  method ExecuteUnderFuel(cells: Instrumentation, limit: USize, body: seq<Op>) returns (reports: seq<bool>)
    modifies cells
    ensures CarriesOut(cells.State(), reports, RunOne(old(cells.State()), UnderFuel(limit, body)))
    decreases body, 2
  {
    if cells.fuel.Some? {
      reports := Execute(cells, body);
      return;
    }
    cells.fuel := Some(limit);
    reports := Execute(cells, body);
    cells.fuel := None;
  }

  /** The outermost checked collection starts unexhausted; inner ones share its exhaustion. */
  method ExecuteCollecting(cells: Instrumentation, body: seq<Op>) returns (reports: seq<bool>)
    modifies cells
    ensures CarriesOut(cells.State(), reports, RunOne(old(cells.State()), Collecting(body)))
    decreases body, 2
  {
    var former := cells.collections;
    if cells.collections == 0 {
      cells.collectionExhausted := false;
    }
    cells.collections := cells.collections + 1;
    reports := Execute(cells, body);
    cells.collections := former;
  }
}
