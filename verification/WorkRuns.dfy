/**
 * Every well-bracketed run of work, checkpoints and scopes over the budgets:
 * what each open budget has been charged, where the units went, and which
 * checkpoints must report.
 */
module WorkRuns {
  import opened Ordering
  import opened Machine
  import opened WorkBudgets

  datatype Op =
    | Work(units: USize, contained: bool)
    | Check(units: USize, contained: bool)
    | Burn(units: USize)
    | InTactic(event: TacticEvent, body: seq<Op>, failed: bool)
    | UnderRun(limit: USize, body: seq<Op>)
    | UnderLimits(limits: TacticLimits, body: seq<Op>)
    | UnderFuel(limit: USize, body: seq<Op>)
    | Uncharged(body: seq<Op>)
    | Collecting(body: seq<Op>)
    | Measured(body: seq<Op>)

  /** Who a charge lands on beside the run budgets: the innermost tactic, nobody, or one already exhausted. */
  datatype Payer = Tactic | Driver | Exhausted

  /**
   * Units charged, with how many tactics were open; decision fuel spent without
   * charging; or a checkpoint's verdict, and the wall clock's.
   */
  datatype Note =
    | Spent(units: USize, payer: Payer, depth: nat)
    | Burned(units: USize)
    | Reported(contained: bool, exceeded: bool)

  datatype Trace = Trace(after: Budgets, notes: seq<Note>)

  function PayerOf(b: Budgets): Payer {
    if b.tactics == [] then Driver else if b.tactics[|b.tactics| - 1].exhausted then Exhausted else Tactic
  }

  /** The note of a charge. */
  function Charging(b: Budgets, units: USize): Note {
    Spent(units, PayerOf(b), |b.tactics|)
  }

  /** The scope stacks a well-bracketed run leaves as it found them. */
  predicate SameScopes(b: Budgets, c: Budgets) {
    && |b.runs| == |c.runs| && |b.tactics| == |c.tactics| && |b.counters| == |c.counters|
    && b.installed == c.installed && b.uncharged == c.uncharged && b.collections == c.collections
    && b.fuel.Some? == c.fuel.Some?
    && (forall i :: 0 <= i < |b.tactics| ==> b.tactics[i].event == c.tactics[i].event)
  }

  lemma ChargeShape(b: Budgets, units: USize)
    ensures SameScopes(b, Charge(b, units).after)
  {
  }

  function RunOne(b: Budgets, op: Op): (t: Trace)
    ensures SameScopes(b, t.after)
    decreases op, 0
  {
    match op
    case Work(units, contained) =>
      ChargeShape(b, units);
      Trace(Record(b, units, contained), if Charges(b) then [Charging(b, units)] else [])
    case Check(units, contained) =>
      ChargeShape(b, units);
      var checked := Checkpoint(b, units, contained);
      Trace(checked.after, [Charging(b, units), Reported(contained, checked.exceeded)])
    case Burn(units) => Trace(SpendFuel(b, units), [Burned(units)])
    case InTactic(event, body, failed) =>
      var t := Run(TacticStarted(b, event), body);
      EndsInnermost(t.after.tactics, event);
      Trace(TacticEnded(t.after, event, failed), t.notes)
    case UnderRun(limit, body) =>
      var t := Run(RunBegun(b, limit), body);
      Trace(RunEnded(t.after), t.notes)
    case UnderLimits(limits, body) =>
      var t := Run(LimitsInstalled(b, limits), body);
      Trace(LimitsRemoved(t.after), t.notes)
    case UnderFuel(limit, body) =>
      if b.fuel.Some? then Run(b, body)
      else
        var t := Run(b.(fuel := Some(limit)), body);
        Trace(t.after.(fuel := None), t.notes)
    case Uncharged(body) =>
      var t := Run(b.(uncharged := true), body);
      Trace(t.after.(uncharged := b.uncharged), t.notes)
    case Collecting(body) =>
      var t := Run(b.(collections := b.collections + 1, collectionExhausted := b.collections > 0 && b.collectionExhausted), body);
      Trace(t.after.(collections := b.collections), t.notes)
    case Measured(body) =>
      var t := Run(b.(counters := b.counters + [0]), body);
      Trace(t.after.(counters := t.after.counters[..|b.counters|]), t.notes)
  }

  function Run(b: Budgets, ops: seq<Op>): (t: Trace)
    ensures SameScopes(b, t.after)
    decreases ops, 1
  {
    if ops == [] then Trace(b, [])
    else
      var first := RunOne(b, ops[0]);
      var rest := Run(first.after, ops[1..]);
      Trace(rest.after, first.notes + rest.notes)
  }

  /** A finished tactic's event finds the tactic on top. */
  lemma EndsInnermost(tactics: seq<ActiveTactic>, event: TacticEvent)
    requires tactics != [] && tactics[|tactics| - 1].event == event
    ensures LastIndex(tactics, event) == |tactics| - 1
  {
  }

  // ---------- what a run has charged ----------

  ghost function Total(notes: seq<Note>): nat {
    if notes == [] then 0 else (if notes[0].Spent? then notes[0].units else 0) + Total(notes[1..])
  }

  /** The decision fuel a run spent without charging. */
  ghost function BurnedIn(notes: seq<Note>): nat {
    if notes == [] then 0 else (if notes[0].Burned? then notes[0].units else 0) + BurnedIn(notes[1..])
  }

  /** What a run draws on decision fuel: every unit charged and every unit burned. */
  ghost function Drawn(notes: seq<Note>): nat {
    Total(notes) + BurnedIn(notes)
  }

  /** The part of a run's charges that landed on `payer`. */
  ghost function PaidBy(payer: Payer, notes: seq<Note>): nat {
    if notes == [] then 0
    else (if notes[0].Spent? && notes[0].payer == payer then notes[0].units else 0) + PaidBy(payer, notes[1..])
  }

  lemma {:induction false} TotalConcat(a: seq<Note>, b: seq<Note>)
    ensures Total(a + b) == Total(a) + Total(b)
  {
    if a == [] {
      assert a + b == b;
    } else {
      TotalConcat(a[1..], b);
      assert (a + b)[1..] == a[1..] + b;
    }
  }

  lemma {:induction false} BurnedConcat(a: seq<Note>, b: seq<Note>)
    ensures BurnedIn(a + b) == BurnedIn(a) + BurnedIn(b)
  {
    if a == [] {
      assert a + b == b;
    } else {
      BurnedConcat(a[1..], b);
      assert (a + b)[1..] == a[1..] + b;
    }
  }

  lemma {:induction false} PaidByConcat(payer: Payer, a: seq<Note>, b: seq<Note>)
    ensures PaidBy(payer, a + b) == PaidBy(payer, a) + PaidBy(payer, b)
  {
    if a == [] {
      assert a + b == b;
    } else {
      PaidByConcat(payer, a[1..], b);
      assert (a + b)[1..] == a[1..] + b;
    }
  }

  lemma {:induction false} EveryUnitIsPaid(notes: seq<Note>)
    ensures Total(notes) == PaidBy(Tactic, notes) + PaidBy(Driver, notes) + PaidBy(Exhausted, notes)
  {
    if notes != [] { EveryUnitIsPaid(notes[1..]); }
  }

  /** Budgets are marked exhausted exactly when over their limits. */
  ghost predicate Marked(runs: seq<RunLimit>) {
    forall i :: 0 <= i < |runs| ==> (runs[i].exhausted <==> runs[i].used > runs[i].limit)
  }

  /** `run` after `total` more units. */
  ghost predicate RunCharged(run: RunLimit, after: RunLimit, total: nat) {
    after.limit == run.limit && after.used == Capped(run.used + total)
  }

  /**
   * Whatever scopes were open before have been charged `total`, and open fuel has
   * fallen by `drawn`; the tactics under the innermost one, by nothing.
   */
  ghost predicate Grown(b: Budgets, c: Budgets, total: nat, drawn: nat) {
    && |b.runs| <= |c.runs| && |b.tactics| <= |c.tactics| && |b.counters| <= |c.counters|
    && (forall i :: 0 <= i < |b.runs| ==> RunCharged(b.runs[i], c.runs[i], total))
    && (forall i :: 0 <= i < |b.counters| ==> c.counters[i] == Capped(b.counters[i] + total))
    && (forall i :: 0 <= i < |b.tactics| - 1 ==> c.tactics[i] == b.tactics[i])
    && (b.fuel.Some? ==> c.fuel.Some? && c.fuel.value == if b.fuel.value >= drawn then b.fuel.value - drawn else 0)
  }

  /** The budgets have grown by what the notes say. */
  ghost predicate GrownBy(b: Budgets, c: Budgets, notes: seq<Note>) {
    Grown(b, c, Total(notes), Drawn(notes))
  }

  lemma GrownTwice(a: Budgets, b: Budgets, c: Budgets, x: nat, dx: nat, y: nat, dy: nat)
    requires Grown(a, b, x, dx) && Grown(b, c, y, dy)
    ensures Grown(a, c, x + y, dx + dy)
  {
    forall i | 0 <= i < |a.runs| ensures RunCharged(a.runs[i], c.runs[i], x + y) {
      assert RunCharged(a.runs[i], b.runs[i], x) && RunCharged(b.runs[i], c.runs[i], y);
    }
    forall i | 0 <= i < |a.tactics| - 1 ensures c.tactics[i] == a.tactics[i] {
      assert b.tactics[i] == a.tactics[i];
    }
  }

  lemma GrownOn(a: Budgets, b: Budgets, c: Budgets, first: seq<Note>, rest: seq<Note>)
    requires GrownBy(a, b, first) && GrownBy(b, c, rest)
    ensures GrownBy(a, c, first + rest)
  {
    TotalConcat(first, rest);
    BurnedConcat(first, rest);
    GrownTwice(a, b, c, Total(first), Drawn(first), Total(rest), Drawn(rest));
  }

  lemma ChargedRunsGrow(runs: seq<RunLimit>, units: USize, i: nat)
    requires i < |runs|
    ensures RunCharged(runs[i], ChargedRuns(runs, units)[i], units)
    ensures Marked(runs) ==> Marked(ChargedRuns(runs, units))
  {
  }

  lemma ChargeGrows(b: Budgets, units: USize)
    ensures Grown(b, Charge(b, units).after, units, units)
    ensures Marked(b.runs) ==> Marked(Charge(b, units).after.runs)
  {
    var c := Charge(b, units).after;
    assert c.runs == ChargedRuns(b.runs, units);
    assert c.counters == CountedAll(b.counters, units);
    assert c.fuel == SpendFuel(b, units).fuel;
    forall i | 0 <= i < |b.runs| ensures RunCharged(b.runs[i], c.runs[i], units) && (Marked(b.runs) ==> Marked(c.runs)) {
      ChargedRunsGrow(b.runs, units, i);
    }
    assert forall i :: 0 <= i < |b.tactics| - 1 ==> c.tactics[i] == b.tactics[i];
  }

  lemma TotalOfOne(note: Note)
    ensures Total([note]) == if note.Spent? then note.units else 0
    ensures BurnedIn([note]) == if note.Burned? then note.units else 0
    ensures forall payer :: PaidBy(payer, [note]) == if note.Spent? && note.payer == payer then note.units else 0
  {
    assert [note][1..] == [];
  }

  lemma TotalOfCheck(paid: Note, report: Note)
    requires paid.Spent? && report.Reported?
    ensures var notes := [paid, report];
            Total(notes) == paid.units && Drawn(notes) == paid.units && PaidBy(Tactic, notes) == if paid.payer == Tactic then paid.units else 0
  {
    TotalOfOne(report);
    assert [paid, report][1..] == [report];
  }

  lemma {:induction false} RunOneGrows(b: Budgets, op: Op)
    ensures GrownBy(b, RunOne(b, op).after, RunOne(b, op).notes)
    ensures Marked(b.runs) ==> Marked(RunOne(b, op).after.runs)
    decreases op, 0, 1
  {
    match op
    case Work(_, _) => WorkGrows(b, op);
    case Check(_, _) => CheckGrows(b, op);
    case Burn(units) => TotalOfOne(Burned(units));
    case InTactic(_, _, _) => InTacticGrows(b, op);
    case UnderRun(_, _) => UnderRunGrows(b, op);
    case UnderLimits(_, _) => UnderLimitsGrows(b, op);
    case UnderFuel(_, _) => UnderFuelGrows(b, op);
    case Uncharged(_) => UnchargedGrows(b, op);
    case Collecting(_) => CollectingGrows(b, op);
    case Measured(_) => MeasuredGrows(b, op);
  }

  lemma {:induction false} WorkGrows(b: Budgets, op: Op)
    requires op.Work?
    ensures GrownBy(b, RunOne(b, op).after, RunOne(b, op).notes)
    ensures Marked(b.runs) ==> Marked(RunOne(b, op).after.runs)
    decreases op, 0, 0
  {
    TotalOfOne(Charging(b, op.units));
    if Charges(b) {
      RecordCharges(b, op.units, op.contained);
    }
  }

  /** Recording leaves what a charge leaves, but for the mark of an exhausted collection. */
  lemma RecordCharges(b: Budgets, units: USize, contained: bool)
    requires Charges(b)
    ensures Grown(b, Record(b, units, contained), units, units)
    ensures Marked(b.runs) ==> Marked(Record(b, units, contained).runs)
  {
    ChargeGrows(b, units);
  }

  lemma {:induction false} CheckGrows(b: Budgets, op: Op)
    requires op.Check?
    ensures GrownBy(b, RunOne(b, op).after, RunOne(b, op).notes)
    ensures Marked(b.runs) ==> Marked(RunOne(b, op).after.runs)
    decreases op, 0, 0
  {
    ChargeGrows(b, op.units);
    TotalOfCheck(Charging(b, op.units), Reported(op.contained, Checkpoint(b, op.units, op.contained).exceeded));
  }

  lemma {:induction false} UnderLimitsGrows(b: Budgets, op: Op)
    requires op.UnderLimits?
    ensures GrownBy(b, RunOne(b, op).after, RunOne(b, op).notes)
    ensures Marked(b.runs) ==> Marked(RunOne(b, op).after.runs)
    decreases op, 0, 0
  {
    RunGrows(LimitsInstalled(b, op.limits), op.body);
  }

  lemma {:induction false} UnchargedGrows(b: Budgets, op: Op)
    requires op.Uncharged?
    ensures GrownBy(b, RunOne(b, op).after, RunOne(b, op).notes)
    ensures Marked(b.runs) ==> Marked(RunOne(b, op).after.runs)
    decreases op, 0, 0
  {
    RunGrows(b.(uncharged := true), op.body);
  }

  lemma {:induction false} CollectingGrows(b: Budgets, op: Op)
    requires op.Collecting?
    ensures GrownBy(b, RunOne(b, op).after, RunOne(b, op).notes)
    ensures Marked(b.runs) ==> Marked(RunOne(b, op).after.runs)
    decreases op, 0, 0
  {
    RunGrows(b.(collections := b.collections + 1, collectionExhausted := b.collections > 0 && b.collectionExhausted), op.body);
  }

  lemma {:induction false} InTacticGrows(b: Budgets, op: Op)
    requires op.InTactic?
    ensures GrownBy(b, RunOne(b, op).after, RunOne(b, op).notes)
    ensures Marked(b.runs) ==> Marked(RunOne(b, op).after.runs)
    decreases op, 0, 0
  {
    var begun := TacticStarted(b, op.event);
    var t := Run(begun, op.body);
    RunGrows(begun, op.body);
    EndsInnermost(t.after.tactics, op.event);
    assert forall i :: 0 <= i < |b.tactics| ==> begun.tactics[i] == b.tactics[i];
  }

  lemma {:induction false} UnderRunGrows(b: Budgets, op: Op)
    requires op.UnderRun?
    ensures GrownBy(b, RunOne(b, op).after, RunOne(b, op).notes)
    ensures Marked(b.runs) ==> Marked(RunOne(b, op).after.runs)
    decreases op, 0, 0
  {
    var begun := RunBegun(b, op.limit);
    var t := Run(begun, op.body);
    RunGrows(begun, op.body);
    assert forall i :: 0 <= i < |b.runs| ==> begun.runs[i] == b.runs[i];
  }

  lemma {:induction false} UnderFuelGrows(b: Budgets, op: Op)
    requires op.UnderFuel?
    ensures GrownBy(b, RunOne(b, op).after, RunOne(b, op).notes)
    ensures Marked(b.runs) ==> Marked(RunOne(b, op).after.runs)
    decreases op, 0, 0
  {
    RunGrows(if b.fuel.Some? then b else b.(fuel := Some(op.limit)), op.body);
  }

  lemma {:induction false} MeasuredGrows(b: Budgets, op: Op)
    requires op.Measured?
    ensures GrownBy(b, RunOne(b, op).after, RunOne(b, op).notes)
    ensures Marked(b.runs) ==> Marked(RunOne(b, op).after.runs)
    decreases op, 0, 0
  {
    var begun := b.(counters := b.counters + [0]);
    var t := Run(begun, op.body);
    RunGrows(begun, op.body);
    assert forall i :: 0 <= i < |b.counters| ==> begun.counters[i] == b.counters[i];
  }

  /** Over any well-bracketed run every open budget and counter is charged exactly the units spent, and open fuel with those burned besides. */
  lemma {:induction false} RunGrows(b: Budgets, ops: seq<Op>)
    ensures GrownBy(b, Run(b, ops).after, Run(b, ops).notes)
    ensures Marked(b.runs) ==> Marked(Run(b, ops).after.runs)
    decreases ops, 1
  {
    if ops != [] {
      var first := RunOne(b, ops[0]);
      var rest := Run(first.after, ops[1..]);
      RunOneGrows(b, ops[0]);
      RunGrows(first.after, ops[1..]);
      GrownOn(b, first.after, rest.after, first.notes, rest.notes);
    }
  }

  // ---------- where the units went ----------

  ghost function UsedBy(tactics: seq<ActiveTactic>): nat {
    if tactics == [] then 0 else UsedBy(tactics[..|tactics| - 1]) + tactics[|tactics| - 1].used
  }

  ghost function Sampled(samples: seq<Sample>): nat {
    if samples == [] then 0 else Sampled(samples[..|samples| - 1]) + samples[|samples| - 1].work
  }

  /** The exclusive work of every tactic, running or ended. */
  ghost function Exclusive(b: Budgets): nat {
    UsedBy(b.tactics) + Sampled(b.samples)
  }

  /**
   * The exclusive work of tactics has grown by what the notes say landed on
   * tactics: by no more, and exactly as long as no counter saturates.
   */
  ghost predicate Conserved(b: Budgets, c: Budgets, notes: seq<Note>) {
    && Exclusive(c) <= Exclusive(b) + PaidBy(Tactic, notes)
    && (Exclusive(b) + PaidBy(Tactic, notes) <= USIZE_MAX ==> Exclusive(c) == Exclusive(b) + PaidBy(Tactic, notes))
  }

  lemma ConservedOn(a: Budgets, b: Budgets, c: Budgets, first: seq<Note>, rest: seq<Note>)
    requires Conserved(a, b, first) && Conserved(b, c, rest)
    ensures Conserved(a, c, first + rest)
  {
    PaidByConcat(Tactic, first, rest);
  }

  lemma {:induction false} TopIsPart(tactics: seq<ActiveTactic>)
    requires tactics != []
    ensures tactics[|tactics| - 1].used <= UsedBy(tactics)
  {
  }

  lemma ChargeTacticConserves(b: Budgets, units: USize)
    ensures Conserved(b, ChargeTactic(b, units).after, [Charging(b, units)])
  {
    TotalOfOne(Charging(b, units));
    var c := ChargeTactic(b, units).after;
    if b.tactics != [] {
      TopIsPart(b.tactics);
      assert c.tactics[..|c.tactics| - 1] == b.tactics[..|b.tactics| - 1];
    }
  }

  lemma ChargeConserves(b: Budgets, units: USize)
    ensures Conserved(b, Charge(b, units).after, [Charging(b, units)])
  {
    var counted := SpendFuel(b, units).(counters := CountedAll(b.counters, units));
    ChargeTacticConserves(counted, units);
  }

  lemma {:induction false} CheckConserves(b: Budgets, units: USize, contained: bool)
    ensures Conserved(b, RunOne(b, Check(units, contained)).after, RunOne(b, Check(units, contained)).notes)
  {
    ChargeConserves(b, units);
    TotalOfCheck(Charging(b, units), Reported(contained, Checkpoint(b, units, contained).exceeded));
    TotalOfOne(Charging(b, units));
  }

  /** The budgets a scope's body starts from. */
  function Begun(b: Budgets, op: Op): Budgets {
    match op
    case Work(_, _) => b
    case Check(_, _) => b
    case Burn(_) => b
    case InTactic(event, _, _) => TacticStarted(b, event)
    case UnderRun(limit, _) => RunBegun(b, limit)
    case UnderLimits(limits, _) => LimitsInstalled(b, limits)
    case UnderFuel(limit, _) => if b.fuel.Some? then b else b.(fuel := Some(limit))
    case Uncharged(_) => b.(uncharged := true)
    case Collecting(_) => b.(collections := b.collections + 1, collectionExhausted := b.collections > 0 && b.collectionExhausted)
    case Measured(_) => b.(counters := b.counters + [0])
  }

  predicate IsScope(op: Op) {
    !op.Work? && !op.Check? && !op.Burn?
  }

  lemma {:induction false} ScopeNotes(b: Budgets, op: Op)
    requires IsScope(op)
    ensures RunOne(b, op).notes == Run(Begun(b, op), op.body).notes
  {
  }

  /** Opening a scope leaves the exclusive work of tactics as it was, and so does closing it. */
  lemma BegunKeepsExclusive(b: Budgets, op: Op)
    ensures Exclusive(Begun(b, op)) == Exclusive(b)
  {
    if op.InTactic? {
      assert TacticStarted(b, op.event).tactics[..|b.tactics|] == b.tactics;
    }
  }

  lemma {:induction false} TacticEndKeepsExclusive(b: Budgets, op: Op)
    requires op.InTactic?
    ensures Exclusive(RunOne(b, op).after) == Exclusive(Run(Begun(b, op), op.body).after)
  {
    var t := Run(Begun(b, op), op.body);
    var ended := RunOne(b, op).after;
    EndsInnermost(t.after.tactics, op.event);
    assert ended.tactics == t.after.tactics[..|t.after.tactics| - 1];
    assert ended.samples[..|t.after.samples|] == t.after.samples;
  }

  lemma {:induction false} EndKeepsExclusive(b: Budgets, op: Op)
    requires IsScope(op)
    ensures Exclusive(RunOne(b, op).after) == Exclusive(Run(Begun(b, op), op.body).after)
  {
    if op.InTactic? {
      TacticEndKeepsExclusive(b, op);
    } else {
      EndKeepsTactics(b, op);
    }
  }

  lemma {:induction false} EndKeepsTactics(b: Budgets, op: Op)
    requires IsScope(op) && !op.InTactic?
    ensures RunOne(b, op).after.tactics == Run(Begun(b, op), op.body).after.tactics
    ensures RunOne(b, op).after.samples == Run(Begun(b, op), op.body).after.samples
  {
  }

  lemma {:induction false} RunOneConserves(b: Budgets, op: Op)
    ensures Conserved(b, RunOne(b, op).after, RunOne(b, op).notes)
    decreases op, 0
  {
    if op.Work? {
      ChargeConserves(b, op.units);
    } else if op.Check? {
      CheckConserves(b, op.units, op.contained);
    } else if op.Burn? {
      TotalOfOne(Burned(op.units));
    } else {
      ScopeNotes(b, op);
      BegunKeepsExclusive(b, op);
      EndKeepsExclusive(b, op);
      RunConserves(Begun(b, op), op.body);
    }
  }

  /** What lands on tactics is the growth of their exclusive work, exactly so short of saturation. */
  lemma {:induction false} RunConserves(b: Budgets, ops: seq<Op>)
    ensures Conserved(b, Run(b, ops).after, Run(b, ops).notes)
    decreases ops, 1
  {
    if ops != [] {
      var first := RunOne(b, ops[0]);
      var rest := Run(first.after, ops[1..]);
      RunOneConserves(b, ops[0]);
      RunConserves(first.after, ops[1..]);
      ConservedOn(b, first.after, rest.after, first.notes, rest.notes);
    }
  }

  /**
   * What a run budget has used when its scope ends: all units charged inside, as
   * far as its counter can count. They are the tactics' exclusive work there, the
   * work outside any tactic, and the work of tactics already past their own
   * exhaustion; the tactics' own counters fall behind only by saturating.
   */
  lemma RunBudgetAccounts(b: Budgets, limit: USize, body: seq<Op>)
    ensures var t := Run(RunBegun(b, limit), body);
            && t.after.runs[|b.runs|].limit == limit
            && t.after.runs[|b.runs|].used == Capped(Total(t.notes))
            && Total(t.notes) == PaidBy(Tactic, t.notes) + PaidBy(Driver, t.notes) + PaidBy(Exhausted, t.notes)
            && Conserved(b, t.after, t.notes)
  {
    var begun := RunBegun(b, limit);
    var t := Run(begun, body);
    RunGrows(begun, body);
    assert RunCharged(begun.runs[|b.runs|], t.after.runs[|b.runs|], Total(t.notes));
    RunConserves(begun, body);
    EveryUnitIsPaid(t.notes);
  }

  /**
   * Short of saturation a run budget has used the tactics' exclusive work and the
   * work outside tactics exactly when no tactic was charged past its exhaustion.
   */
  lemma TwoPartsExactlyWhen(b: Budgets, limit: USize, body: seq<Op>)
    requires Exclusive(b) + Total(Run(RunBegun(b, limit), body).notes) <= USIZE_MAX
    ensures var t := Run(RunBegun(b, limit), body);
            t.after.runs[|b.runs|].used == Exclusive(t.after) - Exclusive(b) + PaidBy(Driver, t.notes) <==> PaidBy(Exhausted, t.notes) == 0
  {
    RunBudgetAccounts(b, limit, body);
  }

  /** A tactic that works past its limit, and then once more: what it spends last is in neither part. */
  function Overworked(event: TacticEvent, first: USize, last: USize): seq<Op> {
    [InTactic(event, [Work(first, false), Work(last, false)], false)]
  }

  lemma OverworkedIsApart(limits: TacticLimits, event: TacticEvent, limit: USize, first: USize, last: USize)
    requires ClassLimit(limits, event.class_).Some? && first > ClassLimit(limits, event.class_).value && first + last <= USIZE_MAX
    ensures var b := Budgets([], [], [limits], None, [], None, false, 0, false, []);
            var t := Run(RunBegun(b, limit), Overworked(event, first, last));
            && PaidBy(Exhausted, t.notes) == last
            && Exclusive(t.after) - Exclusive(b) + PaidBy(Driver, t.notes) == first
            && t.after.runs[0].used == first + last
  {
    var b := Budgets([], [], [limits], None, [], None, false, 0, false, []);
    var begun := TacticStarted(RunBegun(b, limit), event);
    var middle := Charge(begun, first).after;
    var works := [Work(first, false), Work(last, false)];
    TwoSteps(begun, works[0], works[1]);
    OneStep(RunBegun(b, limit), Overworked(event, first, last)[0]);
    assert PayerOf(begun) == Tactic && PayerOf(middle) == Exhausted;
    var notes := Run(RunBegun(b, limit), Overworked(event, first, last)).notes;
    assert notes == [Spent(first, Tactic, 1), Spent(last, Exhausted, 1)];
    assert notes[1..] == [Spent(last, Exhausted, 1)];
    TotalOfOne(Spent(last, Exhausted, 1));
    RunBudgetAccounts(b, limit, Overworked(event, first, last));
  }

  lemma OneStep(b: Budgets, op: Op)
    ensures Run(b, [op]) == Trace(RunOne(b, op).after, RunOne(b, op).notes)
  {
    assert [op][1..] == [];
    assert Run(RunOne(b, op).after, []) == Trace(RunOne(b, op).after, []);
  }

  lemma TwoSteps(b: Budgets, first: Op, second: Op)
    ensures Run(b, [first, second]) ==
            Trace(RunOne(RunOne(b, first).after, second).after, RunOne(b, first).notes + RunOne(RunOne(b, first).after, second).notes)
  {
    assert [first, second][1..] == [second];
    OneStep(RunOne(b, first).after, second);
  }

  /** A nested tactic's work is not charged to the tactics around it. */
  lemma NestedTacticIsExclusive(b: Budgets, event: TacticEvent, body: seq<Op>, failed: bool)
    ensures RunOne(b, InTactic(event, body, failed)).after.tactics == b.tactics
  {
    var begun := TacticStarted(b, event);
    var t := Run(begun, body);
    RunGrows(begun, body);
    EndsInnermost(t.after.tactics, event);
    assert forall i :: 0 <= i < |b.tactics| ==> t.after.tactics[i] == begun.tactics[i];
  }

  // ---------- what else a run leaves ----------

  /** A measurement counts exactly the units charged inside it. */
  lemma MeasuredExactly(b: Budgets, body: seq<Op>)
    ensures var t := Run(b.(counters := b.counters + [0]), body);
            t.after.counters[|b.counters|] == Capped(Total(t.notes))
  {
    RunGrows(b.(counters := b.counters + [0]), body);
  }

  // ---------- a pending run limit outlives no budget that raised it ----------

  ghost predicate PendingIsOpen(b: Budgets) {
    b.pending == Some(RunWork) ==> AnyExhausted(b.runs)
  }

  lemma ChargeKeepsPending(b: Budgets, units: USize)
    requires PendingIsOpen(b)
    ensures PendingIsOpen(Charge(b, units).after)
  {
    var c := Charge(b, units).after;
    assert c.runs == ChargedRuns(b.runs, units);
    if c.pending == Some(RunWork) {
      if AnyExhausted(b.runs) {
        var i :| 0 <= i < |b.runs| && b.runs[i].exhausted;
        assert c.runs[i].exhausted;
      } else {
        var i :| 0 <= i < |b.runs| && SaturatingAdd(b.runs[i].used, units) > b.runs[i].limit && !b.runs[i].exhausted;
        assert c.runs[i].exhausted;
      }
    }
  }

  lemma {:induction false} RunOneKeepsPending(b: Budgets, op: Op)
    requires PendingIsOpen(b)
    ensures PendingIsOpen(RunOne(b, op).after)
    decreases op, 0
  {
    match op
    case Work(units, _) => ChargeKeepsPending(b, units);
    case Check(units, _) => ChargeKeepsPending(b, units);
    case Burn(_) =>
    case InTactic(event, body, _) => RunKeepsPending(TacticStarted(b, event), body);
    case UnderRun(limit, body) =>
      var begun := RunBegun(b, limit);
      if AnyExhausted(b.runs) {
        var i :| 0 <= i < |b.runs| && b.runs[i].exhausted;
        assert begun.runs[i].exhausted;
      }
      RunKeepsPending(begun, body);
    case UnderLimits(limits, body) => RunKeepsPending(LimitsInstalled(b, limits), body);
    case UnderFuel(limit, body) => RunKeepsPending(if b.fuel.Some? then b else b.(fuel := Some(limit)), body);
    case Uncharged(body) => RunKeepsPending(b.(uncharged := true), body);
    case Collecting(body) =>
      RunKeepsPending(b.(collections := b.collections + 1, collectionExhausted := b.collections > 0 && b.collectionExhausted), body);
    case Measured(body) => RunKeepsPending(b.(counters := b.counters + [0]), body);
  }

  /** In every run a pending run limit has an exhausted budget still open, so none leaks past the outermost. */
  lemma {:induction false} RunKeepsPending(b: Budgets, ops: seq<Op>)
    requires PendingIsOpen(b)
    ensures PendingIsOpen(Run(b, ops).after)
    decreases ops, 1
  {
    if ops != [] {
      RunOneKeepsPending(b, ops[0]);
      RunKeepsPending(RunOne(b, ops[0]).after, ops[1..]);
    }
  }

  /**
   * When its scope ends, a run budget is found exhausted exactly when more
   * than its limit was charged inside, as far as its counter can count.
   */
  lemma ExhaustionIsExact(b: Budgets, limit: USize, body: seq<Op>)
    requires Marked(b.runs)
    ensures var t := Run(RunBegun(b, limit), body);
            RunWorkExhaustion(t.after) == if Capped(Total(t.notes)) > limit then Some((Capped(Total(t.notes)), limit)) else None
  {
    var begun := RunBegun(b, limit);
    var t := Run(begun, body);
    RunGrows(begun, body);
    var i := |b.runs|;
    assert RunCharged(begun.runs[i], t.after.runs[i], Total(t.notes));
    assert t.after.runs[i].exhausted <==> t.after.runs[i].used > t.after.runs[i].limit;
  }
}
