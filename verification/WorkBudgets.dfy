/**
 * Deterministic work budgets: nested whole-run budgets, the innermost
 * tactic's exclusive budget, sticky exhaustion, and the limit left pending
 * for the next checkpoint. The thread's cells are the fields of one object;
 * each operation is proved against a function of their values.
 */
module WorkBudgets {
  import opened Ordering
  import opened Machine

  datatype TacticEvent = TacticEvent(claim: string, index: nat, name: string, class_: string)

  datatype TacticLimits = TacticLimits(simple: USize, smart: USize, control: USize)

  datatype RunLimit = RunLimit(used: USize, limit: USize, exhausted: bool)

  datatype ActiveTactic = ActiveTactic(event: TacticEvent, used: USize, limit: Option<USize>, exhausted: bool)

  /** Which budget's exhaustion waits to be reported. */
  datatype PendingLimit = TacticWork | RunWork

  datatype Sample = Sample(event: TacticEvent, work: USize, failed: bool)

  /** The values of the thread's cells. */
  datatype Budgets = Budgets(
    runs: seq<RunLimit>,
    tactics: seq<ActiveTactic>,
    installed: seq<TacticLimits>,
    pending: Option<PendingLimit>,
    counters: seq<USize>,
    fuel: Option<USize>,
    uncharged: bool,
    collections: nat,
    collectionExhausted: bool,
    samples: seq<Sample>
  )

  // ---------- what each operation does ----------

  function ChargedRun(run: RunLimit, units: USize): RunLimit {
    var used := SaturatingAdd(run.used, units);
    RunLimit(used, run.limit, run.exhausted || used > run.limit)
  }

  function ChargedRuns(runs: seq<RunLimit>, units: USize): seq<RunLimit> {
    seq(|runs|, i requires 0 <= i < |runs| => ChargedRun(runs[i], units))
  }

  predicate AnyOver(runs: seq<RunLimit>) {
    exists i :: 0 <= i < |runs| && runs[i].used > runs[i].limit
  }

  predicate AnyExhausted(runs: seq<RunLimit>) {
    exists i :: 0 <= i < |runs| && runs[i].exhausted
  }

  /** Some budget is over that was not marked so before. */
  predicate FirstOver(runs: seq<RunLimit>, units: USize) {
    exists i :: 0 <= i < |runs| && SaturatingAdd(runs[i].used, units) > runs[i].limit && !runs[i].exhausted
  }

  /** The budgets after a charge, and whether none was exceeded. */
  datatype Charged = Charged(after: Budgets, within: bool)

  function ChargeRuns(b: Budgets, units: USize): Charged {
    var runs := ChargedRuns(b.runs, units);
    var pending := if FirstOver(b.runs, units) && b.pending == None then Some(RunWork) else b.pending;
    Charged(b.(runs := runs, pending := pending), !AnyOver(runs))
  }

  /** Only the innermost tactic is charged, and nothing more once it is exhausted. */
  function ChargeTactic(b: Budgets, units: USize): Charged {
    if b.tactics == [] then Charged(b, true)
    else
      var current := b.tactics[|b.tactics| - 1];
      if current.exhausted then
        if b.pending.Some? then Charged(b, false)
        else if current.limit == None then Charged(b, true)
        else Charged(b.(pending := Some(TacticWork)), false)
      else
        var used := SaturatingAdd(current.used, units);
        var over := current.limit.Some? && used > current.limit.value;
        var tactics := b.tactics[|b.tactics| - 1 := current.(used := used, exhausted := over)];
        Charged(b.(tactics := tactics, pending := if over && b.pending == None then Some(TacticWork) else b.pending), !over)
  }

  function SpendFuel(b: Budgets, units: USize): Budgets {
    if b.fuel.Some? then b.(fuel := Some(SaturatingSub(b.fuel.value, units))) else b
  }

  function CountedAll(counters: seq<USize>, units: USize): seq<USize> {
    seq(|counters|, i requires 0 <= i < |counters| => SaturatingAdd(counters[i], units))
  }

  function Charge(b: Budgets, units: USize): Charged {
    var counted := SpendFuel(b, units).(counters := CountedAll(b.counters, units));
    var tactic := ChargeTactic(counted, units);
    var run := ChargeRuns(tactic.after, units);
    Charged(run.after, tactic.within && run.within)
  }

  predicate FuelSpent(b: Budgets) {
    b.fuel == Some(0)
  }

  /** A checkpoint charges, then reports whether any limit has fired; `contained` is the wall clock's verdict. */
  datatype Checked = Checked(after: Budgets, exceeded: bool)

  function Checkpoint(b: Budgets, units: USize, contained: bool): Checked {
    var charged := Charge(b, units);
    Checked(charged.after, !charged.within || contained || charged.after.pending.Some? || FuelSpent(charged.after))
  }

  /** With these units some open run budget is past its limit. */
  ghost predicate RunPast(b: Budgets, units: USize) {
    exists i :: 0 <= i < |b.runs| && Capped(b.runs[i].used + units) > b.runs[i].limit
  }

  /** With these units, or before, the innermost tactic is past its limit. */
  ghost predicate TacticPast(b: Budgets, units: USize) {
    b.tactics != [] &&
    var top := b.tactics[|b.tactics| - 1];
    top.limit.Some? && (top.exhausted || Capped(top.used + units) > top.limit.value)
  }

  /** With these units the open decision's fuel is spent. */
  ghost predicate FuelPast(b: Budgets, units: USize) {
    b.fuel.Some? && b.fuel.value <= units
  }

  /** A checkpoint reports in no other case: the wall clock, a limit pending, or one this charge reaches. */
  lemma CheckpointReports(b: Budgets, units: USize, contained: bool)
    ensures Checkpoint(b, units, contained).exceeded
       <==> contained || b.pending.Some? || RunPast(b, units) || TacticPast(b, units) || FuelPast(b, units)
  {
    var counted := SpendFuel(b, units).(counters := CountedAll(b.counters, units));
    var tactic := ChargeTactic(counted, units);
    assert tactic.after.runs == b.runs;
    OverIsPast(b, units);
  }

  lemma OverIsPast(b: Budgets, units: USize)
    ensures AnyOver(ChargedRuns(b.runs, units)) <==> RunPast(b, units)
  {
    var runs := ChargedRuns(b.runs, units);
    assert forall i :: 0 <= i < |b.runs| ==> runs[i].used == Capped(b.runs[i].used + units) && runs[i].limit == b.runs[i].limit;
    if RunPast(b, units) {
      var i :| 0 <= i < |b.runs| && Capped(b.runs[i].used + units) > b.runs[i].limit;
      assert runs[i].used > runs[i].limit;
    }
  }

  predicate Charges(b: Budgets) {
    !b.uncharged && !(b.collections > 0 && b.collectionExhausted)
  }

  /** Recording charges without interrupting; inside a checked collection it is a checkpoint. */
  function Record(b: Budgets, units: USize, contained: bool): Budgets {
    if !Charges(b) then b
    else if b.collections > 0 then
      var checked := Checkpoint(b, units, contained);
      if checked.exceeded && !FuelSpent(checked.after) then checked.after.(collectionExhausted := true) else checked.after
    else Charge(b, units).after
  }

  function ClassLimit(limits: TacticLimits, class_: string): Option<USize> {
    if class_ == "simple" then Some(limits.simple)
    else if class_ == "smart" then Some(limits.smart)
    else if class_ == "control" then Some(limits.control)
    else None
  }

  /** The limit of a tactic of this class under the limits installed last. */
  ghost predicate InForce(b: Budgets, class_: string, limit: Option<USize>) {
    if b.installed == [] then limit == None
    else
      var limits := b.installed[|b.installed| - 1];
      && (class_ == "simple" ==> limit == Some(limits.simple))
      && (class_ == "smart" ==> limit == Some(limits.smart))
      && (class_ == "control" ==> limit == Some(limits.control))
      && (class_ !in ["simple", "smart", "control"] ==> limit == None)
  }

  function TacticStarted(b: Budgets, event: TacticEvent): Budgets {
    var limit := if b.installed == [] then None else ClassLimit(b.installed[|b.installed| - 1], event.class_);
    b.(tactics := b.tactics + [ActiveTactic(event, 0, limit, false)])
  }

  /** The last tactic started with this event. */
  function LastIndex(tactics: seq<ActiveTactic>, event: TacticEvent): int {
    if tactics == [] then -1
    else if tactics[|tactics| - 1].event == event then |tactics| - 1
    else LastIndex(tactics[..|tactics| - 1], event)
  }

  lemma {:induction false} LastIndexInRange(tactics: seq<ActiveTactic>, event: TacticEvent)
    ensures -1 <= LastIndex(tactics, event) < |tactics|
  {
    if tactics != [] { LastIndexInRange(tactics[..|tactics| - 1], event); }
  }

  function TacticEnded(b: Budgets, event: TacticEvent, failed: bool): Budgets {
    LastIndexInRange(b.tactics, event);
    var i := LastIndex(b.tactics, event);
    if i < 0 then b
    else b.(tactics := b.tactics[..i] + b.tactics[i + 1..], samples := b.samples + [Sample(event, b.tactics[i].used, failed)])
  }

  function RunBegun(b: Budgets, limit: USize): Budgets {
    b.(runs := b.runs + [RunLimit(0, limit, false)])
  }

  function Cleared(b: Budgets, kind: PendingLimit): Budgets {
    if b.pending == Some(kind) then b.(pending := None) else b
  }

  /** Closing a run budget forgets a pending run limit unless an enclosing budget is exhausted too. */
  function RunEnded(b: Budgets): Budgets
    requires b.runs != []
  {
    var popped := b.(runs := b.runs[..|b.runs| - 1]);
    if AnyExhausted(popped.runs) then popped else Cleared(popped, RunWork)
  }

  function LimitsInstalled(b: Budgets, limits: TacticLimits): Budgets {
    b.(installed := b.installed + [limits])
  }

  function LimitsRemoved(b: Budgets): Budgets
    requires b.installed != []
  {
    Cleared(b.(installed := b.installed[..|b.installed| - 1]), TacticWork)
  }

  /** The innermost run budget's use and limit, if it is exhausted. */
  function RunWorkExhaustion(b: Budgets): Option<(USize, USize)> {
    if b.runs != [] && b.runs[|b.runs| - 1].exhausted
    then Some((b.runs[|b.runs| - 1].used, b.runs[|b.runs| - 1].limit)) else None
  }

  // ---------- the cells, updated in place ----------

  class Instrumentation {
    var runs: seq<RunLimit>
    var tactics: seq<ActiveTactic>
    var installed: seq<TacticLimits>
    var pending: Option<PendingLimit>
    var counters: seq<USize>
    var fuel: Option<USize>
    var uncharged: bool
    var collections: nat
    var collectionExhausted: bool
    var samples: seq<Sample>

    ghost function State(): Budgets
      reads this
    {
      Budgets(runs, tactics, installed, pending, counters, fuel, uncharged, collections, collectionExhausted, samples)
    }

    constructor ()
      ensures State() == Budgets([], [], [], None, [], None, false, 0, false, [])
    {
      runs, tactics, installed, pending, counters := [], [], [], None, [];
      fuel, uncharged, collections, collectionExhausted, samples := None, false, 0, false, [];
    }

    method SpendDecisionFuel(units: USize)
      modifies this`fuel
      ensures State() == SpendFuel(old(State()), units)
    {
      if fuel.Some? {
        fuel := Some(SaturatingSub(fuel.value, units));
      }
    }

    method CountWork(units: USize)
      modifies this`counters
      ensures State() == old(State()).(counters := CountedAll(old(counters), units))
    {
      for i := 0 to |counters|
        invariant |counters| == |old(counters)|
        invariant forall j :: 0 <= j < i ==> counters[j] == SaturatingAdd(old(counters)[j], units)
        invariant forall j :: i <= j < |counters| ==> counters[j] == old(counters)[j]
      {
        counters := counters[i := SaturatingAdd(counters[i], units)];
      }
    }

    method ChargeTacticWork(units: USize) returns (within: bool)
      modifies this`tactics, this`pending
      ensures Charged(State(), within) == ChargeTactic(old(State()), units)
    {
      if tactics == [] {
        return true;
      }
      var current := tactics[|tactics| - 1];
      if current.exhausted {
        if pending.Some? {
          return false;
        }
        if current.limit == None {
          return true;
        }
        pending := Some(TacticWork);
        return false;
      }
      var used := SaturatingAdd(current.used, units);
      if current.limit == None || used <= current.limit.value {
        tactics := tactics[|tactics| - 1 := current.(used := used)];
        return true;
      }
      tactics := tactics[|tactics| - 1 := current.(used := used, exhausted := true)];
      if pending == None {
        pending := Some(TacticWork);
      }
      return false;
    }

    method ChargeRunWork(units: USize) returns (within: bool)
      modifies this`runs, this`pending
      ensures Charged(State(), within) == ChargeRuns(old(State()), units)
    {
      var any, first := false, false;
      for i := 0 to |runs|
        invariant |runs| == |old(runs)| && pending == old(pending)
        invariant forall j :: 0 <= j < i ==> runs[j] == ChargedRun(old(runs)[j], units)
        invariant forall j :: i <= j < |runs| ==> runs[j] == old(runs)[j]
        invariant any <==> exists j :: 0 <= j < i && runs[j].used > runs[j].limit
        invariant first <==> exists j :: 0 <= j < i && SaturatingAdd(old(runs)[j].used, units) > old(runs)[j].limit && !old(runs)[j].exhausted
      {
        var run := runs[i];
        var used := SaturatingAdd(run.used, units);
        if used > run.limit {
          any := true;
          if !run.exhausted {
            first := true;
          }
          runs := runs[i := RunLimit(used, run.limit, true)];
        } else {
          runs := runs[i := RunLimit(used, run.limit, run.exhausted)];
        }
      }
      assert runs == ChargedRuns(old(runs), units);
      if first && pending == None {
        pending := Some(RunWork);
      }
      return !any;
    }

    method ChargeDeterministicWork(units: USize) returns (within: bool)
      modifies this
      ensures Charged(State(), within) == Charge(old(State()), units)
    {
      SpendDecisionFuel(units);
      CountWork(units);
      var tactic := ChargeTacticWork(units);
      var run := ChargeRunWork(units);
      return tactic && run;
    }

    /** `contained` stands for an expired wall-clock containment bound. */
    method DeadlineExceededWithWork(units: USize, contained: bool) returns (exceeded: bool)
      modifies this
      ensures Checked(State(), exceeded) == Checkpoint(old(State()), units, contained)
      ensures exceeded <==>
                || contained || old(pending).Some?
                || old(RunPast(State(), units)) || old(TacticPast(State(), units)) || old(FuelPast(State(), units))
    {
      CheckpointReports(State(), units, contained);
      var within := ChargeDeterministicWork(units);
      exceeded := !within || contained || pending.Some? || fuel == Some(0);
    }

    method RecordDeterministicWork(units: USize, contained: bool)
      modifies this
      ensures State() == Record(old(State()), units, contained)
      ensures old(uncharged) || (old(collections) > 0 && old(collectionExhausted)) ==> State() == old(State())
    {
      if uncharged {
        return;
      }
      if collections > 0 {
        if collectionExhausted {
          return;
        }
        var exceeded := DeadlineExceededWithWork(units, contained);
        if exceeded && fuel != Some(0) {
          collectionExhausted := true;
        }
        return;
      }
      var _ := ChargeDeterministicWork(units);
    }

    method StartTactic(event: TacticEvent)
      modifies this`tactics
      ensures State() == TacticStarted(old(State()), event)
      ensures tactics != [] && tactics[|tactics| - 1].used == 0 && InForce(old(State()), event.class_, tactics[|tactics| - 1].limit)
    {
      var limit := if installed == [] then None else ClassLimit(installed[|installed| - 1], event.class_);
      tactics := tactics + [ActiveTactic(event, 0, limit, false)];
    }

    method EndTactic(event: TacticEvent, failed: bool)
      modifies this`tactics, this`samples
      ensures State() == TacticEnded(old(State()), event, failed)
    {
      var i := |tactics|;
      LastIndexInRange(tactics, event);
      assert tactics[..|tactics|] == tactics;
      while i > 0 && tactics[i - 1].event != event
        invariant 0 <= i <= |tactics|
        invariant LastIndex(tactics, event) == LastIndex(tactics[..i], event)
      {
        assert tactics[..i][..i - 1] == tactics[..i - 1];
        i := i - 1;
      }
      if i > 0 {
        assert LastIndex(tactics[..i], event) == i - 1;
        var ended := tactics[i - 1];
        tactics := tactics[..i - 1] + tactics[i..];
        samples := samples + [Sample(event, ended.used, failed)];
      } else {
        assert LastIndex(tactics[..0], event) == -1;
      }
    }

    method BeginRun(limit: USize)
      modifies this`runs
      ensures State() == RunBegun(old(State()), limit)
    {
      runs := runs + [RunLimit(0, limit, false)];
    }

    method ClearPending(kind: PendingLimit)
      modifies this`pending
      ensures State() == Cleared(old(State()), kind)
    {
      if pending == Some(kind) {
        pending := None;
      }
    }

    method EndRun()
      requires runs != []
      modifies this`runs, this`pending
      ensures State() == RunEnded(old(State()))
    {
      runs := runs[..|runs| - 1];
      if !AnyExhausted(runs) {
        ClearPending(RunWork);
      }
    }

    method InstallLimits(limits: TacticLimits)
      modifies this`installed
      ensures State() == LimitsInstalled(old(State()), limits)
    {
      installed := installed + [limits];
    }

    method RemoveLimits()
      requires installed != []
      modifies this`installed, this`pending
      ensures State() == LimitsRemoved(old(State()))
    {
      installed := installed[..|installed| - 1];
      ClearPending(TacticWork);
    }
  }
}
