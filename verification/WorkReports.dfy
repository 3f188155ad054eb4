/**
 * What checkpoints report over whole runs, both ways: exactly when a limit was
 * reached, pending, or the wall clock expired; nothing while every charge finds
 * room; and what becomes of a tactic past its limit.
 */
module WorkReports {
  import opened Ordering
  import opened Machine
  import opened WorkBudgets
  import opened WorkRuns

  // ---------- what a tactic has been charged ----------

  /** The units charged while exactly `depth` tactics were open: those of the innermost. */
  ghost function PaidTo(depth: nat, notes: seq<Note>): nat {
    if notes == [] then 0
    else (if notes[0].Spent? && notes[0].depth == depth then notes[0].units else 0) + PaidTo(depth, notes[1..])
  }

  lemma {:induction false} PaidToConcat(depth: nat, a: seq<Note>, b: seq<Note>)
    ensures PaidTo(depth, a + b) == PaidTo(depth, a) + PaidTo(depth, b)
  {
    if a == [] {
      assert a + b == b;
    } else {
      PaidToConcat(depth, a[1..], b);
      assert (a + b)[1..] == a[1..] + b;
    }
  }

  /** Every charge was made with at least `depth` tactics open. */
  ghost predicate Deep(depth: nat, notes: seq<Note>) {
    forall i :: 0 <= i < |notes| && notes[i].Spent? ==> notes[i].depth >= depth
  }

  lemma {:induction false} NothingPaidAbove(depth: nat, notes: seq<Note>)
    requires Deep(depth + 1, notes)
    ensures PaidTo(depth, notes) == 0
  {
    if notes != [] {
      assert notes[0].Spent? ==> notes[0].depth >= depth + 1;
      assert Deep(depth + 1, notes[1..]) by {
        assert forall i :: 0 <= i < |notes[1..]| ==> notes[1..][i] == notes[i + 1];
      }
      NothingPaidAbove(depth, notes[1..]);
    }
  }

  lemma DeepPrefix(depth: nat, notes: seq<Note>, j: nat)
    requires Deep(depth, notes) && j <= |notes|
    ensures Deep(depth, notes[..j])
  {
  }

  /** A tactic is marked exhausted exactly when past its limit. */
  ghost predicate MarkedTactic(t: ActiveTactic) {
    t.exhausted <==> t.limit.Some? && t.used > t.limit.value
  }

  ghost predicate MarkedTactics(b: Budgets) {
    forall i :: 0 <= i < |b.tactics| ==> MarkedTactic(b.tactics[i])
  }

  /** `t` after being charged `paid` units: exhausted exactly when they pass its limit, and counting them until then. */
  ghost predicate TacticCharged(t: ActiveTactic, u: ActiveTactic, paid: nat) {
    && u.event == t.event && u.limit == t.limit && MarkedTactic(u)
    && (u.exhausted <==> t.limit.Some? && Capped(t.used + paid) > t.limit.value)
    && (!u.exhausted ==> u.used == Capped(t.used + paid))
  }

  /** The tactic innermost in `b` has been charged what was spent while it was innermost. */
  ghost predicate TopGrown(b: Budgets, c: Budgets, notes: seq<Note>) {
    b.tactics != [] ==>
      && |c.tactics| >= |b.tactics|
      && TacticCharged(b.tactics[|b.tactics| - 1], c.tactics[|b.tactics| - 1], PaidTo(|b.tactics|, notes))
  }

  lemma TopGrownOn(a: Budgets, b: Budgets, c: Budgets, first: seq<Note>, rest: seq<Note>)
    requires TopGrown(a, b, first) && TopGrown(b, c, rest) && |a.tactics| == |b.tactics|
    ensures TopGrown(a, c, first + rest)
  {
    PaidToConcat(|a.tactics|, first, rest);
  }

  lemma TopSame(b: Budgets, c: Budgets, notes: seq<Note>)
    requires MarkedTactics(b) && |b.tactics| <= |c.tactics| && b.tactics == c.tactics[..|b.tactics|]
    requires PaidTo(|b.tactics|, notes) == 0
    ensures TopGrown(b, c, notes)
  {
    if b.tactics != [] {
      assert c.tactics[|b.tactics| - 1] == b.tactics[|b.tactics| - 1];
    }
  }

  lemma PaidToOfOne(depth: nat, note: Note)
    ensures PaidTo(depth, [note]) == if note.Spent? && note.depth == depth then note.units else 0
  {
    assert [note][1..] == [];
  }

  lemma PaidToOfCheck(depth: nat, paid: Note, report: Note)
    requires paid.Spent? && report.Reported?
    ensures PaidTo(depth, [paid, report]) == PaidTo(depth, [paid])
  {
    PaidToOfOne(depth, report);
    PaidToOfOne(depth, paid);
    assert [paid, report][1..] == [report];
  }

  lemma ChargeTops(b: Budgets, units: USize)
    requires MarkedTactics(b)
    ensures MarkedTactics(Charge(b, units).after)
    ensures TopGrown(b, Charge(b, units).after, [Charging(b, units)])
  {
    PaidToOfOne(|b.tactics|, Charging(b, units));
    var counted := SpendFuel(b, units).(counters := CountedAll(b.counters, units));
    var c := Charge(b, units).after;
    assert c.tactics == ChargeTactic(counted, units).after.tactics;
    TopCharged(counted, units);
  }

  lemma TopCharged(b: Budgets, units: USize)
    requires MarkedTactics(b)
    ensures var c := ChargeTactic(b, units).after;
            && |c.tactics| == |b.tactics| && MarkedTactics(c)
            && (b.tactics != [] ==> TacticCharged(b.tactics[|b.tactics| - 1], c.tactics[|b.tactics| - 1], units))
  {
    if b.tactics != [] {
      assert MarkedTactic(b.tactics[|b.tactics| - 1]);
    }
  }

  lemma {:induction false} RunOneTops(b: Budgets, op: Op)
    requires MarkedTactics(b)
    ensures MarkedTactics(RunOne(b, op).after) && TopGrown(b, RunOne(b, op).after, RunOne(b, op).notes)
    ensures Deep(|b.tactics|, RunOne(b, op).notes)
    decreases op, 0
  {
    if op.Work? {
      WorkTops(b, op);
    } else if op.Check? {
      CheckTops(b, op);
    } else if op.Burn? {
      PaidToOfOne(|b.tactics|, Burned(op.units));
      TopSame(b, RunOne(b, op).after, [Burned(op.units)]);
    } else {
      ScopeNotes(b, op);
      BegunTactics(b, op);
      RunTops(Begun(b, op), op.body);
      ScopeTops(b, op);
    }
  }

  lemma {:induction false} WorkTops(b: Budgets, op: Op)
    requires MarkedTactics(b) && op.Work?
    ensures MarkedTactics(RunOne(b, op).after) && TopGrown(b, RunOne(b, op).after, RunOne(b, op).notes)
    ensures Deep(|b.tactics|, RunOne(b, op).notes)
  {
    ChargeTops(b, op.units);
    if !Charges(b) {
      TopSame(b, b, []);
    } else {
      assert RunOne(b, op).after.tactics == Charge(b, op.units).after.tactics;
    }
  }

  lemma {:induction false} CheckTops(b: Budgets, op: Op)
    requires MarkedTactics(b) && op.Check?
    ensures MarkedTactics(RunOne(b, op).after) && TopGrown(b, RunOne(b, op).after, RunOne(b, op).notes)
    ensures Deep(|b.tactics|, RunOne(b, op).notes)
  {
    ChargeTops(b, op.units);
    PaidToOfCheck(|b.tactics|, Charging(b, op.units), Reported(op.contained, Checkpoint(b, op.units, op.contained).exceeded));
  }

  /** A scope opens at most one tactic, unexhausted. */
  lemma BegunTactics(b: Budgets, op: Op)
    ensures MarkedTactics(b) ==> MarkedTactics(Begun(b, op))
    ensures |b.tactics| <= |Begun(b, op).tactics| && Begun(b, op).tactics[..|b.tactics|] == b.tactics
    ensures |Begun(b, op).tactics| == |b.tactics| + if op.InTactic? then 1 else 0
    ensures Begun(b, op).pending == b.pending
  {
  }

  lemma {:induction false} ScopeTops(b: Budgets, op: Op)
    requires MarkedTactics(b) && IsScope(op)
    requires var t := Run(Begun(b, op), op.body);
             MarkedTactics(t.after) && TopGrown(Begun(b, op), t.after, t.notes) && Deep(|Begun(b, op).tactics|, t.notes)
    ensures MarkedTactics(RunOne(b, op).after) && TopGrown(b, RunOne(b, op).after, RunOne(b, op).notes)
    ensures Deep(|b.tactics|, RunOne(b, op).notes)
  {
    ScopeNotes(b, op);
    BegunTactics(b, op);
    if op.InTactic? {
      NestedTacticIsExclusive(b, op.event, op.body, op.failed);
      NothingPaidAbove(|b.tactics|, RunOne(b, op).notes);
      TopSame(b, RunOne(b, op).after, RunOne(b, op).notes);
    } else {
      EndKeepsTactics(b, op);
    }
  }

  /** Over any run the innermost tactic is exhausted exactly when what was spent in it, and in none inside it, passes its limit. */
  lemma {:induction false} RunTops(b: Budgets, ops: seq<Op>)
    requires MarkedTactics(b)
    ensures MarkedTactics(Run(b, ops).after) && TopGrown(b, Run(b, ops).after, Run(b, ops).notes)
    ensures Deep(|b.tactics|, Run(b, ops).notes)
    decreases ops, 1
  {
    if ops == [] {
      TopSame(b, b, []);
    } else {
      var first := RunOne(b, ops[0]);
      var rest := Run(first.after, ops[1..]);
      RunOneTops(b, ops[0]);
      RunTops(first.after, ops[1..]);
      TopGrownOn(b, first.after, rest.after, first.notes, rest.notes);
    }
  }

  // ---------- limits that stay pending ----------

  /** Nothing in the run opens a scope whose end forgets a pending limit. */
  predicate Lasting(ops: seq<Op>)
    decreases ops, 1
  {
    ops == [] || (LastingOne(ops[0]) && Lasting(ops[1..]))
  }

  predicate LastingOne(op: Op)
    decreases op, 0
  {
    !op.UnderRun? && !op.UnderLimits? && (op.Work? || op.Check? || op.Burn? || Lasting(op.body))
  }

  /** Wherever a tactic is past its limit, a limit is pending. */
  ghost predicate OverworkPends(b: Budgets) {
    forall i :: 0 <= i < |b.tactics| && b.tactics[i].exhausted && b.tactics[i].limit.Some? ==> b.pending.Some?
  }

  lemma ChargeLasts(b: Budgets, units: USize)
    ensures b.pending.Some? ==> Charge(b, units).after.pending.Some?
    ensures OverworkPends(b) ==> OverworkPends(Charge(b, units).after)
  {
    var counted := SpendFuel(b, units).(counters := CountedAll(b.counters, units));
    var tactic := ChargeTactic(counted, units);
    assert Charge(b, units).after.tactics == tactic.after.tactics;
    assert tactic.after.pending.Some? ==> Charge(b, units).after.pending.Some?;
  }

  lemma {:induction false} RunOneLasts(b: Budgets, op: Op)
    requires LastingOne(op) && OverworkPends(b)
    ensures OverworkPends(RunOne(b, op).after) && (b.pending.Some? ==> RunOne(b, op).after.pending.Some?)
    decreases op, 0
  {
    if op.Work? || op.Check? {
      ChargeLasts(b, op.units);
    } else if !op.Burn? {
      BegunPends(b, op);
      RunLasts(Begun(b, op), op.body);
      EndLasts(b, op);
    }
  }

  lemma BegunPends(b: Budgets, op: Op)
    requires OverworkPends(b)
    ensures OverworkPends(Begun(b, op)) && Begun(b, op).pending == b.pending
  {
    BegunTactics(b, op);
    assert forall i :: 0 <= i < |b.tactics| ==> Begun(b, op).tactics[i] == b.tactics[i];
  }

  /** The end of such a scope leaves what is pending, and no tactic it had not. */
  lemma {:induction false} EndLasts(b: Budgets, op: Op)
    requires IsScope(op) && LastingOne(op) && OverworkPends(Run(Begun(b, op), op.body).after)
    ensures OverworkPends(RunOne(b, op).after)
    ensures RunOne(b, op).after.pending == Run(Begun(b, op), op.body).after.pending
  {
    if op.InTactic? {
      EndsInnermost(Run(Begun(b, op), op.body).after.tactics, op.event);
    } else {
      EndKeepsTactics(b, op);
    }
  }

  lemma {:induction false} LastsAfter(b: Budgets, ops: seq<Op>)
    requires ops != []
    ensures Lasting(ops) && OverworkPends(b) ==> Lasting(ops[1..]) && OverworkPends(RunOne(b, ops[0]).after)
  {
    if Lasting(ops) && OverworkPends(b) {
      RunOneLasts(b, ops[0]);
    }
  }

  lemma {:induction false} RunLasts(b: Budgets, ops: seq<Op>)
    requires Lasting(ops) && OverworkPends(b)
    ensures OverworkPends(Run(b, ops).after) && (b.pending.Some? ==> Run(b, ops).after.pending.Some?)
    decreases ops, 1
  {
    if ops != [] {
      RunOneLasts(b, ops[0]);
      RunLasts(RunOne(b, ops[0]).after, ops[1..]);
    }
  }

  // ---------- what each checkpoint of a run reports ----------

  /** The report is true exactly when the clock, a run budget, a pending limit, or the fuel says so. */
  ghost predicate Exactly(m: Budgets, note: Note) {
    && note.Reported?
    && (note.exceeded <==>
          || note.contained
          || (exists i :: 0 <= i < |m.runs| && m.runs[i].used > m.runs[i].limit)
          || m.pending.Some?
          || m.fuel == Some(0))
  }

  /** A tactic past its limit that is innermost leaves a limit pending. */
  ghost predicate TopPends(m: Budgets) {
    m.tactics != [] && m.tactics[|m.tactics| - 1].exhausted && m.tactics[|m.tactics| - 1].limit.Some? ==> m.pending.Some?
  }

  /** What a checkpoint saw: the scopes around it grown by what came before, and its report from them. */
  ghost predicate Saw(b: Budgets, m: Budgets, notes: seq<Note>, j: nat)
    requires 0 < j < |notes|
  {
    && GrownBy(b, m, notes[..j]) && Exactly(m, notes[j]) && TopPends(m)
    && notes[j - 1].Spent? && |m.tactics| == notes[j - 1].depth
    && (MarkedTactics(b) ==> TopGrown(b, m, notes[..j]))
  }

  lemma ChargeExactly(b: Budgets, units: USize, contained: bool)
    ensures var c := Checkpoint(b, units, contained);
            Exactly(c.after, Reported(contained, c.exceeded)) && TopPends(c.after)
  {
    var counted := SpendFuel(b, units).(counters := CountedAll(b.counters, units));
    var tactic := ChargeTactic(counted, units);
    assert tactic.after.runs == b.runs;
    assert !tactic.within ==> tactic.after.pending.Some?;
  }

  lemma {:induction false} SawAtCheck(b: Budgets, op: Op) returns (m: Budgets)
    requires op.Check?
    ensures |RunOne(b, op).notes| == 2 && Saw(b, m, RunOne(b, op).notes, 1)
    ensures OverworkPends(b) ==> OverworkPends(m)
  {
    m := Checkpoint(b, op.units, op.contained).after;
    ChargeGrows(b, op.units);
    ChargeExactly(b, op.units, op.contained);
    ChargeLasts(b, op.units);
    var paid := [Charging(b, op.units)];
    TotalOfOne(paid[0]);
    assert RunOne(b, op).notes[..1] == paid;
    if MarkedTactics(b) {
      ChargeTops(b, op.units);
    }
  }

  /** What a scope opens leaves the scopes around it as they were. */
  lemma ScopeOpened(b: Budgets, begun: Budgets, m: Budgets, notes: seq<Note>)
    requires GrownBy(begun, m, notes)
    requires |b.runs| <= |begun.runs| && b.runs == begun.runs[..|b.runs|]
    requires |b.tactics| <= |begun.tactics| && b.tactics == begun.tactics[..|b.tactics|]
    requires |b.counters| <= |begun.counters| && b.counters == begun.counters[..|b.counters|]
    requires b.fuel.Some? ==> begun.fuel == b.fuel
    ensures GrownBy(b, m, notes)
  {
    assert forall i :: 0 <= i < |b.runs| ==> b.runs[i] == begun.runs[i];
    assert forall i :: 0 <= i < |b.tactics| ==> b.tactics[i] == begun.tactics[i];
    assert forall i :: 0 <= i < |b.counters| ==> b.counters[i] == begun.counters[i];
  }

  lemma ScopeOpenedTops(b: Budgets, op: Op, m: Budgets, notes: seq<Note>)
    requires IsScope(op) && MarkedTactics(b) && Deep(|Begun(b, op).tactics|, notes)
    requires GrownBy(Begun(b, op), m, notes) && TopGrown(Begun(b, op), m, notes)
    ensures TopGrown(b, m, notes)
  {
    BegunTactics(b, op);
    if op.InTactic? && b.tactics != [] {
      NothingPaidAbove(|b.tactics|, notes);
      assert Begun(b, op).tactics[|b.tactics| - 1] == b.tactics[|b.tactics| - 1];
    }
  }

  lemma BegunScopes(b: Budgets, op: Op)
    requires IsScope(op)
    ensures var begun := Begun(b, op);
            && |b.runs| <= |begun.runs| && b.runs == begun.runs[..|b.runs|]
            && |b.tactics| <= |begun.tactics| && b.tactics == begun.tactics[..|b.tactics|]
            && |b.counters| <= |begun.counters| && b.counters == begun.counters[..|b.counters|]
            && (b.fuel.Some? ==> begun.fuel == b.fuel)
  {
  }

  lemma {:induction false} ScopeSawTops(b: Budgets, op: Op, m: Budgets, j: nat)
    requires IsScope(op) && MarkedTactics(b) && j <= |RunOne(b, op).notes|
    requires GrownBy(Begun(b, op), m, RunOne(b, op).notes[..j])
    requires MarkedTactics(Begun(b, op)) ==> TopGrown(Begun(b, op), m, RunOne(b, op).notes[..j])
    ensures TopGrown(b, m, RunOne(b, op).notes[..j])
  {
    BegunTactics(b, op);
    ScopeNotes(b, op);
    RunTops(Begun(b, op), op.body);
    DeepPrefix(|Begun(b, op).tactics|, RunOne(b, op).notes, j);
    ScopeOpenedTops(b, op, m, RunOne(b, op).notes[..j]);
  }

  lemma {:induction false} SawInOne(b: Budgets, op: Op, j: nat) returns (m: Budgets)
    requires j < |RunOne(b, op).notes| && RunOne(b, op).notes[j].Reported?
    ensures 0 < j && Saw(b, m, RunOne(b, op).notes, j)
    ensures LastingOne(op) && OverworkPends(b) ==> OverworkPends(m)
    decreases op, 0
  {
    if op.Check? {
      m := SawAtCheck(b, op);
    } else {
      var begun := Begun(b, op);
      ScopeNotes(b, op);
      m := SawIn(begun, op.body, j);
      BegunScopes(b, op);
      ScopeOpened(b, begun, m, RunOne(b, op).notes[..j]);
      BegunTactics(b, op);
      if MarkedTactics(b) {
        ScopeSawTops(b, op, m, j);
      }
    }
  }

  /** Every checkpoint of a run reports exactly what the scopes open around it have come to. */
  lemma {:induction false} SawIn(b: Budgets, ops: seq<Op>, j: nat) returns (m: Budgets)
    requires j < |Run(b, ops).notes| && Run(b, ops).notes[j].Reported?
    ensures 0 < j && Saw(b, m, Run(b, ops).notes, j)
    ensures Lasting(ops) && OverworkPends(b) ==> OverworkPends(m)
    decreases ops, 1
  {
    var first := RunOne(b, ops[0]);
    var rest := Run(first.after, ops[1..]);
    var notes := first.notes + rest.notes;
    if j < |first.notes| {
      m := SawInOne(b, ops[0], j);
      assert notes[..j] == first.notes[..j];
    } else {
      var k := j - |first.notes|;
      m := SawIn(first.after, ops[1..], k);
      SawLater(b, first.after, m, ops[0], rest.notes, k);
      LastsAfter(b, ops);
    }
  }

  lemma Later<A>(first: seq<A>, rest: seq<A>, k: nat)
    requires 0 < k < |rest|
    ensures var all, j := first + rest, |first| + k;
            all[..j] == first + rest[..k] && all[j] == rest[k] && all[j - 1] == rest[k - 1]
  {
  }

  lemma {:induction false} SawLaterGrows(b: Budgets, after: Budgets, m: Budgets, op: Op, rest: seq<Note>)
    requires after == RunOne(b, op).after && GrownBy(after, m, rest)
    ensures GrownBy(b, m, RunOne(b, op).notes + rest)
  {
    RunOneGrows(b, op);
    GrownOn(b, after, m, RunOne(b, op).notes, rest);
  }

  lemma {:induction false} SawLater(b: Budgets, after: Budgets, m: Budgets, op: Op, rest: seq<Note>, k: nat)
    requires after == RunOne(b, op).after && 0 < k < |rest| && Saw(after, m, rest, k)
    ensures Saw(b, m, RunOne(b, op).notes + rest, |RunOne(b, op).notes| + k)
  {
    Later(RunOne(b, op).notes, rest, k);
    SawLaterGrows(b, after, m, op, rest[..k]);
    if MarkedTactics(b) {
      SawLaterTops(b, after, m, op, rest[..k]);
    }
  }

  lemma {:induction false} SawLaterTops(b: Budgets, after: Budgets, m: Budgets, op: Op, rest: seq<Note>)
    requires MarkedTactics(b) && after == RunOne(b, op).after && (MarkedTactics(after) ==> TopGrown(after, m, rest))
    ensures TopGrown(b, m, RunOne(b, op).notes + rest)
  {
    RunOneTops(b, op);
    TopGrownOn(b, after, m, RunOne(b, op).notes, rest);
  }

  /** Once a run budget is past its limit, every later checkpoint in its scope reports it. */
  lemma ExhaustionIsSticky(b: Budgets, limit: USize, body: seq<Op>, j: nat)
    requires var notes := Run(RunBegun(b, limit), body).notes;
             j < |notes| && notes[j].Reported? && Capped(Total(notes[..j])) > limit
    ensures Run(RunBegun(b, limit), body).notes[j].exceeded
  {
    var begun := RunBegun(b, limit);
    var m := SawIn(begun, body, j);
    assert RunCharged(begun.runs[|b.runs|], m.runs[|b.runs|], Total(Run(begun, body).notes[..j]));
    assert m.runs[|b.runs|].used > m.runs[|b.runs|].limit;
  }

  /** Once a decision's fuel is spent, by charges or without charging, every later checkpoint inside it reports an interruption. */
  lemma SpentFuelIsSticky(b: Budgets, limit: USize, body: seq<Op>, j: nat)
    requires b.fuel == None
    requires var notes := Run(b.(fuel := Some(limit)), body).notes;
             j < |notes| && notes[j].Reported? && Drawn(notes[..j]) >= limit
    ensures Run(b.(fuel := Some(limit)), body).notes[j].exceeded
  {
    var m := SawIn(b.(fuel := Some(limit)), body, j);
  }

  // ---------- a tactic past its limit ----------

  /** A tactic charged past its class limit is reported at every later checkpoint made while it is innermost. */
  lemma OverworkIsReported(b: Budgets, event: TacticEvent, body: seq<Op>, j: nat)
    requires MarkedTactics(b)
    requires var begun := TacticStarted(b, event);
             var notes := Run(begun, body).notes;
             var limit := begun.tactics[|b.tactics|].limit;
             && 0 < j < |notes| && notes[j].Reported? && notes[j - 1].Spent? && notes[j - 1].depth == |b.tactics| + 1
             && limit.Some? && Capped(PaidTo(|b.tactics| + 1, notes[..j])) > limit.value
    ensures Run(TacticStarted(b, event), body).notes[j].exceeded
  {
    var begun := TacticStarted(b, event);
    assert MarkedTactics(begun);
    var m := SawIn(begun, body, j);
    assert TacticCharged(begun.tactics[|b.tactics|], m.tactics[|b.tactics|], PaidTo(|b.tactics| + 1, Run(begun, body).notes[..j]));
  }

  /**
   * While no scope inside it forgets pending limits, every later checkpoint made inside
   * the tactic reports it, in tactics nested in it as well.
   */
  lemma OverworkIsReportedInside(b: Budgets, event: TacticEvent, body: seq<Op>, j: nat)
    requires MarkedTactics(b) && OverworkPends(b) && Lasting(body)
    requires var begun := TacticStarted(b, event);
             var notes := Run(begun, body).notes;
             var limit := begun.tactics[|b.tactics|].limit;
             && j < |notes| && notes[j].Reported?
             && limit.Some? && Capped(PaidTo(|b.tactics| + 1, notes[..j])) > limit.value
    ensures Run(TacticStarted(b, event), body).notes[j].exceeded
  {
    var begun := TacticStarted(b, event);
    assert forall i :: 0 <= i < |b.tactics| ==> begun.tactics[i] == b.tactics[i];
    assert MarkedTactics(begun) && OverworkPends(begun);
    var m := SawIn(begun, body, j);
    assert TacticCharged(begun.tactics[|b.tactics|], m.tactics[|b.tactics|], PaidTo(|b.tactics| + 1, Run(begun, body).notes[..j]));
  }

  /** A tactic past its limit, a scope of limits closed, and a checkpoint in a tactic nested after it. */
  function Forgotten(limits: TacticLimits, event: TacticEvent, other: TacticEvent, first: USize): seq<Op> {
    [Work(first, false), UnderLimits(limits, []), InTactic(other, [Check(0, false)], false)]
  }

  /** Closing a scope of limits forgets the pending limit, and the nested checkpoint reports nothing. */
  lemma ForgottenIsNotReported(limits: TacticLimits, event: TacticEvent, other: TacticEvent, first: USize)
    requires ClassLimit(limits, event.class_).Some? && first > ClassLimit(limits, event.class_).value
    ensures var b := Budgets([], [], [limits], None, [], None, false, 0, false, []);
            var notes := Run(TacticStarted(b, event), Forgotten(limits, event, other, first)).notes;
            && PaidTo(1, notes) == first && |notes| == 3 && notes[2] == Reported(false, false)
  {
    var b := Budgets([], [], [limits], None, [], None, false, 0, false, []);
    var begun := TacticStarted(b, event);
    var worked := RunOne(begun, Work(first, false)).after;
    assert worked.pending == Some(TacticWork) && worked.installed == [limits];
    ForgottenFrom(worked, limits, other);
    var ops := Forgotten(limits, event, other, first);
    var rest := [Spent(0, Tactic, 2), Reported(false, false)];
    assert ops[1..] == [ops[1], ops[2]];
    assert Run(begun, ops).notes == [Spent(first, Tactic, 1)] + rest;
    PaidToConcat(1, [Spent(first, Tactic, 1)], rest);
    PaidToOfOne(1, Spent(first, Tactic, 1));
    PaidToOfCheck(1, Spent(0, Tactic, 2), Reported(false, false));
    PaidToOfOne(1, Spent(0, Tactic, 2));
  }

  /** Nothing pending, nothing past its limit: a nested tactic's checkpoint of no units reports nothing. */
  lemma NestedIsQuiet(b: Budgets, other: TacticEvent)
    requires b.pending == None && b.runs == [] && b.fuel == None && |b.tactics| == 1
    ensures RunOne(b, InTactic(other, [Check(0, false)], false)).notes == [Spent(0, Tactic, 2), Reported(false, false)]
  {
    var begun := TacticStarted(b, other);
    CheckpointReports(begun, 0, false);
    OneStep(begun, Check(0, false));
  }

  lemma ClosingForgets(b: Budgets, limits: TacticLimits)
    requires b.pending == Some(TacticWork)
    ensures RunOne(b, UnderLimits(limits, [])) == Trace(b.(pending := None), [])
  {
    var begun := LimitsInstalled(b, limits);
    assert Run(begun, []) == Trace(begun, []);
    assert begun.installed[..|begun.installed| - 1] == b.installed;
  }

  lemma ForgottenFrom(worked: Budgets, limits: TacticLimits, other: TacticEvent)
    requires worked.pending == Some(TacticWork) && |worked.tactics| == 1 && worked.runs == [] && worked.fuel == None
    ensures Run(worked, [UnderLimits(limits, []), InTactic(other, [Check(0, false)], false)]).notes
         == [Spent(0, Tactic, 2), Reported(false, false)]
  {
    ClosingForgets(worked, limits);
    NestedIsQuiet(worked.(pending := None), other);
    TwoSteps(worked, UnderLimits(limits, []), InTactic(other, [Check(0, false)], false));
  }

  // ---------- nothing to report ----------

  /** Every charge of the run finds room in every budget open when it is made. */
  ghost predicate Room(b: Budgets, ops: seq<Op>)
    decreases ops, 1
  {
    ops == [] || (RoomForOne(b, ops[0]) && Room(RunOne(b, ops[0]).after, ops[1..]))
  }

  ghost predicate HasRoom(b: Budgets, units: USize) {
    !RunPast(b, units) && !TacticPast(b, units) && !FuelPast(b, units)
  }

  ghost predicate RoomForOne(b: Budgets, op: Op)
    decreases op, 0
  {
    if op.Work? then Charges(b) ==> HasRoom(b, op.units)
    else if op.Check? then HasRoom(b, op.units)
    else op.Burn? || Room(Begun(b, op), op.body)
  }

  /** The run's checkpoints report nothing but the wall clock. */
  ghost predicate Quiet(notes: seq<Note>) {
    forall j :: 0 <= j < |notes| && notes[j].Reported? ==> notes[j].exceeded == notes[j].contained
  }

  lemma ChargeStaysQuiet(b: Budgets, units: USize)
    requires b.pending == None && HasRoom(b, units)
    ensures Charge(b, units).after.pending == None
  {
    var counted := SpendFuel(b, units).(counters := CountedAll(b.counters, units));
    var tactic := ChargeTactic(counted, units);
    assert tactic.after.pending == None;
    assert FirstOver(b.runs, units) ==> RunPast(b, units);
  }

  lemma {:induction false} QuietOne(b: Budgets, op: Op)
    requires b.pending == None && RoomForOne(b, op)
    ensures RunOne(b, op).after.pending == None && Quiet(RunOne(b, op).notes)
    decreases op, 0
  {
    if op.Work? {
      if Charges(b) {
        ChargeStaysQuiet(b, op.units);
      }
    } else if op.Check? {
      ChargeStaysQuiet(b, op.units);
      CheckpointReports(b, op.units, op.contained);
    } else if !op.Burn? {
      ScopeNotes(b, op);
      QuietWithin(Begun(b, op), op.body);
      EndStaysQuiet(b, op);
    }
  }

  lemma {:induction false} EndStaysQuiet(b: Budgets, op: Op)
    requires IsScope(op) && Run(Begun(b, op), op.body).after.pending == None
    ensures RunOne(b, op).after.pending == None
  {
  }

  /** A run that is charged within every limit open, with none pending before, reports nothing. */
  lemma {:induction false} QuietWithin(b: Budgets, ops: seq<Op>)
    requires b.pending == None && Room(b, ops)
    ensures Run(b, ops).after.pending == None && Quiet(Run(b, ops).notes)
    decreases ops, 1
  {
    if ops != [] {
      QuietOne(b, ops[0]);
      QuietWithin(RunOne(b, ops[0]).after, ops[1..]);
    }
  }

  // ---------- work that is not charged ----------

  /** Work charges unless it is uncharged or inside a collection already exhausted. */
  lemma WorkIsCharged(b: Budgets, units: USize, contained: bool)
    ensures b.uncharged || (b.collections > 0 && b.collectionExhausted) ==> RunOne(b, Work(units, contained)) == Trace(b, [])
    ensures !b.uncharged && (b.collections == 0 || !b.collectionExhausted) ==>
              RunOne(b, Work(units, contained)).notes == [Spent(units, PayerOf(b), |b.tactics|)]
  {
  }

  ghost predicate OnlyWork(ops: seq<Op>) {
    forall i :: 0 <= i < |ops| ==> ops[i].Work?
  }

  lemma {:induction false} UnchargedWork(b: Budgets, works: seq<Op>)
    requires b.uncharged && OnlyWork(works)
    ensures Run(b, works) == Trace(b, [])
  {
    if works != [] {
      WorkIsCharged(b, works[0].units, works[0].contained);
      UnchargedWork(b, works[1..]);
    }
  }

  /** Work recorded where nothing is to be charged leaves every budget as it was. */
  lemma UnchargedWorkIsFree(b: Budgets, works: seq<Op>)
    requires OnlyWork(works)
    ensures Run(b, [Uncharged(works)]) == Trace(b, [])
  {
    UnchargedWork(b.(uncharged := true), works);
    OneStep(b, Uncharged(works));
  }

  /** With these units some run budget not marked exhausted is past its limit. */
  ghost predicate RunFires(b: Budgets, units: USize) {
    exists i :: 0 <= i < |b.runs| && !b.runs[i].exhausted && Capped(b.runs[i].used + units) > b.runs[i].limit
  }

  /** The limit left pending is the first that fired: one pending before, else the tactic's, else a run budget's. */
  lemma FirstLimitPends(b: Budgets, units: USize)
    ensures Charge(b, units).after.pending ==
            if b.pending.Some? then b.pending
            else if TacticPast(b, units) then Some(TacticWork)
            else if RunFires(b, units) then Some(RunWork)
            else None
  {
    var counted := SpendFuel(b, units).(counters := CountedAll(b.counters, units));
    var tactic := ChargeTactic(counted, units);
    assert tactic.after.runs == b.runs;
    assert tactic.after.pending.Some? <==> b.pending.Some? || TacticPast(b, units);
    FiresFirst(b, units);
  }

  lemma FiresFirst(b: Budgets, units: USize)
    ensures FirstOver(b.runs, units) <==> RunFires(b, units)
  {
    assert forall i :: 0 <= i < |b.runs| ==> SaturatingAdd(b.runs[i].used, units) == Capped(b.runs[i].used + units);
  }

  /** A record exhausts a checked collection, and nothing else, by finding a limit reached other than spent fuel. */
  lemma CollectionExhausts(b: Budgets, units: USize, contained: bool)
    ensures RunOne(b, Work(units, contained)).after.collectionExhausted
       <==> b.collectionExhausted ||
            (!b.uncharged && b.collections > 0 &&
             (contained || b.pending.Some? || RunPast(b, units) || TacticPast(b, units)) && !FuelPast(b, units))
  {
    CheckpointReports(b, units, contained);
    ChargeFuel(b, units);
    var checked := Checkpoint(b, units, contained);
    if Charges(b) && b.collections > 0 {
      assert RunOne(b, Work(units, contained)).after.collectionExhausted <==> b.collectionExhausted || (checked.exceeded && !FuelSpent(checked.after));
    }
  }

  lemma ChargeFuel(b: Budgets, units: USize)
    ensures FuelSpent(Charge(b, units).after) <==> FuelPast(b, units)
    ensures Charge(b, units).after.collectionExhausted == b.collectionExhausted
  {
    assert Charge(b, units).after.fuel == SpendFuel(b, units).fuel;
  }

  // ---------- what is left of a scope ----------

  /** A tactic that ends is sampled with its outcome and, short of its limit, exactly the units spent in it alone. */
  lemma TacticIsSampled(b: Budgets, event: TacticEvent, body: seq<Op>, failed: bool)
    requires MarkedTactics(b)
    ensures var begun := TacticStarted(b, event);
            var inside := Run(begun, body);
            var limit := begun.tactics[|b.tactics|].limit;
            var paid := Capped(PaidTo(|b.tactics| + 1, inside.notes));
            var samples := RunOne(b, InTactic(event, body, failed)).after.samples;
            && |samples| == |inside.after.samples| + 1 && samples[..|samples| - 1] == inside.after.samples
            && samples[|samples| - 1].event == event && samples[|samples| - 1].failed == failed
            && (limit == None || paid <= limit.value ==> samples[|samples| - 1].work == paid)
            && (limit.Some? && paid > limit.value ==> samples[|samples| - 1].work > limit.value)
  {
    var begun := TacticStarted(b, event);
    var inside := Run(begun, body);
    assert MarkedTactics(begun);
    RunTops(begun, body);
    EndsInnermost(inside.after.tactics, event);
    assert TacticCharged(begun.tactics[|b.tactics|], inside.after.tactics[|b.tactics|], PaidTo(|b.tactics| + 1, inside.notes));
  }

  /** A run budget's end forgets its pending limit only when no budget around it is exhausted, and no other limit ever. */
  lemma EndForgets(b: Budgets)
    requires b.runs != []
    ensures RunEnded(b).pending ==
            if b.pending == Some(RunWork) && (forall i :: 0 <= i < |b.runs| - 1 ==> !b.runs[i].exhausted) then None else b.pending
    ensures RunEnded(b).runs == b.runs[..|b.runs| - 1]
  {
    var popped := b.runs[..|b.runs| - 1];
    if exists i :: 0 <= i < |b.runs| - 1 && b.runs[i].exhausted {
      var i :| 0 <= i < |b.runs| - 1 && b.runs[i].exhausted;
      assert popped[i].exhausted;
    }
  }

  /** An event that ends is that of the last tactic started with it. */
  lemma {:induction false} LastIndexIsLast(tactics: seq<ActiveTactic>, event: TacticEvent)
    ensures var i := LastIndex(tactics, event);
            && (i >= 0 ==> i < |tactics| && tactics[i].event == event)
            && forall j :: 0 <= j < |tactics| && j > i ==> tactics[j].event != event
  {
    if tactics != [] {
      LastIndexIsLast(tactics[..|tactics| - 1], event);
    }
  }

  /** The outermost checked collection starts unexhausted, and one inside shares the exhaustion of those around it. */
  lemma CollectionStarts(b: Budgets)
    ensures b.collections == 0 ==> !Begun(b, Collecting([])).collectionExhausted
    ensures b.collections > 0 ==> Begun(b, Collecting([])).collectionExhausted == b.collectionExhausted
    ensures Begun(b, Collecting([])).collections == b.collections + 1
  {
  }
}
