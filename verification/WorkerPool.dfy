/**
 * The worker pool: any number of workers share one counter and one list of
 * failures, and their steps interleave in any order.
 */
module WorkerPool {
  import opened Ordering

  /** Between items, running one, about to record its failure, or past the last item. */
  datatype Worker = Idle | Running(index: nat) | Recording(index: nat, message: string) | Stopped

  /**
   * The shared counter and failures, each worker's place in its loop, and, for
   * the proof, the items started so far and what each finished one returned.
   */
  datatype Pool = Pool(
    next: nat,
    failures: seq<(nat, string)>,
    workers: seq<Worker>,
    started: seq<nat>,
    returned: map<nat, Option<string>>
  )

  datatype Step =
    | Take(worker: nat)
    | Finish(worker: nat, outcome: Option<string>)
    | Record(worker: nat)

  function Start(workers: nat): Pool {
    Pool(0, [], seq(if workers == 0 then 1 else workers, i => Idle), [], map[])
  }

  predicate Enabled(p: Pool, step: Step) {
    match step
    case Take(w) => w < |p.workers| && p.workers[w].Idle?
    case Finish(w, _) => w < |p.workers| && p.workers[w].Running?
    case Record(w) => w < |p.workers| && p.workers[w].Recording?
  }

  /** One step of one worker over `items` items. What running an item returns is up to the item. */
  function After(items: nat, p: Pool, step: Step): Pool
    requires Enabled(p, step)
  {
    match step
    case Take(w) =>
      if p.next < items then
        p.(next := p.next + 1, workers := p.workers[w := Running(p.next)], started := p.started + [p.next])
      else
        p.(next := p.next + 1, workers := p.workers[w := Stopped])
    case Finish(w, outcome) =>
      var i := p.workers[w].index;
      p.(workers := p.workers[w := if outcome.Some? then Recording(i, outcome.value) else Idle],
         returned := p.returned[i := outcome])
    case Record(w) =>
      p.(workers := p.workers[w := Idle], failures := p.failures + [(p.workers[w].index, p.workers[w].message)])
  }

  /** A run from a fresh pool: each state follows from the one before by some worker's step. */
  ghost predicate IsRun(items: nat, workers: nat, states: seq<Pool>, steps: seq<Step>) {
    && |states| == |steps| + 1
    && states[0] == Start(workers)
    && forall i :: 0 <= i < |steps| ==> Enabled(states[i], steps[i]) && Follows(items, states[i], steps[i], states[i + 1])
  }

  ghost predicate Follows(items: nat, p: Pool, step: Step, q: Pool) {
    Enabled(p, step) && q == After(items, p, step)
  }

  predicate AllStopped(p: Pool) {
    forall w :: 0 <= w < |p.workers| ==> p.workers[w].Stopped?
  }

  // ---------- what every step keeps ----------

  function Dispatched(items: nat, p: Pool): nat {
    if p.next < items then p.next else items
  }

  function Upto(n: nat): seq<nat> {
    seq(n, i => i)
  }

  /** The item a worker has in hand and has not yet returned from or recorded. */
  function InHand(w: Worker): Option<nat> {
    match w
    case Running(i) => Some(i)
    case Recording(i, _) => Some(i)
    case _ => None
  }

  predicate SameHand(v: Worker, w: Worker) {
    InHand(v).Some? && InHand(v) == InHand(w)
  }

  ghost predicate OneHand(p: Pool) {
    forall v, w :: 0 <= v < |p.workers| && 0 <= w < |p.workers| && SameHand(p.workers[v], p.workers[w]) ==> v == w
  }

  ghost predicate HandsAgree(items: nat, p: Pool) {
    forall w :: 0 <= w < |p.workers| ==> HandAgrees(items, p, p.workers[w])
  }

  ghost predicate HandAgrees(items: nat, p: Pool, w: Worker) {
    match w
    case Running(i) => i < Dispatched(items, p) && i !in p.returned
    case Recording(i, m) => i in p.returned && p.returned[i] == Some(m) && NotRecorded(p.failures, i)
    case _ => true
  }

  ghost predicate NotRecorded(failures: seq<(nat, string)>, i: nat) {
    forall f <- failures :: f.0 != i
  }

  ghost predicate BeingRun(p: Pool, i: nat) {
    exists w :: 0 <= w < |p.workers| && p.workers[w] == Running(i)
  }

  ghost predicate BeingRecorded(p: Pool, i: nat, m: string) {
    exists w :: 0 <= w < |p.workers| && p.workers[w] == Recording(i, m)
  }

  ghost predicate Covered(items: nat, p: Pool) {
    && (forall i <- p.returned :: i < Dispatched(items, p))
    && (forall i: nat :: i < Dispatched(items, p) && i !in p.returned ==> BeingRun(p, i))
  }

  ghost predicate FailuresAgree(p: Pool) {
    && (forall f <- p.failures :: f.0 in p.returned && p.returned[f.0] == Some(f.1))
    && (forall i <- p.returned :: p.returned[i].Some? && (i, p.returned[i].value) !in p.failures ==>
          BeingRecorded(p, i, p.returned[i].value))
    && forall j, k :: 0 <= j < k < |p.failures| ==> p.failures[j].0 != p.failures[k].0
  }

  /** A worker stops only once the counter is past the last item. */
  ghost predicate StopsLate(items: nat, p: Pool) {
    p.workers != [] && forall w <- p.workers :: w.Stopped? ==> p.next >= items
  }

  ghost predicate Inv(items: nat, p: Pool) {
    && OneHand(p) && HandsAgree(items, p) && Covered(items, p) && FailuresAgree(p)
    && p.started == Upto(Dispatched(items, p))
    && StopsLate(items, p)
  }

  lemma StartHolds(items: nat, workers: nat)
    ensures Inv(items, Start(workers))
  {
  }

  lemma TakeHolds(items: nat, p: Pool, w: nat)
    requires Inv(items, p) && Enabled(p, Take(w)) && p.next < items
    ensures Inv(items, After(items, p, Take(w)))
  {
    var q := After(items, p, Take(w));
    assert q.workers[w] == Running(p.next);
    OthersRun(p, q, w);
    OthersRecord(p, q, w);
  }

  lemma StopHolds(items: nat, p: Pool, w: nat)
    requires Inv(items, p) && Enabled(p, Take(w)) && p.next >= items
    ensures Inv(items, After(items, p, Take(w)))
  {
    var q := After(items, p, Take(w));
    OthersRun(p, q, w);
    OthersRecord(p, q, w);
  }

  lemma FinishHolds(items: nat, p: Pool, w: nat, outcome: Option<string>)
    requires Inv(items, p) && Enabled(p, Finish(w, outcome))
    ensures Inv(items, After(items, p, Finish(w, outcome)))
  {
    var q := After(items, p, Finish(w, outcome));
    OthersRun(p, q, w);
    OthersRecord(p, q, w);
  }

  lemma RecordHolds(items: nat, p: Pool, w: nat)
    requires Inv(items, p) && Enabled(p, Record(w))
    ensures Inv(items, After(items, p, Record(w)))
  {
    var q := After(items, p, Record(w));
    OthersRun(p, q, w);
    OthersRecord(p, q, w);
  }

  /** Whatever another worker is running it still runs. */
  lemma OthersRun(p: Pool, q: Pool, w: nat)
    requires w < |p.workers| == |q.workers| && q.workers == p.workers[w := q.workers[w]]
    ensures forall i: nat :: BeingRun(p, i) && p.workers[w] != Running(i) ==> BeingRun(q, i)
  {
    forall i: nat | BeingRun(p, i) && p.workers[w] != Running(i) ensures BeingRun(q, i) {
      var v :| 0 <= v < |p.workers| && p.workers[v] == Running(i);
      assert q.workers[v] == Running(i);
    }
  }

  lemma OthersRecord(p: Pool, q: Pool, w: nat)
    requires w < |p.workers| == |q.workers| && q.workers == p.workers[w := q.workers[w]]
    ensures forall i: nat, m: string :: BeingRecorded(p, i, m) && p.workers[w] != Recording(i, m) ==> BeingRecorded(q, i, m)
  {
    forall i: nat, m: string | BeingRecorded(p, i, m) && p.workers[w] != Recording(i, m) ensures BeingRecorded(q, i, m) {
      var v :| 0 <= v < |p.workers| && p.workers[v] == Recording(i, m);
      assert q.workers[v] == Recording(i, m);
    }
  }

  lemma StepHolds(items: nat, p: Pool, step: Step)
    requires Inv(items, p) && Enabled(p, step)
    ensures Inv(items, After(items, p, step))
  {
    match step
    case Take(w) =>
      if p.next < items {
        TakeHolds(items, p, w);
      } else {
        StopHolds(items, p, w);
      }
    case Finish(w, outcome) => FinishHolds(items, p, w, outcome);
    case Record(w) => RecordHolds(items, p, w);
  }

  /** In every interleaving, at every moment, the shared state is consistent. */
  lemma {:induction false} RunHolds(items: nat, workers: nat, states: seq<Pool>, steps: seq<Step>, i: nat)
    requires IsRun(items, workers, states, steps) && i <= |steps|
    ensures Inv(items, states[i]) && |states[i].workers| == |Start(workers).workers|
  {
    if i == 0 {
      StartHolds(items, workers);
    } else {
      RunHolds(items, workers, states, steps, i - 1);
      StepHolds(items, states[i - 1], steps[i - 1]);
      assert Follows(items, states[i - 1], steps[i - 1], states[i]);
    }
  }

  // ---------- runs end ----------

  function Weight(w: Worker): nat {
    match w
    case Idle => 1
    case Running(_) => 3
    case Recording(_, _) => 2
    case Stopped => 0
  }

  function Total(workers: seq<Worker>): nat {
    if workers == [] then 0 else Total(workers[..|workers| - 1]) + Weight(workers[|workers| - 1])
  }

  lemma {:induction false} TotalUpdates(workers: seq<Worker>, w: nat, to: Worker)
    requires w < |workers|
    ensures Total(workers[w := to]) == Total(workers) - Weight(workers[w]) + Weight(to)
  {
    var rest := workers[..|workers| - 1];
    if w < |workers| - 1 {
      TotalUpdates(rest, w, to);
      assert workers[w := to][..|workers| - 1] == rest[w := to];
    } else {
      assert workers[w := to][..|workers| - 1] == rest;
    }
  }

  /** The steps left, at most: three an item and one a worker. */
  function StepsLeft(items: nat, p: Pool): nat {
    3 * (items - Dispatched(items, p)) + Total(p.workers)
  }

  lemma StepUsesUp(items: nat, p: Pool, step: Step)
    requires Enabled(p, step)
    ensures StepsLeft(items, After(items, p, step)) < StepsLeft(items, p)
  {
    var q := After(items, p, step);
    TotalUpdates(p.workers, step.worker, q.workers[step.worker]);
  }

  lemma {:induction false} TotalOfIdle(workers: seq<Worker>)
    requires forall w :: 0 <= w < |workers| ==> workers[w] == Idle
    ensures Total(workers) == |workers|
  {
    if workers != [] {
      TotalOfIdle(workers[..|workers| - 1]);
    }
  }

  lemma {:induction false} RunUsesUp(items: nat, workers: nat, states: seq<Pool>, steps: seq<Step>, i: nat)
    requires IsRun(items, workers, states, steps) && i <= |steps|
    ensures i + StepsLeft(items, states[i]) <= StepsLeft(items, Start(workers))
  {
    if i > 0 {
      RunUsesUp(items, workers, states, steps, i - 1);
      assert Follows(items, states[i - 1], steps[i - 1], states[i]);
      StepUsesUp(items, states[i - 1], steps[i - 1]);
    }
  }

  /** No interleaving runs forever, and one that has not stopped every worker can go on. */
  lemma RunsEnd(items: nat, workers: nat, states: seq<Pool>, steps: seq<Step>)
    requires IsRun(items, workers, states, steps)
    ensures |steps| <= 3 * items + |Start(workers).workers|
    ensures AllStopped(states[|steps|]) || exists step :: Enabled(states[|steps|], step)
  {
    RunUsesUp(items, workers, states, steps, |steps|);
    TotalOfIdle(Start(workers).workers);
    var p := states[|steps|];
    if w :| 0 <= w < |p.workers| && !p.workers[w].Stopped? {
      if p.workers[w].Idle? {
        assert Enabled(p, Take(w));
      } else if p.workers[w].Running? {
        assert Enabled(p, Finish(w, None));
      } else {
        assert Enabled(p, Record(w));
      }
    }
  }

  function StoppedIn(workers: seq<Worker>): nat {
    if workers == [] then 0
    else StoppedIn(workers[..|workers| - 1]) + if workers[|workers| - 1].Stopped? then 1 else 0
  }

  lemma {:induction false} StoppedUpdates(workers: seq<Worker>, w: nat, to: Worker)
    requires w < |workers| && !workers[w].Stopped?
    ensures StoppedIn(workers[w := to]) == StoppedIn(workers) + if to.Stopped? then 1 else 0
  {
    var rest := workers[..|workers| - 1];
    if w < |workers| - 1 {
      StoppedUpdates(rest, w, to);
      assert workers[w := to][..|workers| - 1] == rest[w := to];
    } else {
      assert workers[w := to][..|workers| - 1] == rest;
    }
  }

  lemma {:induction false} NoneStopped(workers: seq<Worker>)
    requires forall w :: 0 <= w < |workers| ==> workers[w] == Idle
    ensures StoppedIn(workers) == 0
  {
    if workers != [] {
      NoneStopped(workers[..|workers| - 1]);
    }
  }

  /** The shared counter counts the items started and the workers stopped, in every interleaving. */
  lemma {:induction false} CounterIsExact(items: nat, workers: nat, states: seq<Pool>, steps: seq<Step>, i: nat)
    requires IsRun(items, workers, states, steps) && i <= |steps|
    ensures states[i].next == |states[i].started| + StoppedIn(states[i].workers)
  {
    if i == 0 {
      NoneStopped(Start(workers).workers);
    } else {
      CounterIsExact(items, workers, states, steps, i - 1);
      assert Follows(items, states[i - 1], steps[i - 1], states[i]);
      StoppedUpdates(states[i - 1].workers, steps[i - 1].worker, states[i].workers[steps[i - 1].worker]);
    }
  }

  // ---------- the report ----------

  /** The failures among the first `n` items, in item order. */
  function FailuresOf(returned: map<nat, Option<string>>, n: nat): seq<(nat, string)> {
    if n == 0 then []
    else
      FailuresOf(returned, n - 1) +
      if n - 1 in returned && returned[n - 1].Some? then [(n - 1, returned[n - 1].value)] else []
  }

  ghost predicate Ascending(report: seq<(nat, string)>) {
    forall j, k :: 0 <= j < k < |report| ==> report[j].0 <= report[k].0
  }

  ghost predicate StrictlyAscending(report: seq<(nat, string)>) {
    forall j, k :: 0 <= j < k < |report| ==> report[j].0 < report[k].0
  }

  lemma {:induction false} FailuresOfAscend(returned: map<nat, Option<string>>, n: nat)
    ensures StrictlyAscending(FailuresOf(returned, n))
    ensures forall f :: f in FailuresOf(returned, n) <==> f.0 < n && f.0 in returned && returned[f.0] == Some(f.1)
  {
    if n > 0 {
      FailuresOfAscend(returned, n - 1);
      assert forall f <- FailuresOf(returned, n - 1) :: f.0 < n - 1;
    }
  }

  ghost predicate SameElements(a: seq<(nat, string)>, b: seq<(nat, string)>) {
    forall f :: f in a <==> f in b
  }

  lemma LastIsGreatest(a: seq<(nat, string)>, f: (nat, string))
    requires StrictlyAscending(a) && f in a
    ensures f == a[|a| - 1] || f.0 < a[|a| - 1].0
  {
  }

  lemma SameLast(a: seq<(nat, string)>, b: seq<(nat, string)>)
    requires StrictlyAscending(a) && StrictlyAscending(b) && SameElements(a, b) && a != []
    ensures b != [] && a[|a| - 1] == b[|b| - 1]
  {
    assert a[|a| - 1] in b;
    assert b[|b| - 1] in a;
    LastIsGreatest(a, b[|b| - 1]);
    LastIsGreatest(b, a[|a| - 1]);
  }

  lemma SameFront(a: seq<(nat, string)>, b: seq<(nat, string)>, last: (nat, string))
    requires StrictlyAscending(a + [last]) && StrictlyAscending(b + [last]) && SameElements(a + [last], b + [last])
    ensures StrictlyAscending(a) && StrictlyAscending(b) && SameElements(a, b)
  {
    FrontIsLess(a, last);
    FrontIsLess(b, last);
    forall f ensures f in a <==> f in b {
      assert f in a + [last] <==> f in b + [last];
    }
  }

  lemma FrontIsLess(a: seq<(nat, string)>, last: (nat, string))
    requires StrictlyAscending(a + [last])
    ensures StrictlyAscending(a) && last !in a
  {
    assert forall j :: 0 <= j < |a| ==> (a + [last])[j] == a[j];
    assert (a + [last])[|a|] == last;
  }

  lemma {:induction false} AscendingIsUnique(a: seq<(nat, string)>, b: seq<(nat, string)>)
    requires StrictlyAscending(a) && StrictlyAscending(b) && SameElements(a, b)
    ensures a == b
  {
    assert b != [] ==> b[0] in b;
    if a != [] {
      SameLast(a, b);
      var last, a', b' := a[|a| - 1], a[..|a| - 1], b[..|b| - 1];
      assert a == a' + [last] && b == b' + [last];
      SameFront(a', b', last);
      AscendingIsUnique(a', b');
    }
  }

  lemma TwiceInMultiset(s: seq<(nat, string)>, j: nat, k: nat)
    requires j < k < |s| && s[j] == s[k]
    ensures multiset(s)[s[j]] >= 2
  {
    assert s == s[..k] + [s[k]] + s[k + 1..];
    assert s[j] in s[..k];
    assert multiset(s) == multiset(s[..k]) + multiset{s[k]} + multiset(s[k + 1..]);
  }

  lemma {:induction false} OnceInMultiset(s: seq<(nat, string)>, f: (nat, string))
    requires forall j, k :: 0 <= j < k < |s| ==> s[j].0 != s[k].0
    ensures multiset(s)[f] <= 1
  {
    if s != [] {
      var rest, last := s[..|s| - 1], s[|s| - 1];
      assert s == rest + [last];
      OnceInMultiset(rest, f);
      if f == last {
        assert f !in rest;
        assert f !in multiset(rest);
      }
    }
  }

  /** Sorting the failures by item leaves no two of one item, so the order is strict. */
  lemma SortedIsStrict(p: Pool, report: seq<(nat, string)>)
    requires FailuresAgree(p) && multiset(report) == multiset(p.failures) && Ascending(report)
    ensures StrictlyAscending(report)
  {
    forall j, k | 0 <= j < k < |report| ensures report[j].0 < report[k].0 {
      if report[j].0 == report[k].0 {
        assert report[j] in multiset(report) && report[k] in multiset(report);
        assert report[j] in p.failures && report[k] in p.failures;
        assert report[j] == (report[j].0, report[j].1) && report[k] == (report[k].0, report[k].1);
        TwiceInMultiset(report, j, k);
        OnceInMultiset(p.failures, report[j]);
      }
    }
  }

  /** With every worker stopped, every item has been run and every failure recorded. */
  lemma StoppedIsFinished(items: nat, p: Pool, f: (nat, string))
    requires Inv(items, p) && AllStopped(p)
    ensures p.next >= items && p.started == Upto(items)
    ensures forall i: nat :: i in p.returned <==> i < items
    ensures f in p.failures <==> f.0 in p.returned && p.returned[f.0] == Some(f.1)
  {
    assert p.workers[0] in p.workers;
    if f.0 in p.returned && p.returned[f.0] == Some(f.1) {
      assert f == (f.0, f.1);
    }
  }

  /**
   * In every interleaving of any number of workers, once all have stopped each
   * item has been run exactly once, and sorting the recorded failures gives
   * exactly the items that failed, with their messages, in item order.
   */
  lemma ReportIsExact(items: nat, workers: nat, states: seq<Pool>, steps: seq<Step>, report: seq<(nat, string)>)
    requires IsRun(items, workers, states, steps) && AllStopped(states[|steps|])
    requires multiset(report) == multiset(states[|steps|].failures) && Ascending(report)
    ensures states[|steps|].started == Upto(items)
    ensures forall i: nat :: i in states[|steps|].returned <==> i < items
    ensures report == FailuresOf(states[|steps|].returned, items)
  {
    var p := states[|steps|];
    RunHolds(items, workers, states, steps, |steps|);
    StoppedIsFinished(items, p, (0, ""));
    SortedIsStrict(p, report);
    FailuresOfAscend(p.returned, items);
    forall f ensures f in report <==> f in FailuresOf(p.returned, items) {
      StoppedIsFinished(items, p, f);
      assert f in report <==> f in multiset(report);
      assert f in p.failures <==> f in multiset(p.failures);
    }
    AscendingIsUnique(report, FailuresOf(p.returned, items));
  }
}
