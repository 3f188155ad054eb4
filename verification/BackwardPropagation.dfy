/**
 * Backwards propagation over a finite relation of callers to callees, by a
 * worklist: what stays is exactly what reaches nothing bad.
 */
module BackwardPropagation {
  import opened Sequences
  import opened CallReach

  /** One caller of a popped node: if still kept it is dropped and waits its turn. */
  method DropCaller<N(!new, ==)>(ghost g: Graph<N>, caller: N, name: N, kept: set<N>, stack: seq<N>, ghost waiting: set<N>, ghost done: set<N>)
    returns (kept': set<N>, stack': seq<N>, ghost waiting': set<N>)
    requires Propagating(g, kept, waiting, done) && name in waiting && Lists(stack, waiting - {name})
    requires g.calls(caller, name)
    ensures Propagating(g, kept', waiting', done) && name in waiting' && Lists(stack', waiting' - {name})
    ensures kept' == kept - {caller} && (caller !in kept ==> stack' == stack)
  {
    if caller in kept {
      CallerReaches(g, caller, name);
      DropOne(g, kept, waiting, done, caller);
      ListsMore(stack, waiting - {name}, caller);
      assert waiting + {caller} - {name} == waiting - {name} + {caller};
      kept', stack', waiting' := kept - {caller}, stack + [caller], waiting + {caller};
    } else {
      kept', stack', waiting' := kept, stack, waiting;
    }
  }

  /** Every caller of a popped node in turn. */
  method DropEach<N(!new, ==)>(ghost g: Graph<N>, callers: seq<N>, name: N, kept: set<N>, stack: seq<N>, ghost waiting: set<N>, ghost done: set<N>)
    returns (kept': set<N>, stack': seq<N>, ghost waiting': set<N>, ghost visited: Visits<N>)
    requires Propagating(g, kept, waiting, done) && name in waiting && Lists(stack, waiting - {name})
    requires forall j :: 0 <= j < |callers| ==> g.calls(callers[j], name)
    ensures Propagating(g, kept', waiting', done) && name in waiting' && Lists(stack', waiting' - {name})
    ensures kept' == kept - Members(callers) && (kept' == kept ==> stack' == stack)
    ensures visited == Edges(name, callers)
  {
    kept', stack', waiting', visited := kept, stack, waiting, multiset{};
    assert callers[..0] == [];
    for i := 0 to |callers|
      invariant kept' == kept - Members(callers[..i]) && (kept' == kept ==> stack' == stack)
      invariant visited == Edges(name, callers[..i])
      invariant Propagating(g, kept', waiting', done) && name in waiting' && Lists(stack', waiting' - {name})
    {
      kept', stack', waiting' := DropCaller(g, callers[i], name, kept', stack', waiting', done);
      EdgesStep(name, callers, i);
      MembersStep(callers, i);
      visited := visited + multiset{(name, callers[i])};
    }
    assert callers[..|callers|] == callers;
  }

  /** The callers of one popped node, which then is done. */
  method DropCallers<N(!new, ==)>(ghost g: Graph<N>, callers: seq<N>, name: N, kept: set<N>, stack: seq<N>, ghost waiting: set<N>, ghost done: set<N>)
    returns (kept': set<N>, stack': seq<N>, ghost waiting': set<N>, ghost visited: Visits<N>)
    requires Propagating(g, kept, waiting, done) && name in waiting && Lists(stack, waiting - {name})
    requires forall a :: a in callers <==> g.calls(a, name)
    ensures Propagating(g, kept', waiting', done + {name}) && Lists(stack', waiting')
    ensures kept' <= kept && (kept' == kept ==> stack' == stack)
    ensures visited == Edges(name, callers)
  {
    kept', stack', waiting', visited := DropEach(g, callers, name, kept, stack, waiting, done);
    NoneCalls(g, callers, name, kept');
    DropDone(g, kept', waiting', done, name);
    waiting' := waiting' - {name};
  }

  /**
   * Drops every candidate that reaches a bad node, looking at each edge at
   * most as often as it occurs.
   */
  method Propagate<N(!new, ==)>(ghost g: Graph<N>, candidates: set<N>, bad: seq<N>, callers: Callers<N>)
    returns (kept: set<N>, ghost visited: Visits<N>)
    requires Distinct(bad)
    requires forall n :: n in candidates <==> g.clean(n)
    requires forall n :: n in bad <==> g.bad(n)
    requires forall n :: !(g.clean(n) && g.bad(n))
    requires forall a, b :: a in CallersOf(callers, b) <==> g.calls(a, b)
    requires forall a, b :: g.calls(a, b) ==> g.clean(b) || g.bad(b)
    ensures forall n :: n in kept <==> g.clean(n) && !ReachesBad(g, n)
    ensures forall a, b :: a in kept && g.calls(a, b) ==> b in kept
    ensures forall a, b :: visited[(b, a)] <= multiset(CallersOf(callers, b))[a]
  {
    var stack := bad;
    kept, visited := candidates, multiset{};
    ghost var waiting, done: set<N> := set n | n in bad, {};
    forall n | n in bad ensures ReachesBad(g, n) { BadReaches(g, n); }
    while stack != []
      invariant Propagating(g, kept, waiting, done) && Lists(stack, waiting)
      invariant forall a, b :: visited[(b, a)] == if b in done then multiset(CallersOf(callers, b))[a] else 0
      decreases kept, |stack|
    {
      var name := stack[|stack| - 1];
      ListsFewer(stack, waiting);
      ghost var seen;
      kept, stack, waiting, seen := DropCallers(g, CallersOf(callers, name), name, kept, stack[..|stack| - 1], waiting, done);
      forall a, b ensures seen[(b, a)] == if b == name then multiset(CallersOf(callers, name))[a] else 0 {
        EdgesCount(name, CallersOf(callers, name), (b, a));
      }
      visited := visited + seen;
      done := done + {name};
    }
    assert waiting == {};
    KeptReachNone(g, kept, done);
  }
}
