/**
 * Nodes that call one another, what reaches a bad node, and where a backwards
 * propagation over the calls stands.
 */
module CallReach {
  import opened Sequences

  /** A relation, and the nodes it starts from: each is clean, bad, or neither, never both. */
  datatype Graph<!N> = Graph(calls: (N, N) -> bool, clean: N -> bool, bad: N -> bool)

  ghost predicate Path<N>(g: Graph<N>, path: seq<N>) {
    path != [] && forall j :: 0 <= j < |path| - 1 ==> g.calls(path[j], path[j + 1])
  }

  /** Some chain of calls from `n` ends at a bad node. */
  ghost predicate ReachesBad<N(!new)>(g: Graph<N>, n: N) {
    exists path :: Path(g, path) && path[0] == n && g.bad(path[|path| - 1])
  }

  lemma BadReaches<N(!new)>(g: Graph<N>, n: N)
    requires g.bad(n)
    ensures ReachesBad(g, n)
  {
    assert Path(g, [n]);
  }

  lemma CallerReaches<N(!new)>(g: Graph<N>, caller: N, callee: N)
    requires g.calls(caller, callee) && ReachesBad(g, callee)
    ensures ReachesBad(g, caller)
  {
    var path :| Path(g, path) && path[0] == callee && g.bad(path[|path| - 1]);
    assert Path(g, [caller] + path);
  }

  /** No chain of calls leaves a set closed under calls. */
  lemma {:induction false} ClosedKeepsPaths<N(!new)>(g: Graph<N>, kept: set<N>, path: seq<N>)
    requires forall a, b :: a in kept && g.calls(a, b) ==> b in kept
    requires Path(g, path) && path[0] in kept
    ensures path[|path| - 1] in kept
    decreases |path|
  {
    if |path| > 1 {
      assert g.calls(path[0], path[1]);
      assert Path(g, path[1..]) by {
        forall j | 0 <= j < |path[1..]| - 1 ensures g.calls(path[1..][j], path[1..][j + 1]) {
          assert g.calls(path[j + 1], path[j + 2]);
        }
      }
      ClosedKeepsPaths(g, kept, path[1..]);
    }
  }

  // ---------- the worklist ----------

  type Callers<!N(==)> = map<N, seq<N>>

  function CallersOf<N(==)>(callers: Callers<N>, n: N): seq<N> {
    if n in callers then callers[n] else []
  }

  /** How often each edge, a callee and one of its callers, has been looked at. */
  type Visits<!N(==)> = multiset<(N, N)>

  ghost function Edges<N>(callee: N, callers: seq<N>): Visits<N> {
    if callers == [] then multiset{} else Edges(callee, callers[..|callers| - 1]) + multiset{(callee, callers[|callers| - 1])}
  }

  lemma MembersStep<N>(s: seq<N>, i: nat)
    requires i < |s|
    ensures Members(s[..i + 1]) == Members(s[..i]) + {s[i]}
  {
    assert s[..i + 1] == s[..i] + [s[i]];
  }

  lemma EdgesStep<N>(callee: N, callers: seq<N>, i: nat)
    requires i < |callers|
    ensures Edges(callee, callers[..i + 1]) == Edges(callee, callers[..i]) + multiset{(callee, callers[i])}
  {
    assert callers[..i + 1][..i] == callers[..i];
  }

  lemma {:induction false} EdgesCount<N>(callee: N, callers: seq<N>, edge: (N, N))
    ensures Edges(callee, callers)[edge] == if edge.0 == callee then multiset(callers)[edge.1] else 0
  {
    if callers != [] {
      EdgesCount(callee, callers[..|callers| - 1], edge);
      assert callers == callers[..|callers| - 1] + [callers[|callers| - 1]];
    }
  }

  /** `s` lists the members of `members`, once each. */
  ghost predicate Lists<N(!new)>(s: seq<N>, members: set<N>) {
    Distinct(s) && forall n :: n in s <==> n in members
  }

  lemma ListsMore<N(!new)>(s: seq<N>, members: set<N>, n: N)
    requires Lists(s, members) && n !in members
    ensures Lists(s + [n], members + {n})
  {
    forall i, j | 0 <= i < j < |s + [n]| ensures (s + [n])[i] != (s + [n])[j] {
      assert s[i] in s;
    }
  }

  lemma ListsFewer<N(!new)>(s: seq<N>, members: set<N>)
    requires Lists(s, members) && s != []
    ensures s[|s| - 1] in members && Lists(s[..|s| - 1], members - {s[|s| - 1]})
  {
    var last := s[|s| - 1];
    assert s == s[..|s| - 1] + [last];
    assert last in s;
    forall n ensures n in s[..|s| - 1] <==> n in members - {last} {
      if n in s[..|s| - 1] {
        var i :| 0 <= i < |s| - 1 && s[i] == n;
        assert n in s;
      }
    }
  }

  /** Where the propagation stands: what is kept, what waits, what is done. */
  ghost predicate Propagating<N(!new)>(g: Graph<N>, kept: set<N>, waiting: set<N>, done: set<N>) {
    && kept !! waiting && kept !! done && waiting !! done
    && (forall n <- kept :: g.clean(n) && !g.bad(n))
    && (forall n <- waiting + done :: ReachesBad(g, n))
    && (forall n :: g.bad(n) || g.clean(n) ==> n in kept + waiting + done)
    && (forall a, b :: a in kept && b in done ==> !g.calls(a, b))
  }

  /** With nothing waiting, what is kept is exactly what is clean and reaches nothing bad. */
  lemma KeptReachNone<N(!new)>(g: Graph<N>, kept: set<N>, done: set<N>)
    requires Propagating(g, kept, {}, done)
    requires forall a, b :: g.calls(a, b) ==> g.clean(b) || g.bad(b)
    ensures forall n :: n in kept <==> g.clean(n) && !ReachesBad(g, n)
    ensures forall a, b :: a in kept && g.calls(a, b) ==> b in kept
  {
    forall n ensures n in kept <==> g.clean(n) && !ReachesBad(g, n) {
      if n in kept && ReachesBad(g, n) {
        var path :| Path(g, path) && path[0] == n && g.bad(path[|path| - 1]);
        ClosedKeepsPaths(g, kept, path);
      }
    }
  }

  lemma DropOne<N(!new)>(g: Graph<N>, kept: set<N>, waiting: set<N>, done: set<N>, caller: N)
    requires Propagating(g, kept, waiting, done) && caller in kept && ReachesBad(g, caller)
    ensures Propagating(g, kept - {caller}, waiting + {caller}, done)
  {
  }

  lemma DropDone<N(!new)>(g: Graph<N>, kept: set<N>, waiting: set<N>, done: set<N>, name: N)
    requires Propagating(g, kept, waiting, done) && name in waiting
    requires forall a <- kept :: !g.calls(a, name)
    ensures Propagating(g, kept, waiting - {name}, done + {name})
  {
    assert waiting - {name} + (done + {name}) == waiting + done;
  }

  lemma NoneCalls<N(!new)>(g: Graph<N>, callers: seq<N>, name: N, kept: set<N>)
    requires forall a :: a in callers <==> g.calls(a, name)
    requires kept !! Members(callers)
    ensures forall a <- kept :: !g.calls(a, name)
  {
  }
}
