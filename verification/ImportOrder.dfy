/**
 * Two projects with the same modules and the same imports, a chain past the
 * limit in both. The entry of one writes the modules of the chain deepest
 * first, and it loads; the other writes them shallowest first, and is refused.
 */
module ImportOrder {
  import opened Ordering
  import opened ImportGraph
  import opened ImportVisit

  /** The k-th module of the chain; the entry is the 0-th. */
  function Module(k: nat): Path {
    Path(Stars(k))
  }

  function Stars(k: nat): (s: string)
    ensures |s| == k
  {
    if k == 0 then [] else Stars(k - 1) + "*"
  }

  /** Modules `k` down to 1, and modules `k` up to the last. */
  function Down(k: nat): seq<string> {
    if k == 0 then [] else [Stars(k)] + Down(k - 1)
  }

  function Up(k: nat): seq<string>
    requires k <= MAX_CHAIN + 1
    decreases MAX_CHAIN + 1 - k
  {
    if k > MAX_CHAIN then [] else [Stars(k)] + Up(k + 1)
  }

  /** What a module of the chain writes: the entry all others, each other the next. */
  function Written(top: seq<string>, text: string): seq<string> {
    if |text| == 0 then top else if |text| < MAX_CHAIN then [Stars(|text| + 1)] else []
  }

  /** Every file holds its own name, and every name resolves to the file of that name. */
  function Chained(top: seq<string>): Project {
    Project(Module(0), [], (from: Path, name: string) => Some(Path(name)), (path: Path) => true, (path: Path) => true,
            (path: Path) => Some(path.text), (text: string) => Some(Written(top, text)))
  }

  function DeepestFirst(): Project {
    Chained(Down(MAX_CHAIN))
  }

  function ShallowestFirst(): Project {
    Chained(Up(1))
  }

  lemma SitesOf(top: seq<string>, k: nat)
    ensures Chained(top).Sites(Module(k)) == Some(Written(top, Stars(k)))
    ensures forall name :: Chained(top).Import(Module(k), name) == Resolved(Path(name))
  {
  }

  // ---------- the same imports ----------

  ghost predicate Numbered(name: string, low: nat, high: nat) {
    exists j: nat :: low <= j <= high && name == Stars(j)
  }

  lemma {:induction false} InDown(k: nat, name: string)
    ensures name in Down(k) <==> Numbered(name, 1, k)
  {
    if k > 0 {
      InDown(k - 1, name);
      assert Numbered(name, 1, k) <==> Numbered(name, 1, k - 1) || name == Stars(k);
    }
  }

  lemma {:induction false} InUp(k: nat, name: string)
    requires k <= MAX_CHAIN + 1
    ensures name in Up(k) <==> Numbered(name, k, MAX_CHAIN)
    decreases MAX_CHAIN + 1 - k
  {
    if k <= MAX_CHAIN {
      InUp(k + 1, name);
      assert Numbered(name, k, MAX_CHAIN) <==> Numbered(name, k + 1, MAX_CHAIN) || name == Stars(k);
    }
  }

  lemma EdgesOf(top: seq<string>, from: Path, to: Path)
    ensures Chained(top).Edge(from, to) <==> to.text in Written(top, if from == Module(0) then [] else from.text)
  {
    var p := Chained(top);
    var text := if from == Module(0) then [] else from.text;
    assert p.Sites(from) == Some(Written(top, text));
    assert forall name :: p.Import(from, name) == Resolved(Path(name));
    assert to == Path(to.text);
  }

  lemma SameEdges(last: nat, from: Path, to: Path)
    requires last == MAX_CHAIN
    ensures Chained(Down(last)).Edge(from, to) <==> Chained(Up(1)).Edge(from, to)
  {
    EdgesOf(Down(last), from, to);
    EdgesOf(Up(1), from, to);
    InDown(last, to.text);
    InUp(1, to.text);
  }

  // ---------- deepest first ----------

  /** The modules from the `k`-th to the last. */
  function Tail(k: nat): set<Path>
    decreases MAX_CHAIN + 1 - k
  {
    if k > MAX_CHAIN then {} else {Module(k)} + Tail(k + 1)
  }

  lemma {:induction false} TailIsLater(k: nat, path: Path)
    requires path in Tail(k)
    ensures |path.text| >= k
    decreases MAX_CHAIN + 1 - k
  {
    if path != Module(k) {
      TailIsLater(k + 1, path);
    }
  }

  /** With the rest of the chain done, the next module down is done at once. */
  lemma FinishesNext(top: seq<string>, k: nat)
    requires 1 <= k <= MAX_CHAIN
    ensures Visit(Chained(top), [Module(0)], Tail(k + 1), Module(k)) == Finished(Tail(k))
  {
    var p, open := Chained(top), [Module(0)] + [Module(k)];
    SitesOf(top, k);
    if Module(k) in Tail(k + 1) {
      TailIsLater(k + 1, Module(k));
    }
    assert |Module(0).text| == 0 && |Module(k).text| == k;
    if k < MAX_CHAIN {
      OnlyImport(p, open, Tail(k + 1), Stars(k + 1));
    }
    assert VisitAll(p, open, Tail(k + 1), Written(top, Stars(k))) == Finished(Tail(k + 1));
  }

  lemma OnlyImport(p: Project, stack: seq<Path>, done: set<Path>, name: string)
    requires 0 < |stack| <= MAX_CHAIN && p.Import(stack[|stack| - 1], name) == Resolved(Path(name))
    ensures VisitAll(p, stack, done, [name]) == Visit(p, stack, done, Path(name))
  {
    assert [name][1..] == [];
  }

  lemma {:induction false} FinishesAll(top: seq<string>, k: nat)
    requires k <= MAX_CHAIN
    ensures VisitAll(Chained(top), [Module(0)], Tail(k + 1), Down(k)).Finished?
  {
    if k > 0 {
      SitesOf(top, 0);
      FinishesNext(top, k);
      FinishesAll(top, k - 1);
      assert Down(k)[0] == Stars(k) && Down(k)[1..] == Down(k - 1);
    }
  }

  lemma DeepestFirstLoads(last: nat)
    requires last == MAX_CHAIN
    ensures LoadAll(Chained(Down(last))).Finished?
  {
    SitesOf(Down(last), 0);
    FinishesAll(Down(last), last);
    assert Tail(last + 1) == {};
    assert [] + [Module(0)] == [Module(0)];
  }

  // ---------- shallowest first ----------

  function Chain(n: nat): (chain: seq<Path>)
    ensures |chain| == n && forall i :: 0 <= i < n ==> chain[i] == Module(i)
  {
    seq(n, i requires 0 <= i < n => Module(i))
  }

  lemma {:induction false} RunsIntoTheLimit(top: seq<string>, k: nat)
    requires 1 <= k <= MAX_CHAIN
    ensures Visit(Chained(top), Chain(k), {}, Module(k)) == Stopped(ChainTooLong(Module(MAX_CHAIN)))
    decreases MAX_CHAIN - k
  {
    forall i | 0 <= i < k ensures Chain(k)[i] != Module(k) {
      assert |Module(i).text| == i && |Module(k).text| == k;
    }
    if k < MAX_CHAIN {
      SitesOf(top, k);
      RunsIntoTheLimit(top, k + 1);
      assert Chain(k) + [Module(k)] == Chain(k + 1);
      OnlyImport(Chained(top), Chain(k + 1), {}, Stars(k + 1));
    }
  }

  lemma ShallowestFirstIsRefused(first: nat)
    requires first == 1
    ensures LoadAll(Chained(Up(first))) == Stopped(ChainTooLong(Module(MAX_CHAIN)))
  {
    SitesOf(Up(first), 0);
    RunsIntoTheLimit(Up(first), first);
    assert [] + [Module(0)] == Chain(first);
    assert Up(first)[0] == Stars(first);
  }

  /** The order in which imports are written decides whether a long chain is refused. */
  lemma OrderDecides()
    ensures forall from, to :: DeepestFirst().Edge(from, to) <==> ShallowestFirst().Edge(from, to)
    ensures LoadAll(DeepestFirst()).Finished?
    ensures LoadAll(ShallowestFirst()) == Stopped(ChainTooLong(Module(MAX_CHAIN)))
  {
    forall from, to ensures DeepestFirst().Edge(from, to) <==> ShallowestFirst().Edge(from, to) {
      SameEdges(MAX_CHAIN, from, to);
    }
    DeepestFirstLoads(MAX_CHAIN);
    ShallowestFirstIsRefused(1);
  }
}
