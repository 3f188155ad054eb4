/**
 * A project as the import loader sees it, the walks along its imports, and the
 * walk to a module that always takes the first import leading there.
 */
module ImportGraph {
  import opened Sequences
  import opened Ordering

  /** A canonical path. */
  datatype Path = Path(text: string)

  datatype Refusal = Unresolved | OutsideRoot | NotClick | Unreadable

  datatype Outcome = Resolved(imported: Path) | Refused(reason: Refusal)

  /**
   * What the file system and the import scanner answer: where an import written
   * in a module resolves to, which paths lie in the project root and end in
   * `.click`, what a file holds, and which imports a source text writes.
   */
  datatype Project = Project(
    entry: Path,
    entrySource: string,
    resolve: (Path, string) -> Option<Path>,
    inRoot: Path -> bool,
    isClick: Path -> bool,
    read: Path -> Option<string>,
    sites: string -> Option<seq<string>>
  ) {
    /** The entry's text is handed in by the caller, every other text is read. */
    function Text(path: Path): Option<string> {
      if path == entry then Some(entrySource) else read(path)
    }

    /** What `name`, written in `from`, resolves to: a readable `.click` file in the root. */
    ghost predicate ResolvesTo(from: Path, name: string, to: Path) {
      resolve(from, name) == Some(to) && inRoot(to) && isClick(to) && Text(to).Some?
    }

    ghost predicate Resolves(from: Path, name: string) {
      resolve(from, name).Some? && ResolvesTo(from, name, resolve(from, name).value)
    }

    /** Why it does not, the first test that fails being the one reported. */
    ghost predicate RefusedFor(from: Path, name: string, reason: Refusal) {
      match resolve(from, name)
      case None => reason == Unresolved
      case Some(to) =>
        match reason
        case Unresolved => false
        case OutsideRoot => !inRoot(to)
        case NotClick => inRoot(to) && !isClick(to)
        case Unreadable => inRoot(to) && isClick(to) && Text(to).None?
    }

    function Import(from: Path, name: string): Outcome {
      match resolve(from, name)
      case None => Refused(Unresolved)
      case Some(path) =>
        if !inRoot(path) then Refused(OutsideRoot)
        else if !isClick(path) then Refused(NotClick)
        else if Text(path).None? then Refused(Unreadable)
        else Resolved(path)
    }

    /** The imports a module writes, when its text scans. */
    function Sites(path: Path): Option<seq<string>> {
      match Text(path)
      case None => None
      case Some(text) => sites(text)
    }

    ghost predicate Edge(from: Path, to: Path) {
      Sites(from).Some? && exists i :: 0 <= i < |Sites(from).value| && ResolvesTo(from, Sites(from).value[i], to)
    }

    /** Its text scans, and every import it writes resolves to a module. */
    ghost predicate Settles(path: Path) {
      Sites(path).Some? && forall i :: 0 <= i < |Sites(path).value| ==> Resolves(path, Sites(path).value[i])
    }

    /** The modules a list of imports resolves to, when every one resolves. */
    function ImportAll(from: Path, names: seq<string>): Option<seq<Path>> {
      if names == [] then Some([])
      else
        var before := ImportAll(from, names[..|names| - 1]);
        var last := Import(from, names[|names| - 1]);
        if before.Some? && last.Resolved? then Some(before.value + [last.imported]) else None
    }

    /** A module's imports in source order, when its text scans and every import resolves. */
    function Imports(path: Path): Option<seq<Path>> {
      if Sites(path).None? then None else ImportAll(path, Sites(path).value)
    }

    /** Each module imports the next. */
    ghost predicate Walk(walk: seq<Path>) {
      |walk| <= 1 || (Walk(walk[..|walk| - 1]) && Edge(walk[|walk| - 2], walk[|walk| - 1]))
    }

    ghost predicate Connects(walk: seq<Path>, from: Path, to: Path) {
      walk != [] && walk[0] == from && walk[|walk| - 1] == to && Walk(walk)
    }

    ghost predicate Reaches(from: Path, to: Path) {
      exists walk :: Connects(walk, from, to)
    }

    ghost predicate Reachable(path: Path) {
      Reaches(entry, path)
    }

    /** Modules that import one another in a circle, the first repeated at the end. */
    ghost predicate Cycle(walk: seq<Path>) {
      |walk| >= 2 && walk[0] == walk[|walk| - 1] && Walk(walk) && Distinct(walk[..|walk| - 1])
    }

    /** `from` imports `via`, and nothing it imports before that leads to `to`. */
    ghost predicate FirstTurn(from: Path, via: Path, to: Path) {
      Imports(from).Some? &&
      exists k :: 0 <= k < |Imports(from).value| && Imports(from).value[k] == via && NoneLeads(Imports(from).value[..k], to)
    }

    ghost predicate NoneLeads(imports: seq<Path>, to: Path) {
      forall via <- imports :: !Reaches(via, to)
    }

    /** Every step of the walk takes the first import that leads to `to`. */
    ghost predicate FirstTurns(walk: seq<Path>, to: Path) {
      |walk| <= 1 || (FirstTurns(walk[..|walk| - 1], to) && FirstTurn(walk[|walk| - 2], walk[|walk| - 1], to))
    }

    /** The walk from the entry that reaches `to` by taking, at every module, the first import that leads there. */
    ghost predicate FirstWalk(walk: seq<Path>, to: Path) {
      Connects(walk, entry, to) && FirstTurns(walk, to)
    }
  }

  /** No reachable module is reached again by its own imports. */
  ghost predicate Acyclic(p: Project) {
    forall walk: seq<Path> :: |walk| >= 2 && p.Walk(walk) && p.Reachable(walk[0]) ==> walk[0] != walk[|walk| - 1]
  }

  /** Every reachable module scans, and everything it imports resolves. */
  ghost predicate Resolving(p: Project) {
    forall q :: p.Reachable(q) ==> p.Settles(q)
  }

  // ---------- imports and edges ----------

  /** An import is resolved, or refused and why, exactly as the project answers. */
  lemma ImportExactly(p: Project, from: Path, name: string)
    ensures forall to :: p.Import(from, name) == Resolved(to) <==> p.ResolvesTo(from, name, to)
    ensures forall reason :: p.Import(from, name) == Refused(reason) <==> p.RefusedFor(from, name, reason)
  {
  }

  lemma {:induction false} ImportAllAt(p: Project, from: Path, names: seq<string>)
    requires p.ImportAll(from, names).Some?
    ensures |p.ImportAll(from, names).value| == |names|
    ensures forall i :: 0 <= i < |names| ==> p.Import(from, names[i]) == Resolved(p.ImportAll(from, names).value[i])
  {
    if names != [] {
      ImportAllAt(p, from, names[..|names| - 1]);
    }
  }

  lemma {:induction false} ImportAllResolves(p: Project, from: Path, names: seq<string>)
    requires forall i :: 0 <= i < |names| ==> p.Import(from, names[i]).Resolved?
    ensures p.ImportAll(from, names).Some?
  {
    if names != [] {
      ImportAllResolves(p, from, names[..|names| - 1]);
    }
  }

  lemma ImportAllGrows(p: Project, from: Path, names: seq<string>, i: nat)
    requires i < |names| && p.ImportAll(from, names[..i]).Some? && p.Import(from, names[i]).Resolved?
    ensures p.ImportAll(from, names[..i + 1])
         == Some(p.ImportAll(from, names[..i]).value + [p.Import(from, names[i]).imported])
  {
    assert names[..i + 1][..i] == names[..i];
  }

  /** The recorded imports of a module are its edges. */
  lemma ImportsAreEdges(p: Project, from: Path, to: Path)
    requires p.Imports(from).Some?
    ensures to in p.Imports(from).value <==> p.Edge(from, to)
  {
    ImportAllAt(p, from, p.Sites(from).value);
    forall name ensures p.Import(from, name) == Resolved(to) <==> p.ResolvesTo(from, name, to) {
      ImportExactly(p, from, name);
    }
  }

  /** They are recorded exactly when every one resolves, each where it is written. */
  lemma ImportsInOrder(p: Project, from: Path)
    ensures p.Imports(from).Some? <==> p.Settles(from)
    ensures p.Imports(from).Some? ==>
              && |p.Imports(from).value| == |p.Sites(from).value|
              && forall i :: 0 <= i < |p.Sites(from).value| ==> p.ResolvesTo(from, p.Sites(from).value[i], p.Imports(from).value[i])
  {
    forall name, to ensures p.Import(from, name) == Resolved(to) <==> p.ResolvesTo(from, name, to) {
      ImportExactly(p, from, name);
    }
    if p.Imports(from).Some? {
      ImportAllAt(p, from, p.Sites(from).value);
      assert forall i :: 0 <= i < |p.Sites(from).value| ==> p.ResolvesTo(from, p.Sites(from).value[i], p.Imports(from).value[i]);
    } else if p.Settles(from) {
      forall i | 0 <= i < |p.Sites(from).value| ensures p.Import(from, p.Sites(from).value[i]).Resolved? {
        assert p.Resolves(from, p.Sites(from).value[i]);
      }
      ImportAllResolves(p, from, p.Sites(from).value);
    }
  }

  /** A module whose imports all resolve scans, and refuses none of what it writes. */
  lemma SettledRefusesNone(p: Project, path: Path, name: string, reason: Refusal)
    requires p.Settles(path)
    ensures p.Sites(path).Some? && (name in p.Sites(path).value ==> !p.RefusedFor(path, name, reason))
  {
    if name in p.Sites(path).value {
      var i :| 0 <= i < |p.Sites(path).value| && p.Sites(path).value[i] == name;
      assert p.Resolves(path, p.Sites(path).value[i]);
    }
  }

  // ---------- walks ----------

  lemma WalkExtends(p: Project, walk: seq<Path>, to: Path)
    requires p.Walk(walk) && (walk != [] ==> p.Edge(walk[|walk| - 1], to))
    ensures p.Walk(walk + [to])
  {
    assert (walk + [to])[..|walk|] == walk;
  }

  lemma {:induction false} WalkPrefix(p: Project, walk: seq<Path>, n: nat)
    requires p.Walk(walk) && n <= |walk|
    ensures p.Walk(walk[..n])
  {
    if n < |walk| {
      if |walk| > 1 {
        WalkPrefix(p, walk[..|walk| - 1], n);
        assert walk[..|walk| - 1][..n] == walk[..n];
      }
    } else {
      assert walk[..n] == walk;
    }
  }

  lemma {:induction false} WalkSuffix(p: Project, walk: seq<Path>, i: nat)
    requires p.Walk(walk) && i < |walk|
    ensures p.Walk(walk[i..])
  {
    if i < |walk| - 1 {
      WalkSuffix(p, walk[..|walk| - 1], i);
      assert walk[..|walk| - 1][i..] == walk[i..][..|walk| - i - 1];
    }
  }

  lemma WalkStep(p: Project, walk: seq<Path>, i: nat)
    requires p.Walk(walk) && i + 1 < |walk|
    ensures p.Edge(walk[i], walk[i + 1])
  {
    WalkPrefix(p, walk, i + 2);
    assert walk[..i + 2][i] == walk[i];
  }

  lemma StaysPut(p: Project, path: Path)
    ensures p.Reaches(path, path)
  {
    assert p.Connects([path], path, path);
  }

  lemma ReachesFurther(p: Project, from: Path, via: Path, to: Path)
    requires p.Reaches(from, via) && p.Edge(via, to)
    ensures p.Reaches(from, to)
  {
    var walk :| p.Connects(walk, from, via);
    WalkExtends(p, walk, to);
    assert p.Connects(walk + [to], from, to);
  }

  /** What lies on a walk reaches its end. */
  lemma ReachesTheEnd(p: Project, walk: seq<Path>, i: nat)
    requires p.Walk(walk) && i < |walk|
    ensures p.Reaches(walk[i], walk[|walk| - 1])
  {
    WalkSuffix(p, walk, i);
    assert p.Connects(walk[i..], walk[i], walk[|walk| - 1]);
  }

  /** What lies on a walk is reached from its start. */
  lemma ReachedFromTheStart(p: Project, walk: seq<Path>, i: nat)
    requires p.Walk(walk) && i < |walk|
    ensures p.Reaches(walk[0], walk[i])
  {
    WalkPrefix(p, walk, i + 1);
    assert p.Connects(walk[..i + 1], walk[0], walk[i]);
  }

  lemma Stretch(p: Project, walk: seq<Path>, i: nat, j: nat)
    requires p.Walk(walk) && i <= j < |walk|
    ensures p.Walk(walk[i..j + 1]) && p.Connects(walk[i..j + 1], walk[i], walk[j])
  {
    WalkSlice(p, walk, i, j + 1);
    SliceOfPrefix(walk, i, j);
  }

  lemma WalkSlice(p: Project, walk: seq<Path>, i: nat, n: nat)
    requires p.Walk(walk) && i < n <= |walk|
    ensures p.Walk(walk[i..n])
  {
    WalkPrefix(p, walk, n);
    WalkSuffix(p, walk[..n], i);
    assert walk[..n][i..] == walk[i..n];
  }

  /** A walk from the entry meets no module twice when no reachable module reaches itself. */
  lemma NoReturn(p: Project, walk: seq<Path>, i: nat, j: nat)
    requires Acyclic(p) && p.Walk(walk) && i < j < |walk| && walk[0] == p.entry
    ensures walk[i] != walk[j]
  {
    ReachedFromTheStart(p, walk, i);
    Stretch(p, walk, i, j);
    var stretch := walk[i..j + 1];
    assert p.Reachable(stretch[0]) && |stretch| == j + 1 - i;
  }

  // ---------- the first walk to a module ----------

  lemma {:induction false} FirstTurnAt(p: Project, walk: seq<Path>, to: Path, i: nat)
    requires p.FirstTurns(walk, to) && i + 1 < |walk|
    ensures p.FirstTurn(walk[i], walk[i + 1], to)
  {
    if i + 2 < |walk| {
      FirstTurnAt(p, walk[..|walk| - 1], to, i);
    }
  }

  /** Among the imports of `from`, `a` comes before every occurrence of `b`. */
  ghost predicate Sooner(p: Project, from: Path, a: Path, b: Path) {
    p.Imports(from).Some? &&
    exists k :: 0 <= k < |p.Imports(from).value| && p.Imports(from).value[k] == a && b !in p.Imports(from).value[..k + 1]
  }

  /** The walks part after module `i`, where `a` takes the sooner import. */
  ghost predicate PartsSooner(p: Project, a: seq<Path>, b: seq<Path>, i: nat) {
    i + 1 < |a| && i + 1 < |b| && a[..i + 1] == b[..i + 1] && Sooner(p, a[i], a[i + 1], b[i + 1])
  }

  /** The order of walks by the imports they take: `a` is `b` or takes the sooner import where they part. */
  ghost predicate NoLater(p: Project, a: seq<Path>, b: seq<Path>) {
    a == b || exists i: nat :: PartsSooner(p, a, b, i)
  }

  lemma NoneLeadsOut(p: Project, imports: seq<Path>, via: Path, to: Path)
    requires p.NoneLeads(imports, to) && p.Reaches(via, to)
    ensures via !in imports
  {
  }

  lemma FirstTurnIsSooner(p: Project, from: Path, a: Path, b: Path, to: Path)
    requires p.FirstTurn(from, a, to) && p.Reaches(b, to) && a != b
    ensures Sooner(p, from, a, b)
  {
    var imports := p.Imports(from).value;
    var k :| 0 <= k < |imports| && imports[k] == a && p.NoneLeads(imports[..k], to);
    PrefixStep(imports, k);
    NoneLeadsOut(p, imports[..k], b, to);
  }

  /** Of all walks from the entry to a module, the first walk comes first by the imports taken. */
  lemma FirstWalkIsFirst(p: Project, a: seq<Path>, b: seq<Path>, to: Path)
    requires Acyclic(p) && p.FirstWalk(a, to) && p.Connects(b, p.entry, to)
    ensures NoLater(p, a, b)
  {
    PrefixStep(a, 0);
    PrefixStep(b, 0);
    assert a[..1] == [] + [p.entry] == b[..1];
    FirstFrom(p, a, b, to, 0);
  }

  /** Where a first walk and another to the same module part, the first walk takes the sooner import. */
  lemma PartsAt(p: Project, a: seq<Path>, b: seq<Path>, to: Path, i: nat)
    requires p.FirstTurns(a, to) && p.Connects(b, p.entry, to)
    requires i + 1 < |a| && i + 1 < |b| && a[..i + 1] == b[..i + 1] && a[i + 1] != b[i + 1]
    ensures PartsSooner(p, a, b, i)
  {
    FirstTurnAt(p, a, to, i);
    ReachesTheEnd(p, b, i + 1);
    FirstTurnIsSooner(p, a[i], a[i + 1], b[i + 1], to);
  }

  /** A walk that has reached `to` goes on to it no more. */
  lemma EndsThere(p: Project, walk: seq<Path>, to: Path, i: nat)
    requires Acyclic(p) && p.Connects(walk, p.entry, to) && i < |walk| && walk[i] == to
    ensures i + 1 == |walk|
  {
    if i + 1 < |walk| {
      NoReturn(p, walk, i, |walk| - 1);
    }
  }

  lemma SameSoFar(a: seq<Path>, b: seq<Path>, i: nat)
    requires i < |a| && i < |b| && a[..i + 1] == b[..i + 1]
    ensures a[i] == b[i]
    ensures i + 1 < |a| && i + 1 < |b| && a[i + 1] == b[i + 1] ==> a[..i + 2] == b[..i + 2]
    ensures i + 1 == |a| == |b| ==> a == b
  {
    assert a[i] == a[..i + 1][i] == b[..i + 1][i] == b[i];
    if i + 1 < |a| && i + 1 < |b| {
      assert a[..i + 2] == a[..i + 1] + [a[i + 1]] && b[..i + 2] == b[..i + 1] + [b[i + 1]];
    } else if i + 1 == |a| == |b| {
      assert a[..i + 1] == a && b[..i + 1] == b;
    }
  }

  lemma {:induction false} FirstFrom(p: Project, a: seq<Path>, b: seq<Path>, to: Path, i: nat)
    requires Acyclic(p) && p.FirstWalk(a, to) && p.Connects(b, p.entry, to)
    requires i < |a| && i < |b| && a[..i + 1] == b[..i + 1]
    ensures NoLater(p, a, b)
    decreases |a| - i
  {
    SameSoFar(a, b, i);
    if a[i] == to {
      EndsThere(p, a, to, i);
      EndsThere(p, b, to, i);
    } else if a[i + 1] == b[i + 1] {
      FirstFrom(p, a, b, to, i + 1);
    } else {
      PartsAt(p, a, b, to, i);
    }
  }

  lemma NotSoonerBothWays(p: Project, from: Path, a: Path, b: Path, to: Path)
    requires p.FirstTurn(from, b, to) && p.Reaches(a, to)
    ensures !Sooner(p, from, a, b)
  {
    var imports := p.Imports(from).value;
    var k :| 0 <= k < |imports| && imports[k] == b && p.NoneLeads(imports[..k], to);
    assert forall j :: 0 <= j < k ==> imports[j] in imports[..k];
    forall j | 0 <= j < |imports| && imports[j] == a ensures b in imports[..j + 1] {
      assert k <= j;
      assert imports[..j + 1][k] == b;
    }
  }

  /** A module has one first walk at most. */
  lemma FirstWalkIsUnique(p: Project, a: seq<Path>, b: seq<Path>, to: Path)
    requires Acyclic(p) && p.FirstWalk(a, to) && p.FirstWalk(b, to)
    ensures a == b
  {
    FirstWalkIsFirst(p, a, b, to);
    forall i: nat | i + 1 < |a| && i + 1 < |b| && a[..i + 1] == b[..i + 1] ensures !PartsSooner(p, a, b, i) {
      assert a[i] == a[..i + 1][i] == b[..i + 1][i] == b[i];
      FirstTurnAt(p, b, to, i);
      ReachesTheEnd(p, a, i + 1);
      NotSoonerBothWays(p, a[i], a[i + 1], b[i + 1], to);
    }
  }
}
