/**
 * The import loader's walk as a function of the project, the modules open, and
 * the modules done: what it finishes, what it reports, and exactly when it succeeds.
 */
module ImportVisit {
  import opened Sequences
  import opened Ordering
  import opened ImportGraph

  const MAX_CHAIN := 256
  const CYCLE_SHOWN := 13

  datatype LoadError =
    | ImportCycle(shown: seq<Path>)
    | ChainTooLong(path: Path)
    | Unscannable(path: Path)
    | BadImport(path: Path, name: string, reason: Refusal)
    | EntryOutsideRoot

  /** The walk goes on with more modules done, or ends in an error. */
  datatype Visited = Finished(done: set<Path>) | Stopped(error: LoadError)

  function Shown(cycle: seq<Path>): seq<Path> {
    if |cycle| <= CYCLE_SHOWN then cycle else cycle[..CYCLE_SHOWN]
  }

  function IndexOf(paths: seq<Path>, path: Path): (i: nat)
    requires path in paths
    ensures i < |paths| && paths[i] == path
  {
    if paths[0] == path then 0 else 1 + IndexOf(paths[1..], path)
  }

  /** Visits `path` with the modules of `stack` open and those of `done` finished. */
  function Visit(p: Project, stack: seq<Path>, done: set<Path>, path: Path): Visited
    requires |stack| <= MAX_CHAIN
    decreases MAX_CHAIN - |stack|, 0, 0
  {
    if path in done then Finished(done)
    else if path in stack then Stopped(ImportCycle(Shown(stack[IndexOf(stack, path)..] + [path])))
    else if |stack| >= MAX_CHAIN then Stopped(ChainTooLong(path))
    else if p.Sites(path).None? then Stopped(Unscannable(path))
    else
      var expanded := VisitAll(p, stack + [path], done, p.Sites(path).value);
      Closing(expanded, path)
  }

  /** What a visit comes to once the imports of the module it opened have been visited. */
  function Closing(v: Visited, path: Path): Visited {
    if v.Stopped? then v else Finished(v.done + {path})
  }

  /** A visit of a module not met before opens it, unless its text does not scan. */
  lemma VisitOpens(p: Project, stack: seq<Path>, done: set<Path>, path: Path, open: seq<Path>)
    requires |stack| < MAX_CHAIN && path !in done && path !in stack && open == stack + [path]
    ensures Visit(p, stack, done, path) ==
            if p.Sites(path).None? then Stopped(Unscannable(path))
            else Closing(VisitAll(p, open, done, p.Sites(path).value), path)
    ensures open[..|stack|] == stack
  {
  }

  /** Visits, in order, the imports `names` of the module on top of `stack`. */
  function VisitAll(p: Project, stack: seq<Path>, done: set<Path>, names: seq<string>): Visited
    requires 0 < |stack| <= MAX_CHAIN
    decreases MAX_CHAIN - |stack|, 1, |names|
  {
    if names == [] then Finished(done)
    else
      var path := stack[|stack| - 1];
      match p.Import(path, names[0])
      case Refused(reason) => Stopped(BadImport(path, names[0], reason))
      case Resolved(to) =>
        var visited := Visit(p, stack, done, to);
        if visited.Stopped? then visited else VisitAll(p, stack, visited.done, names[1..])
  }

  /** Loading a whole project. */
  function LoadAll(p: Project): Visited {
    if !p.inRoot(p.entry) then Stopped(EntryOutsideRoot) else Visit(p, [], {}, p.entry)
  }

  // ---------- what an error reports ----------

  /** `trail` is a stretch of the project that shows the error to be real. */
  ghost predicate Shows(p: Project, trail: seq<Path>, error: LoadError) {
    match error
    case ImportCycle(shown) =>
      p.Cycle(trail) && p.Reachable(trail[0]) && shown == if |trail| <= 13 then trail else trail[..13]
    case ChainTooLong(path) => |trail| == 257 && p.Connects(trail, p.entry, path) && Distinct(trail)
    case Unscannable(path) => p.Connects(trail, p.entry, path) && p.Text(path).Some? && p.Sites(path).None?
    case BadImport(path, name, reason) =>
      && p.Connects(trail, p.entry, path)
      && p.Sites(path).Some? && name in p.Sites(path).value && p.RefusedFor(path, name, reason)
    case EntryOutsideRoot => !p.inRoot(p.entry)
  }

  /** The error describes something the project really contains. */
  ghost predicate Genuine(p: Project, error: LoadError) {
    exists trail :: Shows(p, trail, error)
  }

  /** The modules of a stack import one another, each is there once, and the entry is at the bottom. */
  ghost predicate OpenStack(p: Project, stack: seq<Path>) {
    |stack| <= MAX_CHAIN && Distinct(stack) && p.Walk(stack) && (stack != [] ==> stack[0] == p.entry)
  }

  /** The module on top of the stack imports `path`, or nothing is open and `path` is the entry. */
  ghost predicate Next(p: Project, stack: seq<Path>, path: Path) {
    if stack == [] then path == p.entry else p.Edge(stack[|stack| - 1], path)
  }

  lemma TopIsReachable(p: Project, stack: seq<Path>)
    requires OpenStack(p, stack) && stack != []
    ensures p.Reachable(stack[|stack| - 1])
  {
    assert p.Connects(stack, p.entry, stack[|stack| - 1]);
  }

  lemma NextIsReachable(p: Project, stack: seq<Path>, path: Path)
    requires OpenStack(p, stack) && Next(p, stack, path)
    ensures p.Reachable(path) && p.Text(path).Some?
  {
    if stack == [] {
      StaysPut(p, path);
    } else {
      TopIsReachable(p, stack);
      ReachesFurther(p, p.entry, stack[|stack| - 1], path);
    }
  }

  lemma StackGrows(p: Project, stack: seq<Path>, path: Path)
    requires OpenStack(p, stack) && |stack| < MAX_CHAIN && path !in stack && Next(p, stack, path)
    ensures OpenStack(p, stack + [path])
  {
    WalkExtends(p, stack, path);
  }

  /** A module imported while still open closes a circle. */
  lemma CycleIsGenuine(p: Project, stack: seq<Path>, path: Path)
    requires OpenStack(p, stack) && path in stack && Next(p, stack, path)
    ensures Genuine(p, ImportCycle(Shown(stack[IndexOf(stack, path)..] + [path])))
  {
    var start := IndexOf(stack, path);
    var circle := stack[start..] + [path];
    WalkSuffix(p, stack, start);
    WalkExtends(p, stack[start..], path);
    assert circle[..|circle| - 1] == stack[start..];
    ReachedFromTheStart(p, stack, start);
    assert Shows(p, circle, ImportCycle(Shown(circle)));
  }

  lemma ChainIsGenuine(p: Project, stack: seq<Path>, path: Path)
    requires OpenStack(p, stack) && |stack| >= MAX_CHAIN && path !in stack && Next(p, stack, path)
    ensures Genuine(p, ChainTooLong(path))
  {
    WalkExtends(p, stack, path);
    assert Shows(p, stack + [path], ChainTooLong(path));
  }

  lemma UnscannableIsGenuine(p: Project, path: Path)
    requires p.Reachable(path) && p.Text(path).Some? && p.Sites(path).None?
    ensures Genuine(p, Unscannable(path))
  {
    var walk :| p.Connects(walk, p.entry, path);
    assert Shows(p, walk, Unscannable(path));
  }

  lemma BadImportIsGenuine(p: Project, path: Path, name: string, reason: Refusal)
    requires p.Reachable(path) && p.Sites(path).Some? && name in p.Sites(path).value
    requires p.Import(path, name) == Refused(reason)
    ensures Genuine(p, BadImport(path, name, reason))
  {
    var walk :| p.Connects(walk, p.entry, path);
    ImportExactly(p, path, name);
    assert Shows(p, walk, BadImport(path, name, reason));
  }

  // ---------- what is done is complete ----------

  ghost predicate AllIn(paths: seq<Path>, done: set<Path>) {
    forall q <- paths :: q in done
  }

  /** What a finished module imports is finished too. */
  ghost predicate Closed(p: Project, done: set<Path>) {
    forall q <- done :: p.Reachable(q) && p.Imports(q).Some? && AllIn(p.Imports(q).value, done)
  }

  /** No walk from a finished module comes back to it. */
  ghost predicate NoCircle(p: Project, done: set<Path>) {
    forall walk: seq<Path> :: |walk| >= 2 && p.Walk(walk) && walk[0] in done ==> walk[0] != walk[|walk| - 1]
  }

  lemma {:induction false} ClosedKeepsWalks(p: Project, done: set<Path>, walk: seq<Path>, i: nat)
    requires Closed(p, done) && p.Walk(walk) && i < |walk| && walk[0] in done
    ensures walk[i] in done
  {
    if i > 0 {
      ClosedKeepsWalks(p, done, walk, i - 1);
      WalkStep(p, walk, i - 1);
      ImportsAreEdges(p, walk[i - 1], walk[i]);
      assert AllIn(p.Imports(walk[i - 1]).value, done);
    }
  }

  lemma ClosedKeepsReach(p: Project, done: set<Path>, from: Path, to: Path)
    requires Closed(p, done) && from in done && p.Reaches(from, to)
    ensures to in done
  {
    var walk :| p.Connects(walk, from, to);
    ClosedKeepsWalks(p, done, walk, |walk| - 1);
  }

  lemma ClosedGrows(p: Project, done: set<Path>, path: Path)
    requires Closed(p, done) && p.Reachable(path) && p.Imports(path).Some? && AllIn(p.Imports(path).value, done)
    ensures Closed(p, done + {path})
  {
    forall q <- done + {path}
      ensures p.Reachable(q) && p.Imports(q).Some? && AllIn(p.Imports(q).value, done + {path})
    {
      assert AllIn(p.Imports(q).value, done);
    }
  }

  /** What imports only finished modules lies on no walk from itself. */
  lemma LeadsAway(p: Project, done: set<Path>, path: Path, walk: seq<Path>)
    requires Closed(p, done) && path !in done && p.Imports(path).Some? && AllIn(p.Imports(path).value, done)
    requires |walk| >= 2 && p.Walk(walk) && walk[0] == path
    ensures walk[|walk| - 1] != path
  {
    WalkStep(p, walk, 0);
    ImportsAreEdges(p, path, walk[1]);
    WalkSuffix(p, walk, 1);
    ClosedKeepsWalks(p, done, walk[1..], |walk| - 2);
  }

  lemma NoCircleGrows(p: Project, done: set<Path>, path: Path)
    requires Closed(p, done) && NoCircle(p, done) && path !in done
    requires p.Imports(path).Some? && AllIn(p.Imports(path).value, done)
    ensures NoCircle(p, done + {path})
  {
    forall walk: seq<Path> | |walk| >= 2 && p.Walk(walk) && walk[0] == path ensures walk[|walk| - 1] != path {
      LeadsAway(p, done, path, walk);
    }
  }

  // ---------- where the walk stands ----------

  /** The modules done are complete among themselves, and none of them is open. */
  ghost predicate Standing(p: Project, stack: seq<Path>, done: set<Path>) {
    OpenStack(p, stack) && Closed(p, done) && NoCircle(p, done) && forall q <- stack :: q !in done
  }

  /** A visit only finishes more modules, or reports something genuine. */
  ghost predicate Sound(p: Project, stack: seq<Path>, done: set<Path>, v: Visited) {
    match v
    case Finished(after) => done <= after && Standing(p, stack, after)
    case Stopped(error) => Genuine(p, error)
  }

  lemma {:induction false} VisitIsSound(p: Project, stack: seq<Path>, done: set<Path>, path: Path)
    requires Standing(p, stack, done) && Next(p, stack, path)
    ensures Sound(p, stack, done, Visit(p, stack, done, path))
    ensures Visit(p, stack, done, path).Finished? ==> path in Visit(p, stack, done, path).done
    decreases MAX_CHAIN - |stack|, 0, 0
  {
    NextIsReachable(p, stack, path);
    if path in done {
    } else if path in stack {
      CycleIsGenuine(p, stack, path);
    } else if |stack| >= MAX_CHAIN {
      ChainIsGenuine(p, stack, path);
    } else if p.Sites(path).None? {
      UnscannableIsGenuine(p, path);
    } else {
      OpeningIsSound(p, stack, done, path);
    }
  }

  lemma {:induction false} OpeningIsSound(p: Project, stack: seq<Path>, done: set<Path>, path: Path)
    requires Standing(p, stack, done) && Next(p, stack, path)
    requires path !in done && path !in stack && |stack| < MAX_CHAIN && p.Sites(path).Some?
    ensures Sound(p, stack, done, Visit(p, stack, done, path))
    ensures Visit(p, stack, done, path).Finished? ==> path in Visit(p, stack, done, path).done
    decreases MAX_CHAIN - |stack| - 1, 2, 0
  {
    var names, open := p.Sites(path).value, stack + [path];
    StackGrows(p, stack, path);
    VisitAllIsSound(p, open, done, names, 0);
    assert names[0..] == names;
    var expanded := VisitAll(p, open, done, names);
    if expanded.Finished? {
      NextIsReachable(p, stack, path);
      AllResolved(p, open, expanded.done, names);
      ClosingIsSound(p, stack, path, expanded.done);
    }
  }

  /** The import `name` resolves to a finished module. */
  ghost predicate Through(p: Project, path: Path, name: string, done: set<Path>) {
    p.Import(path, name).Resolved? && p.Import(path, name).imported in done
  }

  /** The module on top of the stack writes `names`, and the first `i` of them are done. */
  ghost predicate Expanding(p: Project, stack: seq<Path>, done: set<Path>, names: seq<string>, i: nat) {
    && Standing(p, stack, done) && stack != []
    && p.Sites(stack[|stack| - 1]) == Some(names) && i <= |names|
    && forall j :: 0 <= j < i ==> Through(p, stack[|stack| - 1], names[j], done)
  }

  lemma ExpandingNext(p: Project, stack: seq<Path>, done: set<Path>, names: seq<string>, i: nat, after: set<Path>)
    requires Expanding(p, stack, done, names, i) && i < |names|
    requires done <= after && Standing(p, stack, after) && Through(p, stack[|stack| - 1], names[i], after)
    ensures Expanding(p, stack, after, names, i + 1)
  {
  }

  /** The imports of a module, once every one has resolved to a finished module. */
  lemma AllResolved(p: Project, stack: seq<Path>, done: set<Path>, names: seq<string>)
    requires Expanding(p, stack, done, names, |names|)
    ensures p.Imports(stack[|stack| - 1]).Some? && AllIn(p.Imports(stack[|stack| - 1]).value, done)
  {
    var path := stack[|stack| - 1];
    assert forall j :: 0 <= j < |names| ==> Through(p, path, names[j], done);
    ImportAllResolves(p, path, names);
    ImportAllAt(p, path, names);
  }

  lemma ClosingIsSound(p: Project, stack: seq<Path>, path: Path, done: set<Path>)
    requires OpenStack(p, stack) && path !in stack && Standing(p, stack + [path], done)
    requires p.Reachable(path) && p.Imports(path).Some? && AllIn(p.Imports(path).value, done)
    ensures Standing(p, stack, done + {path})
  {
    assert path in stack + [path];
    ClosedGrows(p, done, path);
    NoCircleGrows(p, done, path);
    forall q <- stack ensures q !in done + {path} {
      assert q in stack + [path];
    }
  }

  /** Where the visit of the remaining imports goes after the next one. */
  function VisitNext(p: Project, stack: seq<Path>, done: set<Path>, names: seq<string>, i: nat): Visited
    requires 0 < |stack| <= MAX_CHAIN && i < |names|
  {
    var path := stack[|stack| - 1];
    var outcome := p.Import(path, names[i]);
    if outcome.Refused? then Stopped(BadImport(path, names[i], outcome.reason))
    else
      var visited := Visit(p, stack, done, outcome.imported);
      if visited.Stopped? then visited else VisitAll(p, stack, visited.done, names[i + 1..])
  }

  lemma VisitAllSteps(p: Project, stack: seq<Path>, done: set<Path>, names: seq<string>, i: nat)
    requires 0 < |stack| <= MAX_CHAIN && i < |names|
    ensures VisitAll(p, stack, done, names[i..]) == VisitNext(p, stack, done, names, i)
  {
    assert names[i..][0] == names[i] && names[i..][1..] == names[i + 1..];
  }

  lemma {:induction false} VisitAllIsSound(p: Project, stack: seq<Path>, done: set<Path>, names: seq<string>, i: nat)
    requires Expanding(p, stack, done, names, i)
    ensures Sound(p, stack, done, VisitAll(p, stack, done, names[i..]))
    ensures VisitAll(p, stack, done, names[i..]).Finished? ==>
              Expanding(p, stack, VisitAll(p, stack, done, names[i..]).done, names, |names|)
    decreases MAX_CHAIN - |stack|, 1, |names| - i
  {
    if i < |names| {
      var path := stack[|stack| - 1];
      VisitAllSteps(p, stack, done, names, i);
      var outcome := p.Import(path, names[i]);
      if outcome.Refused? {
        TopIsReachable(p, stack);
        BadImportIsGenuine(p, path, names[i], outcome.reason);
      } else {
        VisitIsSound(p, stack, done, outcome.imported);
        var visited := Visit(p, stack, done, outcome.imported);
        if visited.Finished? {
          ExpandingNext(p, stack, done, names, i, visited.done);
          VisitAllIsSound(p, stack, visited.done, names, i + 1);
        }
      }
    }
  }

  // ---------- first walks ----------

  /** `from` imports `via`, everything it imports before that being done. */
  ghost predicate TurnAfter(p: Project, from: Path, via: Path, done: set<Path>) {
    p.Imports(from).Some? &&
    exists k :: 0 <= k < |p.Imports(from).value| && p.Imports(from).value[k] == via && AllIn(p.Imports(from).value[..k], done)
  }

  /** Every step of the walk was taken once all imports before it were done. */
  ghost predicate Passed(p: Project, walk: seq<Path>, done: set<Path>) {
    |walk| <= 1 || (Passed(p, walk[..|walk| - 1], done) && TurnAfter(p, walk[|walk| - 2], walk[|walk| - 1], done))
  }

  lemma TurnAfterMore(p: Project, from: Path, via: Path, done: set<Path>, after: set<Path>)
    requires TurnAfter(p, from, via, done) && done <= after
    ensures TurnAfter(p, from, via, after)
  {
    var k :| 0 <= k < |p.Imports(from).value| && p.Imports(from).value[k] == via && AllIn(p.Imports(from).value[..k], done);
    assert AllIn(p.Imports(from).value[..k], after);
  }

  lemma {:induction false} PassedMore(p: Project, walk: seq<Path>, done: set<Path>, after: set<Path>)
    requires Passed(p, walk, done) && done <= after
    ensures Passed(p, walk, after)
  {
    if |walk| > 1 {
      PassedMore(p, walk[..|walk| - 1], done, after);
      TurnAfterMore(p, walk[|walk| - 2], walk[|walk| - 1], done, after);
    }
  }

  lemma PassedFurther(p: Project, walk: seq<Path>, path: Path, done: set<Path>)
    requires Passed(p, walk, done) && (walk != [] ==> TurnAfter(p, walk[|walk| - 1], path, done))
    ensures Passed(p, walk + [path], done)
  {
    assert (walk + [path])[..|walk|] == walk;
  }

  /** Nothing done leads to a module that is not, so a step passed only by what is done is the first that leads there. */
  lemma TurnIsFirst(p: Project, from: Path, via: Path, done: set<Path>, to: Path)
    requires TurnAfter(p, from, via, done) && Closed(p, done) && to !in done
    ensures p.FirstTurn(from, via, to)
  {
    var imports := p.Imports(from).value;
    var k :| 0 <= k < |imports| && imports[k] == via && AllIn(imports[..k], done);
    forall q <- imports[..k] ensures !p.Reaches(q, to) {
      if p.Reaches(q, to) {
        ClosedKeepsReach(p, done, q, to);
      }
    }
    assert p.NoneLeads(imports[..k], to);
  }

  lemma {:induction false} PassedIsFirst(p: Project, walk: seq<Path>, done: set<Path>, to: Path)
    requires Passed(p, walk, done) && Closed(p, done) && to !in done
    ensures p.FirstTurns(walk, to)
  {
    if |walk| > 1 {
      PassedIsFirst(p, walk[..|walk| - 1], done, to);
      TurnIsFirst(p, walk[|walk| - 2], walk[|walk| - 1], done, to);
    }
  }

  ghost predicate HasShortFirstWalk(p: Project, path: Path) {
    exists walk :: p.FirstWalk(walk, path) && |walk| <= MAX_CHAIN
  }

  ghost predicate HasLongFirstWalk(p: Project, path: Path) {
    exists walk :: p.FirstWalk(walk, path) && |walk| == MAX_CHAIN + 1
  }

  ghost predicate AllShort(p: Project, done: set<Path>) {
    forall q <- done :: HasShortFirstWalk(p, q)
  }

  /** When a module is first met, the open modules and it are its first walk. */
  lemma MetOnItsFirstWalk(p: Project, stack: seq<Path>, done: set<Path>, path: Path)
    requires Standing(p, stack, done) && Next(p, stack, path) && Passed(p, stack + [path], done) && path !in done
    ensures p.FirstWalk(stack + [path], path)
  {
    WalkExtends(p, stack, path);
    PassedIsFirst(p, stack + [path], done, path);
  }

  /** What a visit leaves done has short first walks, and a chain refused is the first walk to its end. */
  ghost predicate First(p: Project, v: Visited) {
    match v
    case Finished(after) => AllShort(p, after)
    case Stopped(error) => error.ChainTooLong? ==> HasLongFirstWalk(p, error.path)
  }

  lemma {:induction false} VisitIsFirst(p: Project, stack: seq<Path>, done: set<Path>, path: Path)
    requires Standing(p, stack, done) && Next(p, stack, path) && Resolving(p)
    requires Passed(p, stack + [path], done) && AllShort(p, done)
    ensures First(p, Visit(p, stack, done, path))
    decreases MAX_CHAIN - |stack|, 0, 0
  {
    if path !in done && path !in stack {
      MetOnItsFirstWalk(p, stack, done, path);
      if |stack| < MAX_CHAIN && p.Sites(path).Some? {
        var names, open := p.Sites(path).value, stack + [path];
        StackGrows(p, stack, path);
        VisitAllIsFirst(p, open, done, names, 0);
        assert names[0..] == names;
        assert HasShortFirstWalk(p, path);
      }
    }
  }

  lemma {:induction false} VisitAllIsFirst(p: Project, stack: seq<Path>, done: set<Path>, names: seq<string>, i: nat)
    requires Expanding(p, stack, done, names, i) && Resolving(p)
    requires Passed(p, stack, done) && AllShort(p, done)
    ensures First(p, VisitAll(p, stack, done, names[i..]))
    decreases MAX_CHAIN - |stack|, 1, |names| - i, 0
  {
    if i < |names| && p.Import(stack[|stack| - 1], names[i]).Resolved? {
      var to := p.Import(stack[|stack| - 1], names[i]).imported;
      VisitAllSteps(p, stack, done, names, i);
      NextTurn(p, stack, done, names, i);
      VisitIsFirst(p, stack, done, to);
      if Visit(p, stack, done, to).Finished? {
        RestIsFirst(p, stack, done, names, i, to);
      }
    } else if i < |names| {
      VisitAllSteps(p, stack, done, names, i);
    }
  }

  lemma {:induction false} RestIsFirst(p: Project, stack: seq<Path>, done: set<Path>, names: seq<string>, i: nat, to: Path)
    requires Expanding(p, stack, done, names, i) && Resolving(p) && Passed(p, stack, done)
    requires i < |names| && p.Import(stack[|stack| - 1], names[i]) == Resolved(to)
    requires Visit(p, stack, done, to).Finished? && AllShort(p, Visit(p, stack, done, to).done)
    ensures First(p, VisitAll(p, stack, Visit(p, stack, done, to).done, names[i + 1..]))
    decreases MAX_CHAIN - |stack|, 1, |names| - i - 1, 1
  {
    var after := Visit(p, stack, done, to).done;
    VisitIsSound(p, stack, done, to);
    PassedMore(p, stack, done, after);
    ExpandingNext(p, stack, done, names, i, after);
    VisitAllIsFirst(p, stack, after, names, i + 1);
  }

  /** The next import is taken once all before it are done. */
  lemma NextTurn(p: Project, stack: seq<Path>, done: set<Path>, names: seq<string>, i: nat)
    requires Expanding(p, stack, done, names, i) && Resolving(p) && Passed(p, stack, done)
    requires i < |names| && p.Import(stack[|stack| - 1], names[i]).Resolved?
    ensures Passed(p, stack + [p.Import(stack[|stack| - 1], names[i]).imported], done)
  {
    var path := stack[|stack| - 1];
    TopIsReachable(p, stack);
    ImportsInOrder(p, path);
    ImportAllAt(p, path, names);
    var imports := p.Imports(path).value;
    assert forall j :: 0 <= j < i ==> Through(p, path, names[j], done);
    assert AllIn(imports[..i], done);
    assert TurnAfter(p, path, imports[i], done);
    PassedFurther(p, stack, imports[i], done);
  }

  // ---------- exactly when a project loads ----------

  /**
   * The entry lies in the root, every reachable module scans and all it imports
   * resolves, no reachable module reaches itself, and no first walk is longer
   * than the limit.
   */
  ghost predicate Loads(p: Project) {
    && p.inRoot(p.entry) && Resolving(p) && Acyclic(p)
    && forall walk, to :: p.FirstWalk(walk, to) ==> |walk| <= 256
  }

  lemma LoadIsSound(p: Project)
    ensures LoadAll(p).Stopped? ==> Genuine(p, LoadAll(p).error)
    ensures LoadAll(p).Finished? ==> p.inRoot(p.entry) && p.entry in LoadAll(p).done
    ensures LoadAll(p).Finished? ==> Closed(p, LoadAll(p).done) && NoCircle(p, LoadAll(p).done)
  {
    if p.inRoot(p.entry) {
      VisitIsSound(p, [], {}, p.entry);
    } else {
      assert Shows(p, [], EntryOutsideRoot);
    }
  }

  /** The modules done are exactly the reachable ones, every one resolving and none in a circle. */
  lemma FinishedIsReachable(p: Project)
    requires LoadAll(p).Finished?
    ensures forall q :: q in LoadAll(p).done <==> p.Reachable(q)
    ensures Resolving(p) && Acyclic(p)
  {
    var done := LoadAll(p).done;
    LoadIsSound(p);
    forall q | p.Reachable(q) ensures q in done && p.Settles(q) {
      ClosedKeepsReach(p, done, p.entry, q);
      ImportsInOrder(p, q);
    }
  }

  lemma LoadIsFirst(p: Project)
    requires Resolving(p) && p.inRoot(p.entry)
    ensures First(p, LoadAll(p))
  {
    VisitIsFirst(p, [], {}, p.entry);
  }

  /** When the modules reachable resolve their imports and close no circle, only the length of a chain is left to report. */
  lemma NothingElseShows(p: Project, trail: seq<Path>, error: LoadError)
    requires p.inRoot(p.entry) && Acyclic(p) && Resolving(p) && !error.ChainTooLong?
    ensures !Shows(p, trail, error)
  {
    match error
    case ImportCycle(_) =>
    case ChainTooLong(_) =>
    case Unscannable(path) =>
      if p.Connects(trail, p.entry, path) {
        SettledRefusesNone(p, path, "", Unresolved);
      }
    case BadImport(path, name, _) =>
      if p.Connects(trail, p.entry, path) {
        SettledRefusesNone(p, path, name, error.reason);
      }
    case EntryOutsideRoot =>
  }

  lemma NothingElseIsGenuine(p: Project, error: LoadError)
    requires p.inRoot(p.entry) && Acyclic(p) && Resolving(p) && Genuine(p, error)
    ensures error.ChainTooLong?
  {
    var trail :| Shows(p, trail, error);
    if !error.ChainTooLong? {
      NothingElseShows(p, trail, error);
    }
  }

  /** The walk finishes exactly on the projects so described, which speak of no walk but along imports. */
  lemma LoadsExactlyWhen(p: Project)
    ensures LoadAll(p).Finished? <==> Loads(p)
  {
    LoadIsSound(p);
    if LoadAll(p).Finished? {
      FinishedIsReachable(p);
      LoadIsFirst(p);
      forall walk, to | p.FirstWalk(walk, to) ensures |walk| <= MAX_CHAIN {
        assert p.Reachable(to);
        assert HasShortFirstWalk(p, to);
        var short :| p.FirstWalk(short, to) && |short| <= MAX_CHAIN;
        FirstWalkIsUnique(p, walk, short, to);
      }
    } else if Loads(p) {
      NothingElseIsGenuine(p, LoadAll(p).error);
      LoadIsFirst(p);
    }
  }

  /** Where nothing else is wrong, a chain is refused exactly when some first walk is longer than the limit. */
  lemma ChainRefusedExactlyWhen(p: Project)
    requires p.inRoot(p.entry) && Resolving(p) && Acyclic(p)
    ensures (LoadAll(p).Stopped? && LoadAll(p).error.ChainTooLong?) <==> exists walk, to :: p.FirstWalk(walk, to) && |walk| > 256
  {
    LoadsExactlyWhen(p);
    LoadIsSound(p);
    if LoadAll(p).Stopped? {
      NothingElseIsGenuine(p, LoadAll(p).error);
    }
  }

  /** In particular a project with no chain past the limit loads, if nothing else is wrong with it. */
  lemma ShortChainsLoad(p: Project)
    requires p.inRoot(p.entry) && Resolving(p) && Acyclic(p)
    requires forall walk, to :: p.Connects(walk, p.entry, to) ==> |walk| <= 256
    ensures LoadAll(p).Finished?
  {
    LoadsExactlyWhen(p);
  }

  /** A project that loads contains nothing another error could report. */
  lemma FinishedRulesOut(p: Project, error: LoadError)
    requires LoadAll(p).Finished? && Genuine(p, error)
    ensures error.ChainTooLong?
  {
    FinishedIsReachable(p);
    LoadIsSound(p);
    NothingElseIsGenuine(p, error);
  }
}
