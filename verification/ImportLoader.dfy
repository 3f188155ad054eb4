/**
 * The import loader as it runs: colours, a stack, the texts held and the
 * imports recorded, updated in place by a depth-first walk. Its result is the
 * visit's, and with it everything proved of the visit.
 */
module ImportLoader {
  import opened Ordering
  import opened ImportGraph
  import opened ImportVisit
  import opened ImportFields

  datatype Loaded = Done | Failed(error: LoadError)

  /** The result and the modules done are what the visit says. */
  ghost predicate Answers(result: Loaded, done: set<Path>, v: Visited) {
    match v
    case Finished(after) => result == Done && done == after
    case Stopped(error) => result == Failed(error)
  }

  datatype Followed = Imported(path: Path) | Halted(error: LoadError)

  class Loader {
    const project: Project
    var sources: map<Path, string>
    var resolvedImports: map<Path, seq<Path>>
    var state: map<Path, nat>
    var stack: seq<Path>
    /** The modules finished, and how often each was opened. */
    ghost var done: set<Path>
    ghost var openings: multiset<Path>

    ghost predicate Valid()
      reads this
    {
      Fits(project, sources, resolvedImports, state, stack, done, openings)
    }

    constructor (project: Project)
      ensures Valid() && this.project == project && stack == [] && done == {}
      ensures state == map[] && sources == map[project.entry := project.entrySource]
    {
      this.project := project;
      sources := map[project.entry := project.entrySource];
      resolvedImports, state, stack := map[], map[], [];
      done, openings := {}, multiset{};
    }

    /** Every text held belongs to a module already opened. */
    ghost predicate Settled()
      reads this
    {
      Valid() && sources.Keys <= state.Keys
    }

    /** The text of the module about to be loaded is held, and no other is waiting. */
    ghost predicate Requested(path: Path)
      reads this
    {
      Valid() && path in sources && sources.Keys <= state.Keys + {path}
    }

    /** Resolves one import and reads its text unless it is held already. */
    method Resolve(path: Path, name: string) returns (outcome: Outcome)
      requires Settled()
      modifies this`sources
      ensures outcome == project.Import(path, name)
      ensures forall to :: outcome == Resolved(to) <==> project.ResolvesTo(path, name, to)
      ensures forall reason :: outcome == Refused(reason) <==> project.RefusedFor(path, name, reason)
      ensures outcome.Resolved? ==> Requested(outcome.imported)
    {
      ImportExactly(project, path, name);
      var candidate := project.resolve(path, name);
      if candidate.None? {
        return Refused(Unresolved);
      }
      var imported := candidate.value;
      if !project.inRoot(imported) {
        return Refused(OutsideRoot);
      }
      if !project.isClick(imported) {
        return Refused(NotClick);
      }
      if imported !in sources {
        var text := project.read(imported);
        if text.None? {
          return Refused(Unreadable);
        }
        sources := sources[imported := text.value];
      }
      return Resolved(imported);
    }

    /** Loads a module: at once when it is done, refused when it is open or too deep, opened otherwise. */
    method Load(path: Path) returns (result: Loaded)
      requires Requested(path)
      modifies this
      ensures Answers(result, done, Visit(project, old(stack), old(done), path))
      ensures result.Done? ==> Settled() && stack == old(stack)
      decreases MAX_CHAIN - |stack|, 0
    {
      if path in state && state[path] == 2 {
        return Done;
      }
      if path in state && state[path] == 1 {
        return Failed(ImportCycle(Shown(stack[IndexOf(stack, path)..] + [path])));
      }
      if |stack| >= MAX_CHAIN {
        return Failed(ChainTooLong(path));
      }
      result := Open(path);
    }

    /** Opens a module not met before, loads its imports, and closes it. */
    method Open(path: Path) returns (result: Loaded)
      requires Requested(path) && path !in state && |stack| < MAX_CHAIN
      modifies this
      ensures Answers(result, done, Visit(project, old(stack), old(done), path))
      ensures result.Done? ==> Settled() && stack == old(stack)
      decreases MAX_CHAIN - |stack| - 1, 4
    {
      Unmet(state, stack, done, path);
      VisitOpens(project, stack, done, path, stack + [path]);
      Begin(path);
      var names := project.sites(sources[path]);
      if names.None? {
        return Failed(Unscannable(path));
      }
      var imports;
      result, imports := Expand(path, names.value);
      if result.Done? {
        Finish(path, imports);
      }
    }

    /** Opens a module on top of the stack. */
    method Begin(path: Path)
      requires Requested(path) && path !in state && |stack| < MAX_CHAIN
      modifies this`state, this`stack, this`openings
      ensures Settled() && stack == old(stack) + [path]
    {
      OpensFit(project, sources, resolvedImports, state, stack, done, openings, path);
      state := state[path := 1];
      stack := stack + [path];
      openings := openings + multiset{path};
    }

    /** Records the imports of the module on top of the stack and closes it. */
    method Finish(path: Path, imports: seq<Path>)
      requires Settled() && stack != [] && stack[|stack| - 1] == path && project.Imports(path) == Some(imports)
      modifies this`resolvedImports, this`stack, this`state, this`done
      ensures Settled() && stack == old(stack)[..|old(stack)| - 1] && done == old(done) + {path}
    {
      ClosesFit(project, sources, resolvedImports, state, stack, done, openings, path, imports);
      resolvedImports := resolvedImports[path := imports];
      stack := stack[..|stack| - 1];
      state := state[path := 2];
      done := done + {path};
    }

    /** Resolves and loads one import of the module on top of the stack: the visit moves on by one, or ends. */
    method Follow(path: Path, names: seq<string>, i: nat) returns (result: Followed)
      requires Settled() && stack != [] && stack[|stack| - 1] == path && i < |names|
      modifies this
      ensures result.Halted? ==> VisitAll(project, old(stack), old(done), names[i..]) == Stopped(result.error)
      ensures result.Imported? ==>
        && project.Import(path, names[i]) == Resolved(result.path)
        && VisitAll(project, old(stack), old(done), names[i..]) == VisitAll(project, old(stack), done, names[i + 1..])
      ensures result.Imported? ==> Settled() && stack == old(stack)
      decreases MAX_CHAIN - |stack|, 1
    {
      VisitAllSteps(project, stack, done, names, i);
      var outcome := Resolve(path, names[i]);
      if outcome.Refused? {
        return Halted(BadImport(path, names[i], outcome.reason));
      }
      var loaded := Load(outcome.imported);
      return if loaded.Failed? then Halted(loaded.error) else Imported(outcome.imported);
    }

    /** Follows the `i`-th import of the module on top of the stack and adds it to those before. */
    method ExpandOne(path: Path, names: seq<string>, i: nat, before: seq<Path>) returns (result: Followed, imports: seq<Path>)
      requires Settled() && stack != [] && stack[|stack| - 1] == path && i < |names|
      requires project.ImportAll(path, names[..i]) == Some(before)
      modifies this
      ensures result.Halted? ==> VisitAll(project, old(stack), old(done), names[i..]) == Stopped(result.error)
      ensures result.Imported? ==>
        && Settled() && stack == old(stack) && project.ImportAll(path, names[..i + 1]) == Some(imports)
        && VisitAll(project, old(stack), old(done), names[i..]) == VisitAll(project, old(stack), done, names[i + 1..])
      decreases MAX_CHAIN - |stack|, 2
    {
      result := Follow(path, names, i);
      imports := before;
      if result.Imported? {
        ImportAllGrows(project, path, names, i);
        imports := before + [result.path];
      }
    }

    /** Loads the imports of the module on top of the stack in source order. */
    method Expand(path: Path, names: seq<string>) returns (result: Loaded, imports: seq<Path>)
      requires Settled() && stack != [] && stack[|stack| - 1] == path
      modifies this
      ensures Answers(result, done, VisitAll(project, old(stack), old(done), names))
      ensures result.Done? ==> Settled() && stack == old(stack) && project.ImportAll(path, names) == Some(imports)
      decreases MAX_CHAIN - |stack|, 3
    {
      imports := [];
      ghost var answer := VisitAll(project, stack, done, names);
      assert names[0..] == names;
      for i := 0 to |names|
        invariant Settled() && stack == old(stack)
        invariant project.ImportAll(path, names[..i]) == Some(imports)
        invariant VisitAll(project, old(stack), done, names[i..]) == answer
      {
        var followed;
        followed, imports := ExpandOne(path, names, i, imports);
        if followed.Halted? {
          return Failed(followed.error), imports;
        }
      }
      assert names[..|names|] == names && names[|names|..] == [];
      return Done, imports;
    }
  }

  // ---------- a whole load ----------

  /** What a successful load leaves behind. */
  ghost predicate Complete(p: Project, resolved: map<Path, seq<Path>>, sources: map<Path, string>, openings: multiset<Path>) {
    && (forall q :: q in resolved <==> p.Reachable(q))
    && (forall q <- resolved :: p.Imports(q) == Some(resolved[q]))
    && sources.Keys == resolved.Keys && (forall q <- sources :: p.Text(q) == Some(sources[q]))
    && openings == multiset(resolved.Keys)
    && Acyclic(p)
  }

  /** The modules of a walk past the entry are `.click` files, and all of them lie in the root and have a text. */
  lemma {:induction false} WalksStayIn(p: Project, walk: seq<Path>)
    requires p.inRoot(p.entry) && p.Walk(walk) && walk != [] && walk[0] == p.entry
    ensures var q := walk[|walk| - 1]; p.inRoot(q) && p.Text(q).Some? && (q != p.entry ==> p.isClick(q))
  {
    if |walk| > 1 {
      WalksStayIn(p, walk[..|walk| - 1]);
    }
  }

  /** `imports` are, one by one, what the names written resolve to: readable `.click` files in the root. */
  ghost predicate WrittenAs(p: Project, from: Path, names: seq<string>, imports: seq<Path>) {
    && |imports| == |names|
    && forall i :: 0 <= i < |names| ==>
         p.resolve(from, names[i]) == Some(imports[i]) && p.inRoot(imports[i]) && p.isClick(imports[i])
  }

  /** What is held of one module: where it lies, its text, and its imports, in the project's own answers. */
  ghost predicate HeldAsIs(p: Project, q: Path, text: string, imports: seq<Path>) {
    && p.inRoot(q) && (q != p.entry ==> p.isClick(q))
    && (if q == p.entry then text == p.entrySource else p.read(q) == Some(text))
    && p.sites(text).Some? && WrittenAs(p, q, p.sites(text).value, imports)
  }

  lemma CompleteInFull(p: Project, resolved: map<Path, seq<Path>>, sources: map<Path, string>, openings: multiset<Path>)
    requires p.inRoot(p.entry) && Complete(p, resolved, sources, openings)
    ensures forall q <- resolved :: HeldAsIs(p, q, sources[q], resolved[q])
  {
    forall q <- resolved ensures HeldAsIs(p, q, sources[q], resolved[q]) {
      var walk :| p.Connects(walk, p.entry, q);
      WalksStayIn(p, walk);
      ImportsInOrder(p, q);
    }
  }

  method LoadProject(project: Project) returns (result: Loaded, loader: Loader)
    ensures fresh(loader) && loader.project == project
    ensures Answers(result, loader.done, LoadAll(project))
    ensures result.Done? <==> Loads(project)
    ensures result.Done? ==> Complete(project, loader.resolvedImports, loader.sources, loader.openings)
    ensures result.Done? ==> forall q <- loader.resolvedImports :: HeldAsIs(project, q, loader.sources[q], loader.resolvedImports[q])
    ensures result.Failed? ==> Genuine(project, result.error)
  {
    loader := new Loader(project);
    LoadsExactlyWhen(project);
    LoadIsSound(project);
    if !project.inRoot(project.entry) {
      return Failed(EntryOutsideRoot), loader;
    }
    result := loader.Load(project.entry);
    if result.Done? {
      FinishedIsReachable(project);
      assert loader.state.Keys == loader.done;
      CompleteInFull(project, loader.resolvedImports, loader.sources, loader.openings);
    }
  }
}
