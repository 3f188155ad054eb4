/** How the import loader's fields fit together, and what opening and closing a module does to them. */
module ImportFields {
  import opened Sequences
  import opened Ordering
  import opened ImportGraph
  import opened ImportVisit

  /** Modules are coloured 1 while open, 2 once done, and not at all before. */
  ghost predicate Coloured(state: map<Path, nat>, stack: seq<Path>, done: set<Path>) {
    && Distinct(stack)
    && (forall q <- state :: q in stack || q in done)
    && (forall q <- stack :: q in state && state[q] == 1)
    && (forall q <- done :: q in state && state[q] == 2)
  }

  ghost predicate Recorded(p: Project, resolved: map<Path, seq<Path>>, done: set<Path>) {
    resolved.Keys == done && forall q <- resolved :: p.Imports(q) == Some(resolved[q])
  }

  ghost predicate Held(p: Project, sources: map<Path, string>, state: map<Path, nat>) {
    p.entry in sources && state.Keys <= sources.Keys && forall q <- sources :: p.Text(q) == Some(sources[q])
  }

  /** The loader's fields fit together: nothing is half opened or half closed. */
  ghost predicate Fits(p: Project, sources: map<Path, string>, resolved: map<Path, seq<Path>>, state: map<Path, nat>,
                       stack: seq<Path>, done: set<Path>, openings: multiset<Path>)
  {
    && |stack| <= MAX_CHAIN
    && Coloured(state, stack, done)
    && Recorded(p, resolved, done)
    && Held(p, sources, state)
    && openings == multiset(state.Keys)
  }

  lemma OpensColours(state: map<Path, nat>, stack: seq<Path>, done: set<Path>, path: Path)
    requires Coloured(state, stack, done) && path !in state
    ensures Coloured(state[path := 1], stack + [path], done)
    ensures multiset(state[path := 1].Keys) == multiset(state.Keys) + multiset{path}
  {
    assert state[path := 1].Keys == state.Keys + {path};
  }

  /** A module with no colour is neither open nor done. */
  lemma Unmet(state: map<Path, nat>, stack: seq<Path>, done: set<Path>, path: Path)
    requires Coloured(state, stack, done) && path !in state
    ensures path !in stack && path !in done
  {
  }

  lemma OpensFit(p: Project, sources: map<Path, string>, resolved: map<Path, seq<Path>>, state: map<Path, nat>,
                 stack: seq<Path>, done: set<Path>, openings: multiset<Path>, path: Path)
    requires Fits(p, sources, resolved, state, stack, done, openings)
    requires path !in state && path in sources && |stack| < MAX_CHAIN
    ensures Fits(p, sources, resolved, state[path := 1], stack + [path], done, openings + multiset{path})
  {
    OpensColours(state, stack, done, path);
  }

  lemma ClosesColours(state: map<Path, nat>, stack: seq<Path>, done: set<Path>, path: Path)
    requires Coloured(state, stack, done) && stack != [] && stack[|stack| - 1] == path
    ensures Coloured(state[path := 2], stack[..|stack| - 1], done + {path})
    ensures state[path := 2].Keys == state.Keys
  {
    var rest := stack[..|stack| - 1];
    assert stack == rest + [path];
    forall q <- rest ensures q in state && state[q] == 1 && q != path {
      assert q in stack;
    }
  }

  lemma ClosesFit(p: Project, sources: map<Path, string>, resolved: map<Path, seq<Path>>, state: map<Path, nat>,
                  stack: seq<Path>, done: set<Path>, openings: multiset<Path>, path: Path, imports: seq<Path>)
    requires Fits(p, sources, resolved, state, stack, done, openings)
    requires stack != [] && stack[|stack| - 1] == path && p.Imports(path) == Some(imports)
    ensures Fits(p, sources, resolved[path := imports], state[path := 2], stack[..|stack| - 1], done + {path}, openings)
    ensures state[path := 2].Keys == state.Keys
  {
    ClosesColours(state, stack, done, path);
  }
}
