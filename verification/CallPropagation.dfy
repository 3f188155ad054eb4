/**
 * Propagation of memory dependence backwards along the call graph, and the
 * meaning of the set of functions it keeps.
 */
module CallPropagation {
  import opened Syntax
  import opened MemoryIndependence
  import opened SyntaxParts
  import opened CallGraphs
  import opened Sequences
  import opened CallReach
  import opened BackwardPropagation

  // ---------- the first loop: classify each definition ----------

  /** Adds `caller` to the callers of each of `callees`. */
  method AddCaller(callers: Callers<string>, caller: string, callees: seq<string>) returns (extended: Callers<string>)
    ensures forall a, b :: a in CallersOf(extended, b) <==> a in CallersOf(callers, b) || (a == caller && Names(callees, b))
    ensures forall a, b :: Listed(extended, a, b) == Listed(callers, a, b) + if a == caller then Occurrences(callees, b) else 0
  {
    extended := callers;
    assert forall b :: Occurrences(callees[..0], b) == 0;
    for j := 0 to |callees|
      invariant forall a, b :: Listed(extended, a, b) == Listed(callers, a, b) + if a == caller then Occurrences(callees[..j], b) else 0
      invariant forall a, b :: a in CallersOf(extended, b) <==> a in CallersOf(callers, b) || (a == caller && Names(callees[..j], b))
    {
      var callee := SourceName(callees[j]);
      ghost var before := extended;
      extended := extended[callee := CallersOf(extended, callee) + [caller]];
      forall a, b ensures a in CallersOf(extended, b) <==> a in CallersOf(callers, b) || (a == caller && Names(callees[..j + 1], b)) {
        NamesOneMore(callees, j, b);
        assert a in CallersOf(extended, b) <==> a in CallersOf(before, b) || (a == caller && b == callee);
      }
      forall a, b
        ensures Listed(extended, a, b) == Listed(callers, a, b) + if a == caller then Occurrences(callees[..j + 1], b) else 0
      {
        ListedOneMore(before, caller, callee, a, b);
        OccurrencesOneMore(callees, j, b);
      }
    }
    assert callees[..|callees|] == callees;
  }

  /** The scan of a body reads memory or names an undeclared callee. */
  predicate Dirty(defs: seq<Definition>, d: Definition) {
    var scan := ScanExpression(d.body);
    scan.observes || exists j :: 0 <= j < |scan.callees| && !Declares(defs, SourceName(scan.callees[j]))
  }

  /** What the scan says of a body is what its parts say. */
  lemma ScanDecides(defs: seq<Definition>, d: Definition)
    ensures Dirty(defs, d) <==> Dependent(defs, d)
    ensures !Dependent(defs, d) ==> ScanExpression(d.body).callees == CallsIn(d)
  {
    ExpressionFinds(d.body);
    if !ScanExpression(d.body).observes {
      assert ScanExpression(d.body).callees == CallsIn(d);
    }
  }

  /** Scans one body: whether it is dependent, and the calls of one that is not. */
  method ScanBody(defs: seq<Definition>, d: Definition) returns (dependent: bool, callees: seq<string>)
    ensures dependent == Dependent(defs, d)
    ensures !dependent ==> callees == CallsIn(d)
  {
    ScanDecides(defs, d);
    dependent, callees := Dirty(defs, d), ScanExpression(d.body).callees;
  }

  method Classify(defs: seq<Definition>) returns (candidates: set<string>, dependent: seq<string>, callers: Callers<string>)
    requires UniqueNames(defs)
    ensures forall name :: name in candidates <==> CleanName(defs, name)
    ensures forall name :: name in dependent <==> DependentName(defs, name)
    ensures Distinct(dependent)
    ensures forall a, b :: a in CallersOf(callers, b) <==> Calls(defs, a, b)
    ensures forall a, b :: Listed(callers, a, b) == WrittenCalls(defs, |defs|, a, b)
  {
    candidates, dependent, callers := {}, [], map[];
    for n := 0 to |defs|
      invariant Classified(defs, n, candidates, dependent, callers)
    {
      var d := defs[n];
      var depends, callees := ScanBody(defs, d);
      if depends {
        DependentNext(defs, n, candidates, dependent, callers);
        dependent := dependent + [d.name];
      } else {
        var extended := AddCaller(callers, d.name, callees);
        CandidateNext(defs, n, candidates, dependent, callers, extended);
        candidates, callers := candidates + {d.name}, extended;
      }
    }
    AllClassified(defs, candidates, dependent, callers);
  }

  // ---------- the classifier ----------

  /** The call graph of a list of definitions. */
  ghost function CallGraph(defs: seq<Definition>): Graph<string> {
    Graph((a, b) => Calls(defs, a, b), n => CleanName(defs, n), n => DependentName(defs, n))
  }

  /** A body named `caller` calls `callee`. */
  ghost predicate Written(defs: seq<Definition>, caller: string, callee: string) {
    exists i :: 0 <= i < |defs| && defs[i].name == caller && Names(CallsIn(defs[i]), callee)
  }

  /** Each function of the chain calls the next, and the last is dependent. */
  ghost predicate ChainToDependent(defs: seq<Definition>, chain: seq<string>) {
    && chain != [] && DependentName(defs, chain[|chain| - 1])
    && forall j :: 0 <= j < |chain| - 1 ==> Written(defs, chain[j], chain[j + 1])
  }

  ghost predicate LeadsToDependent(defs: seq<Definition>, name: string) {
    exists chain :: ChainToDependent(defs, chain) && chain[0] == name
  }

  /** It makes no difference to stop a chain of calls at the first dependent function. */
  lemma LeadsExactly(defs: seq<Definition>, name: string)
    requires UniqueNames(defs)
    ensures LeadsToDependent(defs, name) <==> ReachesBad(CallGraph(defs), name)
  {
    var g := CallGraph(defs);
    if ReachesBad(g, name) {
      var path :| Path(g, path) && path[0] == name && g.bad(path[|path| - 1]);
      forall j | 0 <= j < |path| - 1 ensures Written(defs, path[j], path[j + 1]) {
        assert g.calls(path[j], path[j + 1]);
      }
      assert ChainToDependent(defs, path);
    }
    if LeadsToDependent(defs, name) {
      var chain :| ChainToDependent(defs, chain) && chain[0] == name;
      ChainReaches(defs, chain);
    }
  }

  lemma {:induction false} ChainReaches(defs: seq<Definition>, chain: seq<string>)
    requires UniqueNames(defs) && ChainToDependent(defs, chain)
    ensures ReachesBad(CallGraph(defs), chain[0])
  {
    var g := CallGraph(defs);
    if DependentName(defs, chain[0]) {
      BadReaches(g, chain[0]);
    } else {
      assert Written(defs, chain[0], chain[1]);
      assert ChainToDependent(defs, chain[1..]) by {
        forall j | 0 <= j < |chain[1..]| - 1 ensures Written(defs, chain[1..][j], chain[1..][j + 1]) {
          assert Written(defs, chain[j + 1], chain[j + 2]);
        }
      }
      ChainReaches(defs, chain[1..]);
      CallerReaches(g, chain[0], chain[1]);
    }
  }

  /**
   * The functions whose bodies, through every call, read no C memory: exactly
   * the declared ones no chain of calls leads from to a memory-reading body or
   * an undeclared callee. Each call written is looked at no more than once.
   */
  method MemoryIndependentFunctions(defs: seq<Definition>)
    returns (kept: set<string>, ghost visited: Visits<string>)
    requires UniqueNames(defs)
    ensures forall name :: name in kept <==> Declares(defs, name) && !LeadsToDependent(defs, name)
    ensures Closed(defs, kept)
    ensures forall a, b :: visited[(b, a)] <= WrittenCalls(defs, |defs|, a, b)
  {
    var candidates, dependent, callers := Classify(defs);
    ghost var g := CallGraph(defs);
    forall a, b | Calls(defs, a, b) ensures CleanName(defs, b) || DependentName(defs, b) { CalleeIsDeclared(defs, a, b); }
    kept, visited := Propagate(g, candidates, dependent, callers);
    forall a, b ensures visited[(b, a)] <= WrittenCalls(defs, |defs|, a, b) {
      assert Listed(callers, a, b) == WrittenCalls(defs, |defs|, a, b);
    }
    forall name ensures Declares(defs, name) && !ReachesBad(g, name) ==> CleanName(defs, name) {
      if DependentName(defs, name) { BadReaches(g, name); }
    }
    KeptIsClosed(defs, kept);
    forall name ensures LeadsToDependent(defs, name) <==> ReachesBad(g, name) { LeadsExactly(defs, name); }
  }

  lemma CalleeIsDeclared(defs: seq<Definition>, a: string, b: string)
    requires Calls(defs, a, b)
    ensures DependentName(defs, b) || CleanName(defs, b)
  {
    var i :| 0 <= i < |defs| && defs[i].name == a && !Dependent(defs, defs[i]) && Names(CallsIn(defs[i]), b);
    assert Declares(defs, b);
    var j :| 0 <= j < |defs| && defs[j].name == b;
  }

  lemma KeptIsClosed(defs: seq<Definition>, kept: set<string>)
    requires UniqueNames(defs)
    requires forall name <- kept :: CleanName(defs, name)
    requires forall a, b :: a in kept && Calls(defs, a, b) ==> b in kept
    ensures Closed(defs, kept)
  {
    forall name <- kept ensures Lookup(defs, name) != [] && Within(ScanExpression(Lookup(defs, name)[0].body), kept) {
      var found := Lookup(defs, name);
      var i :| 0 <= i < |defs| && defs[i] == found[0];
      var scan := ScanExpression(defs[i].body);
      assert !Dependent(defs, defs[i]);
      ScanDecides(defs, defs[i]);
      forall j | 0 <= j < |scan.callees| ensures SourceName(scan.callees[j]) in kept {
        assert Names(scan.callees, SourceName(scan.callees[j]));
        assert Calls(defs, name, SourceName(scan.callees[j]));
      }
    }
  }

  /** Whatever the classifier keeps has, at every call depth and on all arguments, one value under all memories. */
  lemma KeptIsIndependent<V(!new), M>(s: Meaning<V, M>, defs: seq<Definition>, kept: set<string>, name: string, depth: nat, values: seq<V>, m1: M, m2: M)
    requires Closed(defs, kept) && SourceName(name) in kept
    ensures var f := Lookup(defs, SourceName(name))[0];
            Eval(s, defs, depth, f.body, Bind(f.parameters, values), m1) == Eval(s, defs, depth, f.body, Bind(f.parameters, values), m2)
  {
    var f := Lookup(defs, SourceName(name))[0];
    EvalIndependent(s, defs, kept, depth, f.body, Bind(f.parameters, values), m1, m2);
  }
}
