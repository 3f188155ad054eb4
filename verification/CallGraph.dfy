/** The call graph of a list of definitions, and how far a pass over the definitions has classified it. */
module CallGraphs {
  import opened Sequences
  import opened Syntax
  import opened SyntaxParts
  import opened CallReach

  ghost predicate UniqueNames(defs: seq<Definition>) {
    forall i, j :: 0 <= i < j < |defs| ==> defs[i].name != defs[j].name
  }

  predicate Declares(defs: seq<Definition>, name: string) {
    exists i :: 0 <= i < |defs| && defs[i].name == name
  }

  /** The names a body calls, in the order written. */
  ghost function CallsIn(d: Definition): seq<string> {
    Called(Parts(d.body))
  }

  /** Some part of the body reads memory, or it calls a name that is not declared. */
  ghost predicate Dependent(defs: seq<Definition>, d: Definition) {
    AnyReads(Parts(d.body)) || exists j :: 0 <= j < |CallsIn(d)| && !Declares(defs, SourceName(CallsIn(d)[j]))
  }

  ghost predicate DependentName(defs: seq<Definition>, name: string) {
    exists i :: 0 <= i < |defs| && defs[i].name == name && Dependent(defs, defs[i])
  }

  ghost predicate CleanName(defs: seq<Definition>, name: string) {
    exists i :: 0 <= i < |defs| && defs[i].name == name && !Dependent(defs, defs[i])
  }

  ghost predicate Names(callees: seq<string>, callee: string) {
    exists j :: 0 <= j < |callees| && SourceName(callees[j]) == callee
  }

  /** The clean function `caller` calls `callee`. */
  ghost predicate Calls(defs: seq<Definition>, caller: string, callee: string) {
    exists i :: 0 <= i < |defs| && defs[i].name == caller && !Dependent(defs, defs[i])
                && Names(CallsIn(defs[i]), callee)
  }

  // ---------- how many calls are written ----------

  /** How often `callees` names `callee`. */
  ghost function Occurrences(callees: seq<string>, callee: string): nat {
    if callees == [] then 0
    else
      Occurrences(callees[..|callees| - 1], callee)
      + if SourceName(callees[|callees| - 1]) == callee then 1 else 0
  }

  /** How often the clean function `caller` calls `callee`, over the first `n` definitions. */
  ghost function WrittenCalls(defs: seq<Definition>, n: nat, caller: string, callee: string): nat
    requires n <= |defs|
  {
    if n == 0 then 0
    else
      WrittenCalls(defs, n - 1, caller, callee)
      + if defs[n - 1].name == caller && !Dependent(defs, defs[n - 1])
        then Occurrences(CallsIn(defs[n - 1]), callee) else 0
  }

  /** How often `caller` is listed under `callee`. */
  ghost function Listed(callers: Callers<string>, caller: string, callee: string): nat {
    multiset(CallersOf(callers, callee))[caller]
  }

  lemma ListedOneMore(callers: Callers<string>, caller: string, callee: string, a: string, b: string)
    ensures Listed(callers[callee := CallersOf(callers, callee) + [caller]], a, b)
         == Listed(callers, a, b) + if a == caller && b == callee then 1 else 0
  {
  }

  lemma OccurrencesOneMore(callees: seq<string>, j: nat, b: string)
    requires j < |callees|
    ensures Occurrences(callees[..j + 1], b) == Occurrences(callees[..j], b) + if SourceName(callees[j]) == b then 1 else 0
  {
    assert callees[..j + 1][..j] == callees[..j];
  }

  ghost predicate CallsBefore(defs: seq<Definition>, n: nat, caller: string, callee: string) {
    exists i :: 0 <= i < n <= |defs| && defs[i].name == caller && !Dependent(defs, defs[i])
                && Names(CallsIn(defs[i]), callee)
  }

  lemma NamesOneMore(callees: seq<string>, j: nat, b: string)
    requires j < |callees|
    ensures Names(callees[..j + 1], b) <==> Names(callees[..j], b) || SourceName(callees[j]) == b
  {
    if Names(callees[..j], b) {
      var n :| 0 <= n < j && SourceName(callees[..j][n]) == b;
      assert SourceName(callees[..j + 1][n]) == b;
    }
    if SourceName(callees[j]) == b {
      assert callees[..j + 1][j] == callees[j];
    }
  }

  // ---------- how far the first pass has come ----------

  /** The first `n` definitions have been classified. */
  ghost predicate Classified(defs: seq<Definition>, n: nat, candidates: set<string>, dependent: seq<string>, callers: Callers<string>) {
    && n <= |defs| && Distinct(dependent)
    && (forall name :: name in candidates <==> NamedBefore(defs, n, name, false))
    && (forall name :: name in dependent <==> NamedBefore(defs, n, name, true))
    && (forall a, b :: a in CallersOf(callers, b) <==> CallsBefore(defs, n, a, b))
    && (forall a, b :: Listed(callers, a, b) == WrittenCalls(defs, n, a, b))
  }

  /** Among the first `n` definitions is one of this name that is dependent, or is not. */
  ghost predicate NamedBefore(defs: seq<Definition>, n: nat, name: string, depends: bool) {
    exists i :: 0 <= i < n <= |defs| && defs[i].name == name && Dependent(defs, defs[i]) == depends
  }

  lemma NamedOneMore(defs: seq<Definition>, n: nat, name: string, depends: bool)
    requires n < |defs|
    ensures NamedBefore(defs, n + 1, name, depends) <==>
            NamedBefore(defs, n, name, depends) || (defs[n].name == name && Dependent(defs, defs[n]) == depends)
  {
    if NamedBefore(defs, n, name, depends) {
      var i :| 0 <= i < n && defs[i].name == name && Dependent(defs, defs[i]) == depends;
      assert 0 <= i < n + 1;
    }
  }

  lemma OneMoreCaller(defs: seq<Definition>, n: nat, a: string, b: string)
    requires n < |defs|
    ensures CallsBefore(defs, n + 1, a, b) <==>
            CallsBefore(defs, n, a, b) || (defs[n].name == a && !Dependent(defs, defs[n]) && Names(CallsIn(defs[n]), b))
  {
    if CallsBefore(defs, n, a, b) {
      var i :| 0 <= i < n && defs[i].name == a && !Dependent(defs, defs[i]) && Names(CallsIn(defs[i]), b);
      assert 0 <= i < n + 1;
    }
  }

  lemma DependentNext(defs: seq<Definition>, n: nat, candidates: set<string>, dependent: seq<string>, callers: Callers<string>)
    requires UniqueNames(defs) && Classified(defs, n, candidates, dependent, callers) && n < |defs| && Dependent(defs, defs[n])
    ensures Classified(defs, n + 1, candidates, dependent + [defs[n].name], callers)
  {
    forall name, depends ensures NamedBefore(defs, n + 1, name, depends) <==>
                                 NamedBefore(defs, n, name, depends) || (defs[n].name == name && depends) {
      NamedOneMore(defs, n, name, depends);
    }
    forall a, b ensures CallsBefore(defs, n + 1, a, b) <==> CallsBefore(defs, n, a, b) {
      OneMoreCaller(defs, n, a, b);
    }
    assert defs[n].name !in dependent;
  }

  lemma CandidateNext(defs: seq<Definition>, n: nat, candidates: set<string>, dependent: seq<string>, callers: Callers<string>, extended: Callers<string>)
    requires UniqueNames(defs) && Classified(defs, n, candidates, dependent, callers) && n < |defs| && !Dependent(defs, defs[n])
    requires forall a, b :: a in CallersOf(extended, b) <==> a in CallersOf(callers, b) || (a == defs[n].name && Names(CallsIn(defs[n]), b))
    requires forall a, b :: Listed(extended, a, b) == Listed(callers, a, b) + if a == defs[n].name then Occurrences(CallsIn(defs[n]), b) else 0
    ensures Classified(defs, n + 1, candidates + {defs[n].name}, dependent, extended)
  {
    forall name, depends ensures NamedBefore(defs, n + 1, name, depends) <==>
                                 NamedBefore(defs, n, name, depends) || (defs[n].name == name && !depends) {
      NamedOneMore(defs, n, name, depends);
    }
    forall a, b ensures CallsBefore(defs, n + 1, a, b) <==>
                        CallsBefore(defs, n, a, b) || (defs[n].name == a && Names(CallsIn(defs[n]), b)) {
      OneMoreCaller(defs, n, a, b);
    }
  }

  lemma AllClassified(defs: seq<Definition>, candidates: set<string>, dependent: seq<string>, callers: Callers<string>)
    requires Classified(defs, |defs|, candidates, dependent, callers)
    ensures forall name :: name in candidates <==> CleanName(defs, name)
    ensures forall name :: name in dependent <==> DependentName(defs, name)
    ensures forall a, b :: a in CallersOf(callers, b) <==> Calls(defs, a, b)
    ensures forall a, b :: Listed(callers, a, b) == WrittenCalls(defs, |defs|, a, b)
  {
    forall name ensures NamedBefore(defs, |defs|, name, false) <==> CleanName(defs, name) {
    }
    forall name ensures NamedBefore(defs, |defs|, name, true) <==> DependentName(defs, name) {
    }
    forall a, b ensures CallsBefore(defs, |defs|, a, b) <==> Calls(defs, a, b) {
    }
  }
}
