/**
 * The classifier of Click functions whose values cannot depend on C memory:
 * a syntactic scan of each body, then propagation backwards along calls.
 */
module MemoryIndependence {
  import opened Syntax

  // ---------- the scan ----------

  /** Whether scanning found a memory read, and the callees named before it stopped. */
  datatype Scan = Scan(observes: bool, callees: seq<string>)

  /** `a || b`: the second scan runs only when the first found nothing. */
  function Then(a: Scan, b: Scan): Scan {
    if a.observes then a else Scan(b.observes, a.callees + b.callees)
  }

  const READS := Scan(true, [])
  const CLEAN := Scan(false, [])

  function ScanExpression(e: Expression): Scan
    decreases e, 0
  {
    match e
    case IntegerLiteral(_) => CLEAN
    case AlgebraicVariable(_, _, _) => CLEAN
    case Binding(_) => CLEAN
    case CBinding(_) => CLEAN
    case CUnary(operand, c) => if AddressCast(c) then ScanExpression(operand) else READS
    case CFragment(c) => if NamesOnly(c) then CLEAN else READS
    case QualifiedC(_, _) => READS
    case ResourceField(_) => READS
    case ResourceCount(_) => READS
    case ResourceWildcard => READS
    case Field(_, _, _) => READS
    case Index(_, _) => READS
    case ArrayIndex(_, _, _) => READS
    case Old(_) => READS
    case AtSnapshot(_, _) => READS
    case AlgebraicConstructor(_, _, arguments) => ScanAll(arguments)
    case SequenceLiteral(arguments) => ScanAll(arguments)
    case AlgebraicMatch(scrutinee, arms) => Then(ScanExpression(scrutinee), ScanArms(arms))
    case SequenceConcat(l, r) => Then(ScanExpression(l), ScanExpression(r))
    case Binary(_, l, r) => Then(ScanExpression(l), ScanExpression(r))
    case Negate(inner) => ScanExpression(inner)
    case BitwiseNot(inner) => ScanExpression(inner)
    case If(c, t, f) => Then(Then(ScanProposition(c), ScanExpression(t)), ScanExpression(f))
    case RangeFold(start, end, initial, _, _, body) =>
      Then(Then(Then(ScanExpression(start), ScanExpression(end)), ScanExpression(initial)), ScanExpression(body))
    case Let(_, value, body) => Then(ScanExpression(value), ScanExpression(body))
    case Call(name, arguments) => Then(Scan(false, [name]), ScanAll(arguments))
  }

  function ScanAll(es: seq<Expression>): Scan
    decreases es, 0
  {
    if es == [] then CLEAN else Then(ScanExpression(es[0]), ScanAll(es[1..]))
  }

  function ScanArms(arms: seq<MatchArm>): Scan
    decreases arms, 0
  {
    if arms == [] then CLEAN else Then(ScanExpression(arms[0].body), ScanArms(arms[1..]))
  }

  function ScanProposition(p: Proposition): Scan
    decreases p, 0
  {
    match p
    case Comparison(l, _, r) => Then(ScanExpression(l), ScanExpression(r))
    case FloatClassification(e, _) => ScanExpression(e)
    case Defined(e) => ScanExpression(e)
    case Separate(_, _) => READS
    case Contains(_, _) => READS
    case Loadable(_) => READS
    case At(_, _) => READS
    case PredicateCall(_, _) => READS
    case And(a, b) => Then(ScanProposition(a), ScanProposition(b))
    case Or(a, b) => Then(ScanProposition(a), ScanProposition(b))
    case Implies(a, b) => Then(ScanProposition(a), ScanProposition(b))
    case Not(a) => ScanProposition(a)
    case ForAll(_, _, _, a) => ScanProposition(a)
    case Exists(_, _, _, a) => ScanProposition(a)
    case RangeAll(start, end, _, _, a) => Then(Then(ScanExpression(start), ScanExpression(end)), ScanProposition(a))
    case RangeAny(start, end, _, _, a) => Then(Then(ScanExpression(start), ScanExpression(end)), ScanProposition(a))
  }

  // ---------- what a clean scan means ----------

  /** A scan that found nothing, all of whose callees are in `kept`. */
  ghost predicate Within(scan: Scan, kept: set<string>) {
    !scan.observes && forall i :: 0 <= i < |scan.callees| ==> SourceName(scan.callees[i]) in kept
  }

  lemma ThenWithin(a: Scan, b: Scan, kept: set<string>)
    requires Within(Then(a, b), kept)
    ensures Within(a, kept) && Within(b, kept)
  {
    assert forall i :: 0 <= i < |a.callees| ==> (a.callees + b.callees)[i] == a.callees[i];
    assert forall i :: 0 <= i < |b.callees| ==> (a.callees + b.callees)[|a.callees| + i] == b.callees[i];
  }

  /** Every kept name is declared, and what it resolves to is clean and calls only kept names. */
  ghost predicate Closed(defs: seq<Definition>, kept: set<string>) {
    forall name <- kept ::
      var found := Lookup(defs, name);
      found != [] && Within(ScanExpression(found[0].body), kept)
  }

  /** Expressions with no parts: a name, a literal, or a construct that reads memory. */
  predicate IsLeaf(e: Expression) {
    !IsUnary(e) && !IsList(e) && !IsPair(e) && !e.AlgebraicMatch? && !e.If? && !e.RangeFold? && !e.Let? && !e.Call?
  }

  predicate IsUnary(e: Expression) {
    e.CUnary? || e.Negate? || e.BitwiseNot?
  }

  predicate IsList(e: Expression) {
    e.AlgebraicConstructor? || e.SequenceLiteral?
  }

  predicate IsPair(e: Expression) {
    e.SequenceConcat? || e.Binary?
  }

  /** A clean expression's value, at any depth of calls, does not depend on the memory. */
  lemma {:induction false} EvalIndependent<V(!new), M>(s: Meaning<V, M>, defs: seq<Definition>, kept: set<string>, depth: nat, e: Expression, env: map<string, V>, m1: M, m2: M)
    requires Closed(defs, kept) && Within(ScanExpression(e), kept)
    ensures Eval(s, defs, depth, e, env, m1) == Eval(s, defs, depth, e, env, m2)
    decreases depth, e, 0, 1
  {
    if IsLeaf(e) {
      LeafIndependent(s, defs, kept, depth, e, env, m1, m2);
    } else if IsUnary(e) {
      UnaryIndependent(s, defs, kept, depth, e, env, m1, m2);
    } else if IsList(e) {
      EvalAllIndependent(s, defs, kept, depth, e.arguments, env, m1, m2);
    } else if IsPair(e) {
      BothIndependent(s, defs, kept, depth, e, e.left, e.right, env, m1, m2);
    } else if e.AlgebraicMatch? {
      MatchIndependent(s, defs, kept, depth, e, env, m1, m2);
    } else if e.If? {
      IfIndependent(s, defs, kept, depth, e, env, m1, m2);
    } else if e.RangeFold? {
      RangeFoldIndependent(s, defs, kept, depth, e, env, m1, m2);
    } else if e.Let? {
      LetIndependent(s, defs, kept, depth, e, env, m1, m2);
    } else {
      CallIndependent(s, defs, kept, depth, e, env, m1, m2);
    }
  }

  lemma {:induction false} LeafIndependent<V(!new), M>(s: Meaning<V, M>, defs: seq<Definition>, kept: set<string>, depth: nat, e: Expression, env: map<string, V>, m1: M, m2: M)
    requires Closed(defs, kept) && Within(ScanExpression(e), kept) && IsLeaf(e)
    ensures Eval(s, defs, depth, e, env, m1) == Eval(s, defs, depth, e, env, m2)
    decreases depth, e, 0, 0
  {
  }

  lemma {:induction false} UnaryIndependent<V(!new), M>(s: Meaning<V, M>, defs: seq<Definition>, kept: set<string>, depth: nat, e: Expression, env: map<string, V>, m1: M, m2: M)
    requires Closed(defs, kept) && Within(ScanExpression(e), kept) && IsUnary(e)
    ensures Eval(s, defs, depth, e, env, m1) == Eval(s, defs, depth, e, env, m2)
    decreases depth, e, 0, 0
  {
    if e.CUnary? {
      EvalIndependent(s, defs, kept, depth, e.operand, env, m1, m2);
    } else {
      EvalIndependent(s, defs, kept, depth, e.inner, env, m1, m2);
    }
  }

  lemma {:induction false} MatchIndependent<V(!new), M>(s: Meaning<V, M>, defs: seq<Definition>, kept: set<string>, depth: nat, e: Expression, env: map<string, V>, m1: M, m2: M)
    requires Closed(defs, kept) && Within(ScanExpression(e), kept) && e.AlgebraicMatch?
    ensures Eval(s, defs, depth, e, env, m1) == Eval(s, defs, depth, e, env, m2)
    decreases depth, e, 0, 0
  {
    ThenWithin(ScanExpression(e.scrutinee), ScanArms(e.arms), kept);
    EvalIndependent(s, defs, kept, depth, e.scrutinee, env, m1, m2);
    var (arm, bound) := s.choose(e, Eval(s, defs, depth, e.scrutinee, env, m1));
    if arm < |e.arms| {
      ArmWithin(e.arms, arm, kept);
      var taken := e.arms[arm];
      EvalIndependent(s, defs, kept, depth, taken.body, env + bound, m1, m2);
    }
  }

  lemma {:induction false} IfIndependent<V(!new), M>(s: Meaning<V, M>, defs: seq<Definition>, kept: set<string>, depth: nat, e: Expression, env: map<string, V>, m1: M, m2: M)
    requires Closed(defs, kept) && Within(ScanExpression(e), kept) && e.If?
    ensures Eval(s, defs, depth, e, env, m1) == Eval(s, defs, depth, e, env, m2)
    decreases depth, e, 0, 0
  {
    var c, t, f := e.condition, e.thenBranch, e.elseBranch;
    ThenWithin(Then(ScanProposition(c), ScanExpression(t)), ScanExpression(f), kept);
    ThenWithin(ScanProposition(c), ScanExpression(t), kept);
    HoldsIndependent(s, defs, kept, depth, c, env, m1, m2);
    EvalIndependent(s, defs, kept, depth, t, env, m1, m2);
    EvalIndependent(s, defs, kept, depth, f, env, m1, m2);
  }

  lemma RangeFoldWithin(e: Expression, kept: set<string>)
    requires e.RangeFold? && Within(ScanExpression(e), kept)
    ensures Within(ScanExpression(e.start), kept) && Within(ScanExpression(e.end), kept)
    ensures Within(ScanExpression(e.initial), kept) && Within(ScanExpression(e.body), kept)
  {
    var start, end, initial := ScanExpression(e.start), ScanExpression(e.end), ScanExpression(e.initial);
    ThenWithin(Then(Then(start, end), initial), ScanExpression(e.body), kept);
    ThenWithin(Then(start, end), initial, kept);
    ThenWithin(start, end, kept);
  }

  lemma {:induction false} RangeFoldIndependent<V(!new), M>(s: Meaning<V, M>, defs: seq<Definition>, kept: set<string>, depth: nat, e: Expression, env: map<string, V>, m1: M, m2: M)
    requires Closed(defs, kept) && Within(ScanExpression(e), kept) && e.RangeFold?
    ensures Eval(s, defs, depth, e, env, m1) == Eval(s, defs, depth, e, env, m2)
    decreases depth, e, 0, 0
  {
    RangeFoldWithin(e, kept);
    EvalIndependent(s, defs, kept, depth, e.start, env, m1, m2);
    EvalIndependent(s, defs, kept, depth, e.end, env, m1, m2);
    EvalIndependent(s, defs, kept, depth, e.initial, env, m1, m2);
    var lo, hi := s.toInt(Eval(s, defs, depth, e.start, env, m1)), s.toInt(Eval(s, defs, depth, e.end, env, m1));
    FoldIndependent(s, defs, kept, depth, e.body, e.accumulator, e.item, env, m1, m2, lo, if lo < hi then hi - lo else 0,
                    Eval(s, defs, depth, e.initial, env, m1));
  }

  lemma {:induction false} LetIndependent<V(!new), M>(s: Meaning<V, M>, defs: seq<Definition>, kept: set<string>, depth: nat, e: Expression, env: map<string, V>, m1: M, m2: M)
    requires Closed(defs, kept) && Within(ScanExpression(e), kept) && e.Let?
    ensures Eval(s, defs, depth, e, env, m1) == Eval(s, defs, depth, e, env, m2)
    decreases depth, e, 0, 0
  {
    ThenWithin(ScanExpression(e.value), ScanExpression(e.body), kept);
    EvalIndependent(s, defs, kept, depth, e.value, env, m1, m2);
    EvalIndependent(s, defs, kept, depth, e.body, env[e.name := Eval(s, defs, depth, e.value, env, m1)], m1, m2);
  }

  lemma {:induction false} CallIndependent<V(!new), M>(s: Meaning<V, M>, defs: seq<Definition>, kept: set<string>, depth: nat, e: Expression, env: map<string, V>, m1: M, m2: M)
    requires Closed(defs, kept) && Within(ScanExpression(e), kept) && e.Call?
    ensures Eval(s, defs, depth, e, env, m1) == Eval(s, defs, depth, e, env, m2)
    decreases depth, e, 0, 0
  {
    ThenWithin(Scan(false, [e.name]), ScanAll(e.arguments), kept);
    assert Scan(false, [e.name]).callees[0] == e.name;
    EvalAllIndependent(s, defs, kept, depth, e.arguments, env, m1, m2);
    var found := Lookup(defs, SourceName(e.name));
    if depth > 0 {
      EvalIndependent(s, defs, kept, depth - 1, found[0].body,
                      Bind(found[0].parameters, EvalAll(s, defs, depth, e.arguments, env, m1)), m1, m2);
    }
  }

  lemma {:induction false} BothIndependent<V(!new), M>(s: Meaning<V, M>, defs: seq<Definition>, kept: set<string>, depth: nat,
                                                       e: Expression, l: Expression, r: Expression, env: map<string, V>, m1: M, m2: M)
    requires Closed(defs, kept) && Within(Then(ScanExpression(l), ScanExpression(r)), kept)
    requires l < e && r < e
    ensures Eval(s, defs, depth, l, env, m1) == Eval(s, defs, depth, l, env, m2)
    ensures Eval(s, defs, depth, r, env, m1) == Eval(s, defs, depth, r, env, m2)
    decreases depth, e, 0, 0
  {
    ThenWithin(ScanExpression(l), ScanExpression(r), kept);
    EvalIndependent(s, defs, kept, depth, l, env, m1, m2);
    EvalIndependent(s, defs, kept, depth, r, env, m1, m2);
  }

  lemma {:induction false} ArmWithin(arms: seq<MatchArm>, i: nat, kept: set<string>)
    requires Within(ScanArms(arms), kept) && i < |arms|
    ensures Within(ScanExpression(arms[i].body), kept)
  {
    ThenWithin(ScanExpression(arms[0].body), ScanArms(arms[1..]), kept);
    if i > 0 { ArmWithin(arms[1..], i - 1, kept); }
  }

  lemma {:induction false} EvalAllIndependent<V(!new), M>(s: Meaning<V, M>, defs: seq<Definition>, kept: set<string>, depth: nat,
                                                          es: seq<Expression>, env: map<string, V>, m1: M, m2: M)
    requires Closed(defs, kept) && Within(ScanAll(es), kept)
    ensures EvalAll(s, defs, depth, es, env, m1) == EvalAll(s, defs, depth, es, env, m2)
    decreases depth, es, 0, 0
  {
    if es != [] {
      ThenWithin(ScanExpression(es[0]), ScanAll(es[1..]), kept);
      EvalIndependent(s, defs, kept, depth, es[0], env, m1, m2);
      EvalAllIndependent(s, defs, kept, depth, es[1..], env, m1, m2);
    }
  }

  lemma {:induction false} FoldIndependent<V(!new), M>(s: Meaning<V, M>, defs: seq<Definition>, kept: set<string>, depth: nat, body: Expression,
                                                       accumulator: string, item: string, env: map<string, V>, m1: M, m2: M, lo: int, count: nat, value: V)
    requires Closed(defs, kept) && Within(ScanExpression(body), kept)
    ensures Fold(s, defs, depth, body, accumulator, item, env, m1, lo, count, value)
            == Fold(s, defs, depth, body, accumulator, item, env, m2, lo, count, value)
    decreases depth, body, 1 + count, 0
  {
    if count > 0 {
      var inner := env[accumulator := value][item := s.fromInt(lo)];
      EvalIndependent(s, defs, kept, depth, body, inner, m1, m2);
      FoldIndependent(s, defs, kept, depth, body, accumulator, item, env, m1, m2, lo + 1, count - 1,
                      Eval(s, defs, depth, body, inner, m1));
    }
  }

  predicate IsConnective(p: Proposition) {
    p.And? || p.Or? || p.Implies? || p.Not?
  }

  predicate IsBinder(p: Proposition) {
    p.ForAll? || p.Exists? || p.RangeAll? || p.RangeAny?
  }

  lemma {:induction false} HoldsIndependent<V(!new), M>(s: Meaning<V, M>, defs: seq<Definition>, kept: set<string>, depth: nat, p: Proposition,
                                                        env: map<string, V>, m1: M, m2: M)
    requires Closed(defs, kept) && Within(ScanProposition(p), kept)
    ensures Holds(s, defs, depth, p, env, m1) <==> Holds(s, defs, depth, p, env, m2)
    decreases depth, p, 0, 2
  {
    if IsConnective(p) {
      ConnectiveIndependent(s, defs, kept, depth, p, env, m1, m2);
    } else if p.ForAll? || p.Exists? {
      QuantifierIndependent(s, defs, kept, depth, p, env, m1, m2);
    } else if p.RangeAll? || p.RangeAny? {
      RangeQuantifierIndependent(s, defs, kept, depth, p, env, m1, m2);
    } else {
      AtomIndependent(s, defs, kept, depth, p, env, m1, m2);
    }
  }

  lemma {:induction false} ConnectiveIndependent<V(!new), M>(s: Meaning<V, M>, defs: seq<Definition>, kept: set<string>, depth: nat, p: Proposition,
                                                        env: map<string, V>, m1: M, m2: M)
    requires Closed(defs, kept) && Within(ScanProposition(p), kept) && IsConnective(p)
    ensures Holds(s, defs, depth, p, env, m1) <==> Holds(s, defs, depth, p, env, m2)
    decreases depth, p, 0, 1
  {
    if p.Not? {
      HoldsIndependent(s, defs, kept, depth, p.p, env, m1, m2);
    } else {
      PairIndependent(s, defs, kept, depth, p, p.p, p.q, env, m1, m2);
    }
  }

  lemma {:induction false} AtomIndependent<V(!new), M>(s: Meaning<V, M>, defs: seq<Definition>, kept: set<string>, depth: nat, p: Proposition,
                                                        env: map<string, V>, m1: M, m2: M)
    requires Closed(defs, kept) && Within(ScanProposition(p), kept)
    requires !IsConnective(p) && !IsBinder(p)
    ensures Holds(s, defs, depth, p, env, m1) <==> Holds(s, defs, depth, p, env, m2)
    decreases depth, p, 0, 0
  {
    if p.Comparison? {
      ThenWithin(ScanExpression(p.left), ScanExpression(p.right), kept);
      EvalIndependent(s, defs, kept, depth, p.left, env, m1, m2);
      EvalIndependent(s, defs, kept, depth, p.right, env, m1, m2);
    } else if p.FloatClassification? || p.Defined? {
      EvalIndependent(s, defs, kept, depth, p.expression, env, m1, m2);
    }
  }

  lemma {:induction false} QuantifierIndependent<V(!new), M>(s: Meaning<V, M>, defs: seq<Definition>, kept: set<string>, depth: nat, p: Proposition,
                                                             env: map<string, V>, m1: M, m2: M)
    requires Closed(defs, kept) && Within(ScanProposition(p), kept) && (p.ForAll? || p.Exists?)
    ensures Holds(s, defs, depth, p, env, m1) <==> Holds(s, defs, depth, p, env, m2)
    decreases depth, p, 0, 0
  {
    forall v: V {:trigger s.inhabits(p.clickType, v)}
      ensures Holds(s, defs, depth, p.p, env[p.name := v], m1) <==> Holds(s, defs, depth, p.p, env[p.name := v], m2)
    {
      HoldsIndependent(s, defs, kept, depth, p.p, env[p.name := v], m1, m2);
    }
  }

  lemma {:induction false} RangeQuantifierIndependent<V(!new), M>(s: Meaning<V, M>, defs: seq<Definition>, kept: set<string>, depth: nat, p: Proposition,
                                                                  env: map<string, V>, m1: M, m2: M)
    requires Closed(defs, kept) && Within(ScanProposition(p), kept) && (p.RangeAll? || p.RangeAny?)
    ensures Holds(s, defs, depth, p, env, m1) <==> Holds(s, defs, depth, p, env, m2)
    decreases depth, p, 0, 0
  {
    var start, end := ScanExpression(p.start), ScanExpression(p.end);
    ThenWithin(Then(start, end), ScanProposition(p.p), kept);
    ThenWithin(start, end, kept);
    EvalIndependent(s, defs, kept, depth, p.start, env, m1, m2);
    EvalIndependent(s, defs, kept, depth, p.end, env, m1, m2);
    forall i: int {:trigger s.fromInt(i)}
      ensures Holds(s, defs, depth, p.p, env[p.item := s.fromInt(i)], m1) <==> Holds(s, defs, depth, p.p, env[p.item := s.fromInt(i)], m2)
    {
      HoldsIndependent(s, defs, kept, depth, p.p, env[p.item := s.fromInt(i)], m1, m2);
    }
  }

  lemma {:induction false} PairIndependent<V(!new), M>(s: Meaning<V, M>, defs: seq<Definition>, kept: set<string>, depth: nat,
                                                       p: Proposition, a: Proposition, b: Proposition, env: map<string, V>, m1: M, m2: M)
    requires Closed(defs, kept) && Within(Then(ScanProposition(a), ScanProposition(b)), kept)
    requires a < p && b < p
    ensures Holds(s, defs, depth, a, env, m1) <==> Holds(s, defs, depth, a, env, m2)
    ensures Holds(s, defs, depth, b, env, m1) <==> Holds(s, defs, depth, b, env, m2)
    decreases depth, p, 0, 0
  {
    ThenWithin(ScanProposition(a), ScanProposition(b), kept);
    HoldsIndependent(s, defs, kept, depth, a, env, m1, m2);
    HoldsIndependent(s, defs, kept, depth, b, env, m1, m2);
  }
}
