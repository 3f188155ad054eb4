/**
 * What an expression or a proposition is made of, which constructs read memory,
 * and that the scan of the classifier finds exactly those.
 */
module SyntaxParts {
  import opened Sequences
  import opened Syntax
  import opened MemoryIndependence

  datatype Part = ExpressionPart(e: Expression) | PropositionPart(p: Proposition)

  /** An expression and everything written inside it, in the order written. */
  ghost function Parts(e: Expression): seq<Part>
    decreases e, 1
  {
    [ExpressionPart(e)] + Inside(e)
  }

  ghost function Inside(e: Expression): seq<Part>
    decreases e, 0
  {
    match e
    case IntegerLiteral(_) => []
    case QualifiedC(_, _) => []
    case ResourceField(_) => []
    case AlgebraicConstructor(_, _, arguments) => PartsOfAll(arguments)
    case AlgebraicVariable(_, _, _) => []
    case Binding(_) => []
    case AlgebraicMatch(scrutinee, arms) => Parts(scrutinee) + PartsOfArms(arms)
    case SequenceLiteral(arguments) => PartsOfAll(arguments)
    case SequenceConcat(l, r) => Parts(l) + Parts(r)
    case CFragment(_) => []
    case CUnary(operand, _) => Parts(operand)
    case Field(base, _, _) => Parts(base)
    case CBinding(_) => []
    case ResourceCount(_) => []
    case ResourceWildcard => []
    case Old(inner) => Parts(inner)
    case AtSnapshot(_, inner) => Parts(inner)
    case Negate(inner) => Parts(inner)
    case Binary(_, l, r) => Parts(l) + Parts(r)
    case BitwiseNot(inner) => Parts(inner)
    case Index(base, index) => Parts(base) + Parts(index)
    case ArrayIndex(base, indexes, _) => Parts(base) + PartsOfAll(indexes)
    case If(c, t, f) => PartsOf(c) + Parts(t) + Parts(f)
    case RangeFold(start, end, initial, _, _, body) => Parts(start) + Parts(end) + Parts(initial) + Parts(body)
    case Let(_, value, body) => Parts(value) + Parts(body)
    case Call(_, arguments) => PartsOfAll(arguments)
  }

  ghost function PartsOfAll(es: seq<Expression>): seq<Part>
    decreases es, 0
  {
    if es == [] then [] else Parts(es[0]) + PartsOfAll(es[1..])
  }

  ghost function PartsOfArms(arms: seq<MatchArm>): seq<Part>
    decreases arms, 0
  {
    if arms == [] then [] else Parts(arms[0].body) + PartsOfArms(arms[1..])
  }

  ghost function PartsOf(p: Proposition): seq<Part>
    decreases p, 1
  {
    [PropositionPart(p)] + InsideOf(p)
  }

  ghost function InsideOf(p: Proposition): seq<Part>
    decreases p, 0
  {
    match p
    case Comparison(l, _, r) => Parts(l) + Parts(r)
    case FloatClassification(e, _) => Parts(e)
    case Separate(_, _) => []
    case Contains(_, _) => []
    case Loadable(_) => []
    case Defined(e) => Parts(e)
    case At(_, a) => PartsOf(a)
    case And(a, b) => PartsOf(a) + PartsOf(b)
    case Or(a, b) => PartsOf(a) + PartsOf(b)
    case Not(a) => PartsOf(a)
    case Implies(a, b) => PartsOf(a) + PartsOf(b)
    case ForAll(_, _, _, a) => PartsOf(a)
    case Exists(_, _, _, a) => PartsOf(a)
    case RangeAll(start, end, _, _, a) => Parts(start) + Parts(end) + PartsOf(a)
    case RangeAny(start, end, _, _, a) => Parts(start) + Parts(end) + PartsOf(a)
    case PredicateCall(_, arguments) => PartsOfAll(arguments)
  }

  // ---------- the constructs that read memory ----------

  /** A variable or a value, which no memory is read for. */
  predicate Plain(c: CExpression) {
    c.Variable? || c.Value?
  }

  /** The `uint64` address of one, which is the pointer's own value. */
  predicate AddressOfPlain(c: CExpression) {
    c.Cast? && c.target == UInt64 && Plain(c.expression)
  }

  /**
   * Places, elements, qualified globals, resources, earlier states, and C beyond a
   * plain name or the address of one; separation, containment, loadability,
   * earlier states, and predicates.
   */
  predicate ReadsMemory(part: Part) {
    match part
    case ExpressionPart(e) =>
      || e.Field? || e.Index? || e.ArrayIndex? || e.QualifiedC?
      || e.ResourceField? || e.ResourceCount? || e.ResourceWildcard?
      || e.Old? || e.AtSnapshot?
      || (e.CFragment? && !Plain(e.fragment) && !AddressOfPlain(e.fragment))
      || (e.CUnary? && !AddressOfPlain(e.lowered))
    case PropositionPart(p) =>
      p.Separate? || p.Contains? || p.Loadable? || p.At? || p.PredicateCall?
  }

  ghost predicate AnyReads(parts: seq<Part>) {
    exists i :: 0 <= i < |parts| && ReadsMemory(parts[i])
  }

  predicate GenericAt(name: string, i: nat) {
    i + 3 <= |name| && name[i] == ':' && name[i + 1] == ':' && name[i + 2] == '<'
  }

  /** A source name is all that stands before the first `::<`, or everything if there is none. */
  lemma {:induction false} SourceNameCuts(name: string)
    ensures |SourceName(name)| <= |name| && SourceName(name) == name[..|SourceName(name)|]
    ensures |SourceName(name)| == |name| || GenericAt(name, |SourceName(name)|)
    ensures forall i :: 0 <= i < |SourceName(name)| ==> !GenericAt(name, i)
  {
    if |name| >= 3 && name[..3] != "::<" {
      SourceNameCuts(name[1..]);
      assert name[..3] == [name[0], name[1], name[2]];
      forall i | 0 < i < |SourceName(name)| ensures !GenericAt(name, i) {
        assert !GenericAt(name[1..], i - 1);
      }
    }
  }

  /** The names called, in the order written. */
  ghost function Called(parts: seq<Part>): seq<string> {
    if parts == [] then [] else CalledBy(parts[0]) + Called(parts[1..])
  }

  function CalledBy(part: Part): seq<string> {
    if part.ExpressionPart? && part.e.Call? then [part.e.name] else []
  }

  // ---------- the scan finds exactly them ----------

  /** The scan observes exactly when a part reads memory, and if none does it names exactly the calls written. */
  ghost predicate Finds(scan: Scan, parts: seq<Part>) {
    (scan.observes <==> AnyReads(parts)) && (!scan.observes ==> scan.callees == Called(parts))
  }

  lemma {:induction false} CalledConcat(a: seq<Part>, b: seq<Part>)
    ensures Called(a + b) == Called(a) + Called(b)
  {
    if a == [] {
      assert a + b == b;
    } else {
      CalledConcat(a[1..], b);
      assert (a + b)[1..] == a[1..] + b;
      Three(CalledBy(a[0]), Called(a[1..]), Called(b));
    }
  }

  lemma AnyReadsConcat(a: seq<Part>, b: seq<Part>)
    ensures AnyReads(a + b) <==> AnyReads(a) || AnyReads(b)
  {
    var all := a + b;
    if AnyReads(a) {
      var i :| 0 <= i < |a| && ReadsMemory(a[i]);
      assert all[i] == a[i];
    }
    if AnyReads(b) {
      var i :| 0 <= i < |b| && ReadsMemory(b[i]);
      assert all[|a| + i] == b[i];
    }
  }

  lemma ThenFinds(s: Scan, a: seq<Part>, t: Scan, b: seq<Part>)
    requires Finds(s, a) && Finds(t, b)
    ensures Finds(Then(s, t), a + b)
  {
    AnyReadsConcat(a, b);
    CalledConcat(a, b);
  }

  lemma NothingFinds()
    ensures Finds(CLEAN, [])
  {
  }

  /** A construct that reads memory is found whatever is inside it. */
  lemma ReaderFinds(part: Part, inside: seq<Part>)
    requires ReadsMemory(part)
    ensures Finds(READS, [part] + inside)
  {
    assert ([part] + inside)[0] == part;
  }

  /** Any other construct adds nothing but the name it calls. */
  lemma NodeFinds(part: Part, scan: Scan, inside: seq<Part>)
    requires !ReadsMemory(part) && Finds(scan, inside)
    ensures Finds(Then(Scan(false, CalledBy(part)), scan), [part] + inside)
    ensures CalledBy(part) == [] ==> Finds(scan, [part] + inside)
  {
    AnyReadsConcat([part], inside);
    assert ([part] + inside)[1..] == inside;
  }

  lemma {:induction false} ExpressionFinds(e: Expression)
    ensures Finds(ScanExpression(e), Parts(e))
    decreases e, 0, 1
  {
    if ReadsMemory(ExpressionPart(e)) {
      ReaderFinds(ExpressionPart(e), Inside(e));
    } else {
      if IsLeaf(e) {
        NothingFinds();
      } else if IsUnary(e) || IsPair(e) {
        OperandsFind(e);
      } else if e.AlgebraicMatch? {
        ExpressionFinds(e.scrutinee);
        ArmsFind(e.arms);
        ThenFinds(ScanExpression(e.scrutinee), Parts(e.scrutinee), ScanArms(e.arms), PartsOfArms(e.arms));
      } else if e.If? {
        IfFinds(e);
      } else if e.RangeFold? {
        FoldFinds(e);
      } else if e.Let? {
        ExpressionFinds(e.value);
        ExpressionFinds(e.body);
        ThenFinds(ScanExpression(e.value), Parts(e.value), ScanExpression(e.body), Parts(e.body));
      } else {
        AllFind(e.arguments);
      }
      NodeFinds(ExpressionPart(e), InsideScan(e), Inside(e));
    }
  }

  /** What the scan of an expression finds inside it. */
  ghost function InsideScan(e: Expression): Scan {
    if e.Call? then ScanAll(e.arguments) else ScanExpression(e)
  }

  lemma {:induction false} OperandsFind(e: Expression)
    requires !ReadsMemory(ExpressionPart(e)) && (IsUnary(e) || IsPair(e))
    ensures Finds(ScanExpression(e), Inside(e))
    decreases e, 0, 0
  {
    if e.CUnary? {
      ExpressionFinds(e.operand);
    } else if IsUnary(e) {
      ExpressionFinds(e.inner);
    } else {
      ExpressionFinds(e.left);
      ExpressionFinds(e.right);
      ThenFinds(ScanExpression(e.left), Parts(e.left), ScanExpression(e.right), Parts(e.right));
    }
  }

  lemma {:induction false} IfFinds(e: Expression)
    requires e.If?
    ensures Finds(ScanExpression(e), Inside(e))
    decreases e, 0, 0
  {
    PropositionFinds(e.condition);
    ExpressionFinds(e.thenBranch);
    ExpressionFinds(e.elseBranch);
    ThenFinds(ScanProposition(e.condition), PartsOf(e.condition), ScanExpression(e.thenBranch), Parts(e.thenBranch));
    ThenFinds(Then(ScanProposition(e.condition), ScanExpression(e.thenBranch)), PartsOf(e.condition) + Parts(e.thenBranch),
              ScanExpression(e.elseBranch), Parts(e.elseBranch));
  }

  lemma {:induction false} FoldFinds(e: Expression)
    requires e.RangeFold?
    ensures Finds(ScanExpression(e), Inside(e))
    decreases e, 0, 0
  {
    ExpressionFinds(e.start);
    ExpressionFinds(e.end);
    ExpressionFinds(e.initial);
    ExpressionFinds(e.body);
    var bounds := Then(ScanExpression(e.start), ScanExpression(e.end));
    ThenFinds(ScanExpression(e.start), Parts(e.start), ScanExpression(e.end), Parts(e.end));
    ThenFinds(bounds, Parts(e.start) + Parts(e.end), ScanExpression(e.initial), Parts(e.initial));
    ThenFinds(Then(bounds, ScanExpression(e.initial)), Parts(e.start) + Parts(e.end) + Parts(e.initial), ScanExpression(e.body), Parts(e.body));
  }

  lemma {:induction false} AllFind(es: seq<Expression>)
    ensures Finds(ScanAll(es), PartsOfAll(es))
    decreases es, 0, 0
  {
    if es != [] {
      ExpressionFinds(es[0]);
      AllFind(es[1..]);
      ThenFinds(ScanExpression(es[0]), Parts(es[0]), ScanAll(es[1..]), PartsOfAll(es[1..]));
    }
  }

  lemma {:induction false} ArmsFind(arms: seq<MatchArm>)
    ensures Finds(ScanArms(arms), PartsOfArms(arms))
    decreases arms, 0, 0
  {
    if arms != [] {
      ExpressionFinds(arms[0].body);
      ArmsFind(arms[1..]);
      ThenFinds(ScanExpression(arms[0].body), Parts(arms[0].body), ScanArms(arms[1..]), PartsOfArms(arms[1..]));
    }
  }

  lemma {:induction false} PropositionFinds(p: Proposition)
    ensures Finds(ScanProposition(p), PartsOf(p))
    decreases p, 0, 1
  {
    if ReadsMemory(PropositionPart(p)) {
      ReaderFinds(PropositionPart(p), InsideOf(p));
    } else {
      InsideFinds(p);
      NodeFinds(PropositionPart(p), ScanProposition(p), InsideOf(p));
    }
  }

  lemma {:induction false} InsideFinds(p: Proposition)
    requires !ReadsMemory(PropositionPart(p))
    ensures Finds(ScanProposition(p), InsideOf(p))
    decreases p, 0, 0
  {
    if p.Comparison? {
      ExpressionFinds(p.left);
      ExpressionFinds(p.right);
      ThenFinds(ScanExpression(p.left), Parts(p.left), ScanExpression(p.right), Parts(p.right));
    } else if p.FloatClassification? || p.Defined? {
      ExpressionFinds(p.expression);
    } else if p.RangeAll? || p.RangeAny? {
      ExpressionFinds(p.start);
      ExpressionFinds(p.end);
      PropositionFinds(p.p);
      var bounds := Then(ScanExpression(p.start), ScanExpression(p.end));
      ThenFinds(ScanExpression(p.start), Parts(p.start), ScanExpression(p.end), Parts(p.end));
      ThenFinds(bounds, Parts(p.start) + Parts(p.end), ScanProposition(p.p), PartsOf(p.p));
    } else if p.And? || p.Or? || p.Implies? {
      PropositionFinds(p.p);
      PropositionFinds(p.q);
      ThenFinds(ScanProposition(p.p), PartsOf(p.p), ScanProposition(p.q), PartsOf(p.q));
    } else {
      PropositionFinds(p.p);
    }
  }

  /** Each construct that reads memory, and a call of what is not declared, may take any value at all in a memory. */
  lemma ReadersObserve<V(!new), M>(s: Meaning<V, M>, defs: seq<Definition>, depth: nat, e: Expression, p: Proposition, env: map<string, V>, mem: M)
    ensures ReadsMemory(ExpressionPart(e)) ==> Eval(s, defs, depth, e, env, mem) == s.observe(e, env, mem)
    ensures ReadsMemory(PropositionPart(p)) ==> Holds(s, defs, depth, p, env, mem) == s.holdsOf(p, env, mem)
    ensures e.Call? && Lookup(defs, SourceName(e.name)) == [] ==> Eval(s, defs, depth, e, env, mem) == s.observe(e, env, mem)
  {
  }
}
