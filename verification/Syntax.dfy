/**
 * The specification syntax the surface passes work on, and a meaning for it
 * in which every construct the passes call memory-reading may observe the
 * whole C memory.
 */
module Syntax {

  // Payloads the passes carry along without looking inside.
  type Tag = nat

  datatype CType = UInt64 | OtherType(tag: Tag)
  datatype CValue = BoolConstant(bits: nat) | OtherValue(tag: Tag)
  datatype CExpression =
    | Variable(name: string)
    | Value(value: CValue)
    | Cast(expression: CExpression, target: CType)
    | OtherC(tag: Tag)

  datatype BinaryOperator =
    | Add | Subtract | Multiply | Divide | Remainder
    | ShiftLeft | ShiftRight | BitwiseAnd | BitwiseOr | BitwiseXor

  datatype ComparisonOperator = Equal | NotEqual | Less | LessEqual | Greater | GreaterEqual

  datatype MatchArm = MatchArm(variant: string, bindings: seq<string>, body: Expression)

  datatype Expression =
    | IntegerLiteral(text: string)
    | QualifiedC(name: string, lowered: CExpression)
    | ResourceField(access: Tag)
    | AlgebraicConstructor(algebraicType: Tag, variant: string, arguments: seq<Expression>)
    | AlgebraicVariable(name: string, algebraicType: Tag, binderIndex: nat)
    | Binding(name: string)
    | AlgebraicMatch(scrutinee: Expression, arms: seq<MatchArm>)
    | SequenceLiteral(arguments: seq<Expression>)
    | SequenceConcat(left: Expression, right: Expression)
    | CFragment(fragment: CExpression)
    | CUnary(operand: Expression, lowered: CExpression)
    | Field(base: Expression, field: string, lowered: CExpression)
    | CBinding(name: string)
    | ResourceCount(resource: Tag)
    | ResourceWildcard
    | Old(expression: Expression)
    | AtSnapshot(selector: Tag, expression: Expression)
    | Negate(inner: Expression)
    | Binary(operator: BinaryOperator, left: Expression, right: Expression)
    | BitwiseNot(inner: Expression)
    | Index(base: Expression, index: Expression)
    | ArrayIndex(base: Expression, indexes: seq<Expression>, lowered: CExpression)
    | If(condition: Proposition, thenBranch: Expression, elseBranch: Expression)
    | RangeFold(start: Expression, end: Expression, initial: Expression, accumulator: string, item: string, body: Expression)
    | Let(name: string, value: Expression, body: Expression)
    | Call(name: string, arguments: seq<Expression>)

  datatype Proposition =
    | Comparison(left: Expression, operator: ComparisonOperator, right: Expression)
    | FloatClassification(expression: Expression, classification: Tag)
    | Separate(leftSubject: Tag, rightSubject: Tag)
    | Contains(parent: Tag, child: Tag)
    | Loadable(segment: Tag)
    | Defined(expression: Expression)
    | At(selector: Tag, proposition: Proposition)
    | And(p: Proposition, q: Proposition)
    | Or(p: Proposition, q: Proposition)
    | Not(p: Proposition)
    | Implies(p: Proposition, q: Proposition)
    | ForAll(clickType: Tag, name: string, writtenName: string, p: Proposition)
    | Exists(clickType: Tag, name: string, writtenName: string, p: Proposition)
    | RangeAll(start: Expression, end: Expression, item: string, writtenItem: string, p: Proposition)
    | RangeAny(start: Expression, end: Expression, item: string, writtenItem: string, p: Proposition)
    | PredicateCall(name: string, arguments: seq<Expression>)

  datatype Definition = Definition(name: string, parameters: seq<string>, body: Expression)

  // ---------- names of generic instances ----------

  /** `f` for a generic instance `f::<T>`. */
  function SourceName(name: string): string {
    if |name| < 3 then name
    else if name[..3] == "::<" then []
    else [name[0]] + SourceName(name[1..])
  }

  // ---------- meaning ----------

  /**
   * The meaning of the constructs: `leaf` and `apply` see values only, while
   * `observe` and `holdsOf` may depend on the memory in any way at all.
   */
  datatype Meaning<!V, !M> = Meaning(
    stuck: V,
    leaf: (Expression, map<string, V>) -> V,
    apply: (Expression, seq<V>) -> V,
    observe: (Expression, map<string, V>, M) -> V,
    choose: (Expression, V) -> (nat, map<string, V>),
    holds: (Proposition, seq<V>) -> bool,
    holdsOf: (Proposition, map<string, V>, M) -> bool,
    inhabits: (Tag, V) -> bool,
    toInt: V -> int,
    fromInt: int -> V
  )

  /** The last definition of a name is the one looked up. */
  ghost function Lookup(definitions: seq<Definition>, name: string): (found: seq<Definition>)
    ensures |found| <= 1
    ensures found != [] ==> found[0] in definitions && found[0].name == name
    ensures found == [] <==> forall i :: 0 <= i < |definitions| ==> definitions[i].name != name
  {
    if definitions == [] then []
    else if definitions[|definitions| - 1].name == name then [definitions[|definitions| - 1]]
    else Lookup(definitions[..|definitions| - 1], name)
  }

  ghost function Bind<V>(names: seq<string>, values: seq<V>): map<string, V> {
    if names == [] || values == [] then map[] else Bind(names[1..], values[1..])[names[0] := values[0]]
  }

  /** An expression's value when at most `depth` calls may be open at once. */
  ghost function Eval<V(!new), M>(s: Meaning<V, M>, defs: seq<Definition>, depth: nat, e: Expression, env: map<string, V>, mem: M): V
    decreases depth, e, 0
  {
    match e
    case IntegerLiteral(_) => s.leaf(e, env)
    case AlgebraicVariable(_, _, _) => s.leaf(e, env)
    case Binding(_) => s.leaf(e, env)
    case CBinding(_) => s.leaf(e, env)
    case CFragment(c) => if NamesOnly(c) then s.leaf(e, env) else s.observe(e, env, mem)
    case CUnary(operand, c) =>
      if AddressCast(c) then s.apply(e, [Eval(s, defs, depth, operand, env, mem)]) else s.observe(e, env, mem)
    case QualifiedC(_, _) => s.observe(e, env, mem)
    case ResourceField(_) => s.observe(e, env, mem)
    case ResourceCount(_) => s.observe(e, env, mem)
    case ResourceWildcard => s.observe(e, env, mem)
    case Field(_, _, _) => s.observe(e, env, mem)
    case Index(_, _) => s.observe(e, env, mem)
    case ArrayIndex(_, _, _) => s.observe(e, env, mem)
    case Old(_) => s.observe(e, env, mem)
    case AtSnapshot(_, _) => s.observe(e, env, mem)
    case AlgebraicConstructor(_, _, arguments) => s.apply(e, EvalAll(s, defs, depth, arguments, env, mem))
    case SequenceLiteral(arguments) => s.apply(e, EvalAll(s, defs, depth, arguments, env, mem))
    case AlgebraicMatch(scrutinee, arms) =>
      var (arm, bound) := s.choose(e, Eval(s, defs, depth, scrutinee, env, mem));
      if arm < |arms| then
        var taken := arms[arm];
        Eval(s, defs, depth, taken.body, env + bound, mem)
      else s.stuck
    case SequenceConcat(l, r) => s.apply(e, [Eval(s, defs, depth, l, env, mem), Eval(s, defs, depth, r, env, mem)])
    case Binary(_, l, r) => s.apply(e, [Eval(s, defs, depth, l, env, mem), Eval(s, defs, depth, r, env, mem)])
    case Negate(inner) => s.apply(e, [Eval(s, defs, depth, inner, env, mem)])
    case BitwiseNot(inner) => s.apply(e, [Eval(s, defs, depth, inner, env, mem)])
    case If(c, t, f) =>
      if Holds(s, defs, depth, c, env, mem) then Eval(s, defs, depth, t, env, mem) else Eval(s, defs, depth, f, env, mem)
    case RangeFold(start, end, initial, accumulator, item, body) =>
      var lo, hi := s.toInt(Eval(s, defs, depth, start, env, mem)), s.toInt(Eval(s, defs, depth, end, env, mem));
      Fold(s, defs, depth, body, accumulator, item, env, mem, lo, if lo < hi then hi - lo else 0,
           Eval(s, defs, depth, initial, env, mem))
    case Let(name, value, body) =>
      Eval(s, defs, depth, body, env[name := Eval(s, defs, depth, value, env, mem)], mem)
    case Call(name, arguments) =>
      var values := EvalAll(s, defs, depth, arguments, env, mem);
      var found := Lookup(defs, SourceName(name));
      if found == [] then s.observe(e, env, mem)
      else if depth == 0 then s.stuck
      else Eval(s, defs, depth - 1, found[0].body, Bind(found[0].parameters, values), mem)
  }

  ghost function EvalAll<V(!new), M>(s: Meaning<V, M>, defs: seq<Definition>, depth: nat, es: seq<Expression>, env: map<string, V>, mem: M): seq<V>
    decreases depth, es, 0
  {
    if es == [] then [] else [Eval(s, defs, depth, es[0], env, mem)] + EvalAll(s, defs, depth, es[1..], env, mem)
  }

  /** `count` rounds of a range fold from item `lo`. */
  ghost function Fold<V(!new), M>(s: Meaning<V, M>, defs: seq<Definition>, depth: nat, body: Expression, accumulator: string, item: string,
                                  env: map<string, V>, mem: M, lo: int, count: nat, value: V): V
    decreases depth, body, 1 + count
  {
    if count == 0 then value
    else
      var next := Eval(s, defs, depth, body, env[accumulator := value][item := s.fromInt(lo)], mem);
      Fold(s, defs, depth, body, accumulator, item, env, mem, lo + 1, count - 1, next)
  }

  ghost predicate Holds<V(!new), M>(s: Meaning<V, M>, defs: seq<Definition>, depth: nat, p: Proposition, env: map<string, V>, mem: M)
    decreases depth, p, 0
  {
    match p
    case Comparison(l, _, r) => s.holds(p, [Eval(s, defs, depth, l, env, mem), Eval(s, defs, depth, r, env, mem)])
    case FloatClassification(e, _) => s.holds(p, [Eval(s, defs, depth, e, env, mem)])
    case Defined(e) => s.holds(p, [Eval(s, defs, depth, e, env, mem)])
    case Separate(_, _) => s.holdsOf(p, env, mem)
    case Contains(_, _) => s.holdsOf(p, env, mem)
    case Loadable(_) => s.holdsOf(p, env, mem)
    case At(_, _) => s.holdsOf(p, env, mem)
    case PredicateCall(_, _) => s.holdsOf(p, env, mem)
    case And(a, b) => Holds(s, defs, depth, a, env, mem) && Holds(s, defs, depth, b, env, mem)
    case Or(a, b) => Holds(s, defs, depth, a, env, mem) || Holds(s, defs, depth, b, env, mem)
    case Not(a) => !Holds(s, defs, depth, a, env, mem)
    case Implies(a, b) => Holds(s, defs, depth, a, env, mem) ==> Holds(s, defs, depth, b, env, mem)
    case ForAll(t, name, _, a) => forall v: V :: s.inhabits(t, v) ==> Holds(s, defs, depth, a, env[name := v], mem)
    case Exists(t, name, _, a) => exists v: V :: s.inhabits(t, v) && Holds(s, defs, depth, a, env[name := v], mem)
    case RangeAll(start, end, item, _, a) =>
      var lo, hi := s.toInt(Eval(s, defs, depth, start, env, mem)), s.toInt(Eval(s, defs, depth, end, env, mem));
      forall i: int {:trigger s.fromInt(i)} :: lo <= i < hi ==> Holds(s, defs, depth, a, env[item := s.fromInt(i)], mem)
    case RangeAny(start, end, item, _, a) =>
      var lo, hi := s.toInt(Eval(s, defs, depth, start, env, mem)), s.toInt(Eval(s, defs, depth, end, env, mem));
      exists i: int {:trigger s.fromInt(i)} :: lo <= i < hi && Holds(s, defs, depth, a, env[item := s.fromInt(i)], mem)
  }

  /** A bare C name or literal, or the `uint64` address of one. */
  predicate NamesOnly(c: CExpression) {
    c.Variable? || c.Value? || AddressCast(c)
  }

  predicate AddressCast(c: CExpression) {
    c.Cast? && c.target == UInt64 && (c.expression.Variable? || c.expression.Value?)
  }
}
