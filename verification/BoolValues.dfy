/**
 * A proposition written where a `bool` value is expected, opened into
 * conditionals that each test one atom.
 */
module BoolValues {
  import opened Ordering
  import opened Sequences
  import opened Syntax

  const BOOL_VALUE_CONDITIONALS: nat := 256

  function BoolLiteral(value: bool): Expression {
    CFragment(Value(BoolConstant(if value then 1 else 0)))
  }

  /** The `bool` a literal spells, if it is one. */
  function BoolLiteralValue(e: Expression): Option<bool> {
    if e.CFragment? && e.fragment.Value? && e.fragment.value.BoolConstant? && e.fragment.value.bits <= 1
    then Some(e.fragment.value.bits == 1) else None
  }

  /** The result and the conditionals counted so far, or a refusal. */
  datatype Opened = Opened(expression: Expression, conditionals: nat) | Refused

  function Branch(condition: Proposition, thenBranch: Expression, elseBranch: Expression, conditionals: nat): Opened
    decreases condition
  {
    var count := conditionals + 1;
    if count > BOOL_VALUE_CONDITIONALS then Refused
    else if condition.And? then
      var inner := Branch(condition.q, thenBranch, elseBranch, count);
      if inner.Refused? then Refused else Branch(condition.p, inner.expression, elseBranch, inner.conditionals)
    else if condition.Or? then
      var inner := Branch(condition.q, thenBranch, elseBranch, count);
      if inner.Refused? then Refused else Branch(condition.p, thenBranch, inner.expression, inner.conditionals)
    else if condition.Implies? then
      var consequent := Branch(condition.q, thenBranch, elseBranch, count);
      if consequent.Refused? then Refused else Branch(condition.p, consequent.expression, thenBranch, consequent.conditionals)
    else if condition.Not? then Branch(condition.p, elseBranch, thenBranch, count)
    else Opened(If(condition, thenBranch, elseBranch), count)
  }

  /** `value == true` claimed: the value itself is the truth value. */
  predicate IsBoolClaim(p: Proposition) {
    p.Comparison? && p.operator == Equal && BoolLiteralValue(p.right) == Some(true)
  }

  function BoolValue(p: Proposition): Opened {
    if IsBoolClaim(p) then Opened(p.left, 0) else Branch(p, BoolLiteral(true), BoolLiteral(false), 0)
  }

  // ---------- how much is opened ----------

  /** Nodes of the and/or/not/implies tree, its leaves included. */
  function ConnectiveNodes(p: Proposition): nat {
    if p.And? || p.Or? || p.Implies? then 1 + ConnectiveNodes(p.p) + ConnectiveNodes(p.q)
    else if p.Not? then 1 + ConnectiveNodes(p.p)
    else 1
  }

  /** Each node is counted once, and the count alone decides refusal. */
  lemma {:induction false} BranchCounts(p: Proposition, t: Expression, f: Expression, conditionals: nat)
    requires conditionals <= 256
    ensures Branch(p, t, f, conditionals).Opened? <==> conditionals + ConnectiveNodes(p) <= 256
    ensures Branch(p, t, f, conditionals).Opened? ==>
              Branch(p, t, f, conditionals).conditionals == conditionals + ConnectiveNodes(p)
    decreases p
  {
    if conditionals + 1 > 256 {
    } else if p.And? || p.Or? || p.Implies? {
      BranchCounts(p.q, t, f, conditionals + 1);
      var inner := Branch(p.q, t, f, conditionals + 1);
      if inner.Opened? {
        BranchCounts(p.p, inner.expression, f, inner.conditionals);
        BranchCounts(p.p, t, inner.expression, inner.conditionals);
        BranchCounts(p.p, inner.expression, t, inner.conditionals);
      }
    } else if p.Not? {
      BranchCounts(p.p, f, t, conditionals + 1);
    }
  }

  /** A proposition `value == 1`, the right side being the constant true. */
  predicate ClaimsTrue(p: Proposition) {
    p.Comparison? && p.operator == Equal && p.right == CFragment(Value(BoolConstant(1)))
  }

  lemma ShortcutIsForTrue(p: Proposition)
    ensures IsBoolClaim(p) <==> ClaimsTrue(p)
    ensures ClaimsTrue(p) ==> BoolValue(p) == Opened(p.left, 0)
  {
  }

  /** Apart from the `value == true` shortcut, refused exactly past 256 nodes. */
  lemma RefusedExactlyPastTheLimit(p: Proposition)
    ensures BoolValue(p).Refused? <==> !ClaimsTrue(p) && ConnectiveNodes(p) > 256
  {
    ShortcutIsForTrue(p);
    BranchCounts(p, BoolLiteral(true), BoolLiteral(false), 0);
  }

  // ---------- what it means ----------

  /** Truth under a valuation of the atoms. */
  ghost predicate Truth(holds: Proposition -> bool, p: Proposition) {
    if p.And? then Truth(holds, p.p) && Truth(holds, p.q)
    else if p.Or? then Truth(holds, p.p) || Truth(holds, p.q)
    else if p.Implies? then Truth(holds, p.p) ==> Truth(holds, p.q)
    else if p.Not? then !Truth(holds, p.p)
    else holds(p)
  }

  /** The atoms left-to-right short-circuit evaluation tests, in order. */
  ghost function Tested(holds: Proposition -> bool, p: Proposition): seq<Proposition> {
    if p.And? || p.Implies? then Tested(holds, p.p) + if Truth(holds, p.p) then Tested(holds, p.q) else []
    else if p.Or? then Tested(holds, p.p) + if Truth(holds, p.p) then [] else Tested(holds, p.q)
    else if p.Not? then Tested(holds, p.p)
    else [p]
  }

  /** The expression nested conditionals select. */
  ghost function Selected(holds: Proposition -> bool, e: Expression): Expression {
    if e.If? then if holds(e.condition) then Selected(holds, e.thenBranch) else Selected(holds, e.elseBranch) else e
  }

  /** The conditions nested conditionals test on the way, in order. */
  ghost function Conditions(holds: Proposition -> bool, e: Expression): seq<Proposition> {
    if e.If? then
      [e.condition] + if holds(e.condition) then Conditions(holds, e.thenBranch) else Conditions(holds, e.elseBranch)
    else []
  }

  /** Opening a condition goes where its truth says. */
  lemma {:induction false} BranchSelects(holds: Proposition -> bool, p: Proposition, t: Expression, f: Expression, conditionals: nat)
    requires Branch(p, t, f, conditionals).Opened?
    ensures Selected(holds, Branch(p, t, f, conditionals).expression) == Selected(holds, if Truth(holds, p) then t else f)
    decreases p
  {
    if p.And? || p.Or? || p.Implies? {
      var inner := Branch(p.q, t, f, conditionals + 1);
      BranchSelects(holds, p.q, t, f, conditionals + 1);
      if p.And? {
        BranchSelects(holds, p.p, inner.expression, f, inner.conditionals);
      } else if p.Or? {
        BranchSelects(holds, p.p, t, inner.expression, inner.conditionals);
      } else {
        BranchSelects(holds, p.p, inner.expression, t, inner.conditionals);
      }
    } else if p.Not? {
      BranchSelects(holds, p.p, f, t, conditionals + 1);
    }
  }

  /** The conditions still tested once `p` is decided. */
  ghost function TestedNext(holds: Proposition -> bool, p: Proposition, t: Expression, f: Expression): seq<Proposition> {
    if Truth(holds, p) then Conditions(holds, t) else Conditions(holds, f)
  }

  /** How a connective's tests compose from those of its two sides. */
  lemma TestedJoins(holds: Proposition -> bool, p: Proposition, t: Expression, f: Expression, inner: Expression)
    requires p.And? || p.Or? || p.Implies?
    requires Conditions(holds, inner) == Tested(holds, p.q) + TestedNext(holds, p.q, t, f)
    ensures Tested(holds, p) + TestedNext(holds, p, t, f) ==
            Tested(holds, p.p) + (if p.And? then TestedNext(holds, p.p, inner, f)
                                  else if p.Or? then TestedNext(holds, p.p, t, inner)
                                  else TestedNext(holds, p.p, inner, t))
  {
    Three(Tested(holds, p.p), Tested(holds, p.q), TestedNext(holds, p.q, t, f));
    if Truth(holds, p.p) == p.Or? {
      assert Tested(holds, p) == Tested(holds, p.p);
    }
  }

  /** Opening a condition tests its atoms in short-circuit order first. */
  lemma {:induction false} BranchTests(holds: Proposition -> bool, p: Proposition, t: Expression, f: Expression, conditionals: nat)
    requires Branch(p, t, f, conditionals).Opened?
    ensures Conditions(holds, Branch(p, t, f, conditionals).expression) == Tested(holds, p) + TestedNext(holds, p, t, f)
    decreases p
  {
    if p.And? || p.Or? || p.Implies? {
      var openedSide := Branch(p.q, t, f, conditionals + 1);
      var inner, c := openedSide.expression, openedSide.conditionals;
      BranchTests(holds, p.q, t, f, conditionals + 1);
      TestedJoins(holds, p, t, f, inner);
      if p.And? {
        BranchTests(holds, p.p, inner, f, c);
      } else if p.Or? {
        BranchTests(holds, p.p, t, inner, c);
      } else {
        BranchTests(holds, p.p, inner, t, c);
      }
    } else if p.Not? {
      BranchTests(holds, p.p, f, t, conditionals + 1);
    }
  }

  /** The value selected is the literal of the proposition's truth, after the same tests in the same order. */
  lemma BoolValueDecides(holds: Proposition -> bool, p: Proposition)
    requires !ClaimsTrue(p) && BoolValue(p).Opened?
    ensures Selected(holds, BoolValue(p).expression) == CFragment(Value(BoolConstant(if Truth(holds, p) then 1 else 0)))
    ensures Conditions(holds, BoolValue(p).expression) == Tested(holds, p)
  {
    ShortcutIsForTrue(p);
    BranchSelects(holds, p, BoolLiteral(true), BoolLiteral(false), 0);
    BranchTests(holds, p, BoolLiteral(true), BoolLiteral(false), 0);
  }

  // ---------- and in the specification's own meaning ----------

  /** The atoms' valuation in a memory and an environment. */
  ghost function Valuation<V(!new), M>(s: Meaning<V, M>, defs: seq<Definition>, depth: nat, env: map<string, V>, mem: M): Proposition -> bool {
    p => Holds(s, defs, depth, p, env, mem)
  }

  lemma {:induction false} HoldsIsTruth<V(!new), M>(s: Meaning<V, M>, defs: seq<Definition>, depth: nat, p: Proposition, env: map<string, V>, mem: M)
    ensures Holds(s, defs, depth, p, env, mem) <==> Truth(Valuation(s, defs, depth, env, mem), p)
  {
    if p.And? || p.Or? || p.Implies? {
      HoldsIsTruth(s, defs, depth, p.p, env, mem);
      HoldsIsTruth(s, defs, depth, p.q, env, mem);
    } else if p.Not? {
      HoldsIsTruth(s, defs, depth, p.p, env, mem);
    }
  }

  lemma {:induction false} SelectedEvaluates<V(!new), M>(s: Meaning<V, M>, defs: seq<Definition>, depth: nat, e: Expression, env: map<string, V>, mem: M)
    ensures Eval(s, defs, depth, e, env, mem) == Eval(s, defs, depth, Selected(Valuation(s, defs, depth, env, mem), e), env, mem)
  {
    if e.If? {
      SelectedEvaluates(s, defs, depth, e.thenBranch, env, mem);
      SelectedEvaluates(s, defs, depth, e.elseBranch, env, mem);
    }
  }

  /** The constants 1 and 0 of `bool` mean true and false, two different values, and `==` compares values. */
  ghost predicate BooleanMeaning<V(!new), M>(s: Meaning<V, M>, yes: V, no: V) {
    && (forall env :: s.leaf(CFragment(Value(BoolConstant(1))), env) == yes)
    && (forall env :: s.leaf(CFragment(Value(BoolConstant(0))), env) == no)
    && yes != no
    && (forall l, r, x, y :: s.holds(Comparison(l, Equal, r), [x, y]) <==> x == y)
  }

  /**
   * The value of the translation is the truth of the proposition: always past
   * the shortcut, and for the `value == true` shortcut exactly when the value
   * claimed true is one of the two `bool` values.
   */
  lemma BoolValueMeans<V(!new), M>(s: Meaning<V, M>, yes: V, no: V, defs: seq<Definition>, depth: nat, p: Proposition, env: map<string, V>, mem: M)
    requires BooleanMeaning(s, yes, no) && BoolValue(p).Opened?
    ensures Eval(s, defs, depth, BoolValue(p).expression, env, mem) == (if Holds(s, defs, depth, p, env, mem) then yes else no)
       <==> !ClaimsTrue(p) || Eval(s, defs, depth, p.left, env, mem) in {yes, no}
  {
    ShortcutIsForTrue(p);
    if ClaimsTrue(p) {
      ClaimMeans(s, yes, no, defs, depth, p, env, mem);
    } else {
      OpenedMeans(s, yes, no, defs, depth, p, env, mem);
    }
  }

  lemma ClaimMeans<V(!new), M>(s: Meaning<V, M>, yes: V, no: V, defs: seq<Definition>, depth: nat, p: Proposition, env: map<string, V>, mem: M)
    requires BooleanMeaning(s, yes, no) && ClaimsTrue(p)
    ensures Holds(s, defs, depth, p, env, mem) <==> Eval(s, defs, depth, p.left, env, mem) == yes
  {
    assert Eval(s, defs, depth, p.right, env, mem) == yes;
  }

  lemma OpenedMeans<V(!new), M>(s: Meaning<V, M>, yes: V, no: V, defs: seq<Definition>, depth: nat, p: Proposition, env: map<string, V>, mem: M)
    requires BooleanMeaning(s, yes, no) && BoolValue(p).Opened? && !ClaimsTrue(p)
    ensures Eval(s, defs, depth, BoolValue(p).expression, env, mem) == if Holds(s, defs, depth, p, env, mem) then yes else no
  {
    var holds := Valuation(s, defs, depth, env, mem);
    SelectedEvaluates(s, defs, depth, BoolValue(p).expression, env, mem);
    BoolValueDecides(holds, p);
    HoldsIsTruth(s, defs, depth, p, env, mem);
  }
}
