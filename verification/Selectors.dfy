/** The program points a proof records snapshots at, in their derived order. */
module Selectors {
  import opened Ordering
  import opened Machine

  datatype PointKind = AtEntry | AtExit

  datatype CodeRegion =
    | Function
    | Loop(index: USize)
    | Statement(index: USize)
    | Label(name: string)
    | Assignment(local: string, occurrence: USize)
    | Read(index: USize)
    | BackEdge

  datatype Selector = ProgramPoint(region: CodeRegion, kind: PointKind) | Mark(name: string)

  // ---------- the order derived from declaration order ----------

  predicate StringLess(a: string, b: string) {
    if a == [] || b == [] then a == [] && b != []
    else a[0] < b[0] || (a[0] == b[0] && StringLess(a[1..], b[1..]))
  }

  function Rank(region: CodeRegion): nat {
    match region
    case Function => 0
    case Loop(_) => 1
    case Statement(_) => 2
    case Label(_) => 3
    case Assignment(_, _) => 4
    case Read(_) => 5
    case BackEdge => 6
  }

  predicate RegionLess(a: CodeRegion, b: CodeRegion) {
    if Rank(a) != Rank(b) then Rank(a) < Rank(b)
    else
      match a
      case Function => false
      case Loop(i) => i < b.index
      case Statement(i) => i < b.index
      case Label(name) => StringLess(name, b.name)
      case Assignment(local, occurrence) =>
        StringLess(local, b.local) || (local == b.local && occurrence < b.occurrence)
      case Read(i) => i < b.index
      case BackEdge => false
  }

  predicate SelectorLess(a: Selector, b: Selector) {
    match a
    case ProgramPoint(region, kind) =>
      b.ProgramPoint? ==> RegionLess(region, b.region) || (region == b.region && kind.AtEntry? && b.kind.AtExit?)
    case Mark(name) => b.Mark? && StringLess(name, b.name)
  }

  lemma {:induction false} StringTrichotomy(a: string, b: string)
    ensures StringLess(a, b) || a == b || StringLess(b, a)
  {
    if a != [] && b != [] {
      StringTrichotomy(a[1..], b[1..]);
      assert a == [a[0]] + a[1..] && b == [b[0]] + b[1..];
    }
  }

  lemma {:induction false} StringIrreflexive(a: string)
    ensures !StringLess(a, a)
  {
    if a != [] { StringIrreflexive(a[1..]); }
  }

  lemma {:induction false} StringTransitive(a: string, b: string, c: string)
    requires StringLess(a, b) && StringLess(b, c)
    ensures StringLess(a, c)
  {
    if a != [] && a[0] == b[0] == c[0] { StringTransitive(a[1..], b[1..], c[1..]); }
  }

  lemma RegionTransitive(a: CodeRegion, b: CodeRegion, c: CodeRegion)
    requires RegionLess(a, b) && RegionLess(b, c)
    ensures RegionLess(a, c)
  {
    if Rank(a) == Rank(b) == Rank(c) {
      match a
      case Label(name) => StringTransitive(name, b.name, c.name);
      case Assignment(local, _) =>
        if StringLess(local, b.local) && StringLess(b.local, c.local) { StringTransitive(local, b.local, c.local); }
      case _ =>
    }
  }

  lemma RegionTrichotomy(a: CodeRegion, b: CodeRegion)
    ensures RegionLess(a, b) || a == b || RegionLess(b, a)
    ensures !RegionLess(a, a)
  {
    if a.Label? {
      StringIrreflexive(a.name);
      if b.Label? { StringTrichotomy(a.name, b.name); }
    } else if a.Assignment? {
      StringIrreflexive(a.local);
      if b.Assignment? { StringTrichotomy(a.local, b.local); }
    }
  }

  /** The derived order is a strict total order, so the search tree's laws apply to it. */
  lemma SelectorOrder()
    ensures StrictTotal(SelectorLess)
  {
    forall a: Selector ensures !SelectorLess(a, a) {
      if a.Mark? { StringIrreflexive(a.name); } else { RegionTrichotomy(a.region, a.region); }
    }
    forall a: Selector, b: Selector ensures SelectorLess(a, b) || a == b || SelectorLess(b, a) {
      if a.Mark? && b.Mark? { StringTrichotomy(a.name, b.name); }
      if a.ProgramPoint? && b.ProgramPoint? { RegionTrichotomy(a.region, b.region); }
    }
    forall a: Selector, b: Selector, c: Selector | SelectorLess(a, b) && SelectorLess(b, c) ensures SelectorLess(a, c) {
      if a.Mark? && b.Mark? && c.Mark? { StringTransitive(a.name, b.name, c.name); }
      if a.ProgramPoint? && b.ProgramPoint? && c.ProgramPoint? && RegionLess(a.region, b.region) && RegionLess(b.region, c.region) {
        RegionTransitive(a.region, b.region, c.region);
      }
    }
  }

  // ---------- the order, spelled out ----------

  /** `a` is a proper beginning of `b`, or has the lesser character where they first differ. */
  ghost predicate Lexically(a: string, b: string, i: nat) {
    && i <= |a| && i < |b| && a[..i] == b[..i]
    && (i == |a| || a[i] < b[i])
  }

  lemma FirstDiffer(a: string, b: string)
    requires a != [] && b != [] && a[0] != b[0]
    ensures a[0] < b[0] <==> exists i: nat :: Lexically(a, b, i)
  {
    if a[0] < b[0] {
      assert Lexically(a, b, 0);
    }
    forall i: nat | i <= |a| && i <= |b| && a[..i] == b[..i] ensures i == 0 {
      assert a[..i] == b[..i];
      SameHead(a, b, i);
    }
  }

  lemma SameHead(a: string, b: string, i: nat)
    requires i <= |a| && i <= |b| && a[..i] == b[..i]
    ensures i > 0 ==> a[0] == b[0]
  {
    if i > 0 {
      assert a[..i][0] == a[0] && b[..i][0] == b[0];
    }
  }

  lemma {:induction false} StringLessIs(a: string, b: string)
    ensures StringLess(a, b) <==> exists i: nat :: Lexically(a, b, i)
  {
    if a == [] || b == [] {
      if b != [] {
        assert Lexically(a, b, 0);
      }
    } else if a[0] != b[0] {
      FirstDiffer(a, b);
    } else {
      StringLessIs(a[1..], b[1..]);
      forall i: nat | Lexically(a[1..], b[1..], i) ensures Lexically(a, b, i + 1) {
        assert a[..i + 1] == [a[0]] + a[1..][..i] && b[..i + 1] == [b[0]] + b[1..][..i];
      }
      forall i: nat | Lexically(a, b, i) ensures i > 0 && Lexically(a[1..], b[1..], i - 1) {
        assert a[1..][..i - 1] == a[..i][1..] && b[1..][..i - 1] == b[..i][1..];
      }
    }
  }

  /** Regions of one kind go by their indexes or names, and the kinds as they are declared. */
  lemma RegionLessIs(i: USize, j: USize, x: string, y: string)
    ensures RegionLess(Loop(i), Loop(j)) == RegionLess(Statement(i), Statement(j)) == RegionLess(Read(i), Read(j)) == (i < j)
    ensures RegionLess(Label(x), Label(y)) == StringLess(x, y)
    ensures RegionLess(Assignment(x, i), Assignment(y, j)) == (StringLess(x, y) || (x == y && i < j))
    ensures RegionLess(Function, Loop(i)) && RegionLess(Loop(i), Statement(j)) && RegionLess(Statement(i), Label(x))
    ensures RegionLess(Label(x), Assignment(y, i)) && RegionLess(Assignment(x, i), Read(j)) && RegionLess(Read(i), BackEdge)
  {
  }

  /** Points go by their regions, an entry before its exit, and every mark comes after every point. */
  lemma SelectorLessIs(r: CodeRegion, k: PointKind, s: CodeRegion, l: PointKind, x: string, y: string)
    ensures SelectorLess(ProgramPoint(r, k), ProgramPoint(s, l)) <==> RegionLess(r, s) || (r == s && k == AtEntry && l == AtExit)
    ensures SelectorLess(ProgramPoint(r, k), Mark(x)) && !SelectorLess(Mark(x), ProgramPoint(r, k))
    ensures SelectorLess(Mark(x), Mark(y)) == StringLess(x, y)
  {
  }
}
