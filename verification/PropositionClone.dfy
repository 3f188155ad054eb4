/**
 * Copying a proposition without recursion: a stack of frames, each a visit or
 * a node to build, over a stack of finished copies.
 */
module PropositionClone {
  import opened Syntax

  datatype Frame =
    | Visit(proposition: Proposition)
    | BuildAt(selector: Tag)
    | BuildAnd
    | BuildOr
    | BuildNot
    | BuildImplies
    | BuildForAll(clickType: Tag, name: string, writtenName: string)
    | BuildExists(clickType: Tag, name: string, writtenName: string)
    | BuildRangeAll(start: Expression, end: Expression, item: string, writtenItem: string)
    | BuildRangeAny(start: Expression, end: Expression, item: string, writtenItem: string)

  /** The structural nodes of a proposition; its atoms count once each. */
  function Nodes(p: Proposition): nat {
    match p
    case And(a, b) => 1 + Nodes(a) + Nodes(b)
    case Or(a, b) => 1 + Nodes(a) + Nodes(b)
    case Implies(a, b) => 1 + Nodes(a) + Nodes(b)
    case At(_, a) => 1 + Nodes(a)
    case Not(a) => 1 + Nodes(a)
    case ForAll(_, _, _, a) => 1 + Nodes(a)
    case Exists(_, _, _, a) => 1 + Nodes(a)
    case RangeAll(_, _, _, _, a) => 1 + Nodes(a)
    case RangeAny(_, _, _, _, a) => 1 + Nodes(a)
    case _ => 1
  }

  // ---------- what the two stacks will come to ----------

  /** How many finished copies a build frame consumes. */
  function Arity(frame: Frame): nat {
    match frame
    case Visit(_) => 0
    case BuildAnd => 2
    case BuildOr => 2
    case BuildImplies => 2
    case _ => 1
  }

  /** The proposition a frame adds once its operands, the last of `values`, are taken off. */
  function Built(frame: Frame, values: seq<Proposition>): Proposition
    requires Arity(frame) <= |values|
  {
    match frame
    case Visit(p) => p
    case BuildAt(selector) => At(selector, values[|values| - 1])
    case BuildAnd => And(values[|values| - 2], values[|values| - 1])
    case BuildOr => Or(values[|values| - 2], values[|values| - 1])
    case BuildNot => Not(values[|values| - 1])
    case BuildImplies => Implies(values[|values| - 2], values[|values| - 1])
    case BuildForAll(t, name, written) => ForAll(t, name, written, values[|values| - 1])
    case BuildExists(t, name, written) => Exists(t, name, written, values[|values| - 1])
    case BuildRangeAll(start, end, item, written) => RangeAll(start, end, item, written, values[|values| - 1])
    case BuildRangeAny(start, end, item, written) => RangeAny(start, end, item, written, values[|values| - 1])
  }

  /** Running `frames`, its top last, over `values` never pops an empty stack and leaves exactly `result`. */
  ghost predicate Yields(frames: seq<Frame>, values: seq<Proposition>, result: Proposition)
    decreases |frames|
  {
    if frames == [] then values == [result]
    else
      var frame := frames[|frames| - 1];
      Arity(frame) <= |values| &&
      Yields(frames[..|frames| - 1], values[..|values| - Arity(frame)] + [Built(frame, values)], result)
  }

  ghost function Visits(frames: seq<Frame>): nat {
    if frames == [] then 0
    else (if frames[|frames| - 1].Visit? then Nodes(frames[|frames| - 1].proposition) else 0) + Visits(frames[..|frames| - 1])
  }

  /** A visit is a visit of its parts followed by the build that joins them. */
  lemma VisitOne(frames: seq<Frame>, values: seq<Proposition>, result: Proposition, build: Frame, a: Proposition, p: Proposition)
    requires Yields(frames + [Visit(p)], values, result)
    requires Arity(build) == 1 && Built(build, values + [a]) == p
    ensures Yields(frames + [build] + [Visit(a)], values, result)
  {
    var inner := frames + [build];
    assert (frames + [Visit(p)])[..|frames|] == frames;
    assert (inner + [Visit(a)])[..|inner|] == inner && inner[..|frames|] == frames;
    assert values[..|values|] == values;
    assert (values + [a])[..|values|] == values;
    assert Yields(inner, values + [a], result);
  }

  lemma VisitTwo(frames: seq<Frame>, values: seq<Proposition>, result: Proposition, build: Frame, a: Proposition, b: Proposition, p: Proposition)
    requires Yields(frames + [Visit(p)], values, result)
    requires Arity(build) == 2 && Built(build, values + [a] + [b]) == p
    ensures Yields(frames + [build] + [Visit(b)] + [Visit(a)], values, result)
  {
    var inner := frames + [build];
    var middle := inner + [Visit(b)];
    assert (frames + [Visit(p)])[..|frames|] == frames;
    assert inner[..|frames|] == frames && middle[..|inner|] == inner && (middle + [Visit(a)])[..|middle|] == middle;
    assert values[..|values|] == values && (values + [a])[..|values + [a]|] == values + [a];
    assert (values + [a] + [b])[..|values|] == values;
    assert Yields(inner, values + [a] + [b], result);
    assert Yields(middle, values + [a], result);
  }

  lemma VisitsPushed(frames: seq<Frame>, frame: Frame)
    ensures Visits(frames + [frame]) == Visits(frames) + if frame.Visit? then Nodes(frame.proposition) else 0
  {
    assert (frames + [frame])[..|frames|] == frames;
  }

  // ---------- the traversal ----------

  function CloneAtom(p: Proposition): Proposition
    requires p.Comparison? || p.FloatClassification? || p.Separate? || p.Contains? || p.Loadable? || p.Defined? || p.PredicateCall?
  {
    match p
    case Comparison(left, operator, right) => Comparison(left, operator, right)
    case FloatClassification(expression, classification) => FloatClassification(expression, classification)
    case Separate(left, right) => Separate(left, right)
    case Contains(parent, child) => Contains(parent, child)
    case Loadable(segment) => Loadable(segment)
    case Defined(expression) => Defined(expression)
    case PredicateCall(name, arguments) => PredicateCall(name, arguments)
  }

  /** One visit: an atom is copied at once, a structural node becomes the frames of its parts. */
  method VisitFrame(frames: seq<Frame>, values: seq<Proposition>, p: Proposition, ghost result: Proposition)
    returns (frames': seq<Frame>, values': seq<Proposition>)
    requires Yields(frames + [Visit(p)], values, result)
    ensures Yields(frames', values', result)
    ensures Visits(frames') == Visits(frames) + Nodes(p) - 1
    ensures |frames'| <= |frames| + 3
  {
    assert (frames + [Visit(p)])[..|frames|] == frames;
    match p {
      case At(selector, a) =>
        frames', values' := PushOne(frames, values, BuildAt(selector), a, p, result);
      case And(a, b) =>
        frames', values' := PushTwo(frames, values, BuildAnd, a, b, p, result);
      case Or(a, b) =>
        frames', values' := PushTwo(frames, values, BuildOr, a, b, p, result);
      case Not(a) =>
        frames', values' := PushOne(frames, values, BuildNot, a, p, result);
      case Implies(a, b) =>
        frames', values' := PushTwo(frames, values, BuildImplies, a, b, p, result);
      case ForAll(_, _, _, _) =>
        frames', values' := VisitBinder(frames, values, p, result);
      case Exists(_, _, _, _) =>
        frames', values' := VisitBinder(frames, values, p, result);
      case RangeAll(_, _, _, _, _) =>
        frames', values' := VisitBinder(frames, values, p, result);
      case RangeAny(_, _, _, _, _) =>
        frames', values' := VisitBinder(frames, values, p, result);
      case atom =>
        frames', values' := frames, values + [CloneAtom(atom)];
        assert values[..|values|] == values;
    }
  }

  /** The visit of a quantifier, over a type or over a range. */
  method VisitBinder(frames: seq<Frame>, values: seq<Proposition>, p: Proposition, ghost result: Proposition)
    returns (frames': seq<Frame>, values': seq<Proposition>)
    requires Yields(frames + [Visit(p)], values, result)
    requires p.ForAll? || p.Exists? || p.RangeAll? || p.RangeAny?
    ensures Yields(frames', values', result)
    ensures Visits(frames') == Visits(frames) + Nodes(p) - 1
    ensures |frames'| <= |frames| + 3
  {
    if p.ForAll? {
      frames', values' := PushOne(frames, values, BuildForAll(p.clickType, p.name, p.writtenName), p.p, p, result);
    } else if p.Exists? {
      frames', values' := PushOne(frames, values, BuildExists(p.clickType, p.name, p.writtenName), p.p, p, result);
    } else if p.RangeAll? {
      frames', values' := PushOne(frames, values, BuildRangeAll(p.start, p.end, p.item, p.writtenItem), p.p, p, result);
    } else {
      frames', values' := PushOne(frames, values, BuildRangeAny(p.start, p.end, p.item, p.writtenItem), p.p, p, result);
    }
  }

  method PushOne(frames: seq<Frame>, values: seq<Proposition>, build: Frame, a: Proposition, ghost p: Proposition, ghost result: Proposition)
    returns (frames': seq<Frame>, values': seq<Proposition>)
    requires Yields(frames + [Visit(p)], values, result)
    requires !build.Visit? && Arity(build) == 1 && Built(build, values + [a]) == p
    ensures Yields(frames', values', result)
    ensures Visits(frames') == Visits(frames) + Nodes(a) && |frames'| == |frames| + 2
  {
    VisitOne(frames, values, result, build, a, p);
    VisitsPushed(frames, build);
    VisitsPushed(frames + [build], Visit(a));
    frames', values' := frames + [build] + [Visit(a)], values;
  }

  method PushTwo(frames: seq<Frame>, values: seq<Proposition>, build: Frame, a: Proposition, b: Proposition, ghost p: Proposition, ghost result: Proposition)
    returns (frames': seq<Frame>, values': seq<Proposition>)
    requires Yields(frames + [Visit(p)], values, result)
    requires !build.Visit? && Arity(build) == 2 && Built(build, values + [a] + [b]) == p
    ensures Yields(frames', values', result)
    ensures Visits(frames') == Visits(frames) + Nodes(a) + Nodes(b) && |frames'| == |frames| + 3
  {
    VisitTwo(frames, values, result, build, a, b, p);
    VisitsPushed(frames, build);
    VisitsPushed(frames + [build], Visit(b));
    VisitsPushed(frames + [build] + [Visit(b)], Visit(a));
    frames', values' := frames + [build] + [Visit(b)] + [Visit(a)], values;
  }

  /**
   * The copy equals its input, however deep; the traversal ends with exactly
   * one copy and `copied`, the visits made, is the number of nodes.
   */
  method CloneIteratively(proposition: Proposition) returns (copy: Proposition, copied: nat)
    ensures copy == proposition
    ensures copied == Nodes(proposition)
  {
    var frames := [Visit(proposition)];
    var values: seq<Proposition> := [];
    copied := 0;
    assert Yields([], [proposition], proposition);
    assert frames[..0] == [] && values[..0] + [proposition] == [proposition];
    while frames != []
      invariant Yields(frames, values, proposition)
      invariant copied + Visits(frames) == Nodes(proposition)
      decreases Visits(frames), |frames|
    {
      var frame := frames[|frames| - 1];
      var rest := frames[..|frames| - 1];
      assert frames == rest + [frame];
      if frame.Visit? {
        copied := copied + 1;
        frames, values := VisitFrame(rest, values, frame.proposition, proposition);
      } else {
        values := values[..|values| - Arity(frame)] + [Built(frame, values)];
        frames := rest;
      }
    }
    copy := values[|values| - 1];
  }
}
