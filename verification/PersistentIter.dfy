/**
 * The double-ended iterator of the persistent map: two stacks that never
 * look at each other, meeting only through the count of entries left.
 */
module PersistentIters {
  import opened Ordering
  import opened Sequences
  import opened AvlTree
  import opened PersistentMaps
  import opened DiffStacks

  /** What a front stack, its top last, would yield if never cut short. */
  ghost function FrontRest<K, V>(stack: seq<MapNode<K, V>>): seq<Bound<K, V>> {
    if stack == [] then []
    else
      var node := stack[|stack| - 1];
      [(node.key, node.value)] + Entries(TreeOf(node.right)) + FrontRest(stack[..|stack| - 1])
  }

  /** What a back stack would yield, in ascending order. */
  ghost function BackRest<K, V>(stack: seq<MapNode<K, V>>): seq<Bound<K, V>> {
    if stack == [] then []
    else
      var node := stack[|stack| - 1];
      BackRest(stack[..|stack| - 1]) + Entries(TreeOf(node.left)) + [(node.key, node.value)]
  }

  ghost predicate AllValid<K, V>(stack: seq<MapNode<K, V>>) {
    stack != [] ==> stack[|stack| - 1].Valid() && AllValid(stack[..|stack| - 1])
  }

  lemma FrontPushed<K, V>(stack: seq<MapNode<K, V>>, node: MapNode<K, V>)
    requires AllValid(stack) && node.Valid()
    ensures AllValid(stack + [node])
    ensures Entries(TreeOf(node.left)) + FrontRest(stack + [node]) == Entries(node.tree) + FrontRest(stack)
  {
    assert (stack + [node])[..|stack|] == stack;
    Four(Entries(TreeOf(node.left)), [(node.key, node.value)], Entries(TreeOf(node.right)), FrontRest(stack));
    Three([(node.key, node.value)], Entries(TreeOf(node.right)), FrontRest(stack));
    assert Entries(node.tree) == Entries(TreeOf(node.left)) + [(node.key, node.value)] + Entries(TreeOf(node.right));
  }

  lemma FrontPopped<K, V>(stack: seq<MapNode<K, V>>)
    requires AllValid(stack) && stack != []
    ensures var node, popped := stack[|stack| - 1], stack[..|stack| - 1];
            && node.Valid() && AllValid(popped)
            && FrontRest(stack) == [(node.key, node.value)] + (Entries(TreeOf(node.right)) + FrontRest(popped))
  {
    var node, popped := stack[|stack| - 1], stack[..|stack| - 1];
    Three([(node.key, node.value)], Entries(TreeOf(node.right)), FrontRest(popped));
  }

  lemma BackPushed<K, V>(stack: seq<MapNode<K, V>>, node: MapNode<K, V>)
    requires AllValid(stack) && node.Valid()
    ensures AllValid(stack + [node])
    ensures BackRest(stack + [node]) + Entries(TreeOf(node.right)) == BackRest(stack) + Entries(node.tree)
  {
    assert (stack + [node])[..|stack|] == stack;
    var l, e, r := Entries(TreeOf(node.left)), [(node.key, node.value)], Entries(TreeOf(node.right));
    Four(BackRest(stack), l, e, r);
    Three(l, e, r);
    assert Entries(node.tree) == l + e + r;
  }

  lemma BackPopped<K, V>(stack: seq<MapNode<K, V>>)
    requires AllValid(stack) && stack != []
    ensures var node, popped := stack[|stack| - 1], stack[..|stack| - 1];
            && node.Valid() && AllValid(popped)
            && BackRest(stack) == (BackRest(popped) + Entries(TreeOf(node.left))) + [(node.key, node.value)]
  {
  }

  lemma HeadOf<A>(x: A, rest: seq<A>, all: seq<A>, i: nat)
    requires i <= |all| && [x] + rest == all[i..]
    ensures i < |all| && x == all[i] && rest == all[i + 1..]
  {
    assert ([x] + rest)[0] == x && ([x] + rest)[1..] == rest;
    assert all[i..][1..] == all[i + 1..];
  }

  lemma LastOf<A>(rest: seq<A>, x: A, all: seq<A>, i: nat)
    requires i <= |all| && rest + [x] == all[..i]
    ensures 0 < i && x == all[i - 1] && rest == all[..i - 1]
  {
    assert (rest + [x])[|rest|] == x && (rest + [x])[..|rest|] == rest;
    assert all[..i][..i - 1] == all[..i - 1];
  }

  /** A front stack whose rest starts at `i` has entry `i` on top. */
  lemma FrontTop<K, V>(stack: seq<MapNode<K, V>>, all: seq<Bound<K, V>>, i: nat)
    requires AllValid(stack) && i < |all| && FrontRest(stack) == all[i..]
    ensures stack != []
    ensures var node, popped := stack[|stack| - 1], stack[..|stack| - 1];
            && (node.key, node.value) == all[i] && Rooted(node.right) && AllValid(popped)
            && Entries(TreeOf(node.right)) + FrontRest(popped) == all[i + 1..]
  {
    assert |FrontRest(stack)| > 0;
    FrontPopped(stack);
    var node, popped := stack[|stack| - 1], stack[..|stack| - 1];
    HeadOf((node.key, node.value), Entries(TreeOf(node.right)) + FrontRest(popped), all, i);
  }

  /** A back stack whose rest ends before `i` has entry `i - 1` on top. */
  lemma BackTop<K, V>(stack: seq<MapNode<K, V>>, all: seq<Bound<K, V>>, i: nat)
    requires AllValid(stack) && 0 < i <= |all| && BackRest(stack) == all[..i]
    ensures stack != []
    ensures var node, popped := stack[|stack| - 1], stack[..|stack| - 1];
            && (node.key, node.value) == all[i - 1] && Rooted(node.left) && AllValid(popped)
            && BackRest(popped) + Entries(TreeOf(node.left)) == all[..i - 1]
  {
    assert |BackRest(stack)| > 0;
    BackPopped(stack);
    var node, popped := stack[|stack| - 1], stack[..|stack| - 1];
    LastOf(BackRest(popped) + Entries(TreeOf(node.left)), (node.key, node.value), all, i);
  }

  ghost function ItemOf<K, V>(entry: Bound<K, V>): (K, V) {
    (entry.0, entry.1.value)
  }

  ghost function OpenedAll<K, V>(s: seq<Bound<K, V>>): seq<(K, V)> {
    seq(|s|, i requires 0 <= i < |s| => ItemOf(s[i]))
  }

  /** Pushes a subtree's left spine, so its least entry comes next. */
  method PushFront<K, V>(stack: seq<MapNode<K, V>>, start: MapNode?<K, V>) returns (front: seq<MapNode<K, V>>)
    requires Rooted(start) && AllValid(stack)
    ensures AllValid(front) && FrontRest(front) == Entries(TreeOf(start)) + FrontRest(stack)
  {
    var node := start;
    front := stack;
    while node != null
      invariant Rooted(node) && AllValid(front)
      invariant Entries(TreeOf(node)) + FrontRest(front) == Entries(TreeOf(start)) + FrontRest(stack)
      decreases TreeOf(node)
    {
      FrontPushed(front, node);
      front := front + [node];
      node := node.left;
    }
  }

  /** Pushes a subtree's right spine, so its greatest entry comes next. */
  method PushBack<K, V>(stack: seq<MapNode<K, V>>, start: MapNode?<K, V>) returns (back: seq<MapNode<K, V>>)
    requires Rooted(start) && AllValid(stack)
    ensures AllValid(back) && BackRest(back) == BackRest(stack) + Entries(TreeOf(start))
  {
    var node := start;
    back := stack;
    while node != null
      invariant Rooted(node) && AllValid(back)
      invariant BackRest(back) + Entries(TreeOf(node)) == BackRest(stack) + Entries(TreeOf(start))
      decreases TreeOf(node)
    {
      BackPushed(back, node);
      back := back + [node];
      node := node.right;
    }
  }

  class PersistentMapIter<K(!new), V> {
    /** The map's entries. */
    ghost const entries: seq<Bound<K, V>>
    /** How many items the front has yielded. */
    ghost var taken: nat
    var front: seq<MapNode<K, V>>
    var back: seq<MapNode<K, V>>
    var remaining: nat

    ghost predicate Valid()
      reads this
    {
      && AllValid(front) && AllValid(back)
      && taken + remaining <= |entries|
      && FrontRest(front) == entries[taken..]
      && BackRest(back) == entries[..taken + remaining]
    }

    constructor (m: PersistentMap<K, V>)
      requires m.Valid()
      ensures Valid() && entries == Entries(TreeOf(m.root)) && taken == 0 && remaining == |entries|
    {
      var fronts := PushFront([], m.root);
      var backs := PushBack([], m.root);
      front, back, remaining := fronts, backs, m.len;
      entries, taken := Entries(TreeOf(m.root)), 0;
    }

    method Next() returns (item: Option<(K, V)>)
      requires Valid()
      modifies this
      ensures Valid()
      ensures old(remaining) == 0 ==> item == None && taken == old(taken) && remaining == 0
      ensures old(remaining) > 0 ==>
                item == Some(ItemOf(entries[old(taken)])) && taken == old(taken) + 1 && remaining == old(remaining) - 1
    {
      if remaining == 0 {
        return None;
      }
      FrontTop(front, entries, taken);
      var node, popped := front[|front| - 1], front[..|front| - 1];
      var pushed := PushFront(popped, node.right);
      front, taken, remaining := pushed, taken + 1, remaining - 1;
      return Some((node.key, node.value.value));
    }

    method NextBack() returns (item: Option<(K, V)>)
      requires Valid()
      modifies this
      ensures Valid() && taken == old(taken)
      ensures old(remaining) == 0 ==> item == None && remaining == 0
      ensures old(remaining) > 0 ==>
                item == Some(ItemOf(entries[taken + old(remaining) - 1])) && remaining == old(remaining) - 1
    {
      if remaining == 0 {
        return None;
      }
      BackTop(back, entries, taken + remaining);
      var node, popped := back[|back| - 1], back[..|back| - 1];
      var pushed := PushBack(popped, node.left);
      back, remaining := pushed, remaining - 1;
      return Some((node.key, node.value.value));
    }
  }

  /** Items taken singly from the front and from the back are a prefix and a reversed suffix. */
  lemma EndsOf<A>(all: seq<A>, fronts: seq<A>, backs: seq<A>)
    requires |fronts| + |backs| <= |all|
    requires forall j :: 0 <= j < |fronts| ==> fronts[j] == all[j]
    requires forall j :: 0 <= j < |backs| ==> backs[j] == all[|all| - 1 - j]
    ensures fronts == all[..|fronts|] && Reversed(backs) == all[|all| - |backs|..]
    ensures |fronts| + |backs| == |all| ==> fronts + Reversed(backs) == all
  {
    assert all == all[..|fronts|] + all[|fronts|..];
  }

  /** The choices that find an item: all, or as many as there are items. */
  function Effective(choices: seq<bool>, items: nat): seq<bool> {
    if |choices| <= items then choices else choices[..items]
  }

  /** How many choices are for the front. */
  function FrontChoices(choices: seq<bool>): (n: nat)
    ensures n <= |choices|
  {
    if choices == [] then 0 else (if choices[0] then 1 else 0) + FrontChoices(choices[1..])
  }

  lemma EffectiveStep(choices: seq<bool>, items: nat)
    requires choices != [] && items > 0
    ensures FrontChoices(Effective(choices, items)) == (if choices[0] then 1 else 0) + FrontChoices(Effective(choices[1..], items - 1))
    ensures |Effective(choices, items)| == 1 + |Effective(choices[1..], items - 1)|
  {
    assert Effective(choices, items)[1..] == Effective(choices[1..], items - 1);
  }

  lemma {:induction false} FrontChoicesCount(choices: seq<bool>)
    ensures FrontChoices(choices) == multiset(choices)[true]
  {
    if choices != [] {
      FrontChoicesCount(choices[1..]);
      assert choices == [choices[0]] + choices[1..];
    }
  }

  /** What taking from both ends as the choices say comes to. */
  ghost predicate Taken<K, V>(entries: seq<Bound<K, V>>, taken: nat, remaining: nat, choices: seq<bool>,
                              fronts: seq<(K, V)>, backs: seq<(K, V)>)
  {
    && taken + remaining <= |entries|
    && |fronts| == FrontChoices(Effective(choices, remaining))
    && |fronts| + |backs| == |Effective(choices, remaining)|
    && (forall j :: 0 <= j < |fronts| ==> fronts[j] == ItemOf(entries[taken + j]))
    && (forall j :: 0 <= j < |backs| ==> backs[j] == ItemOf(entries[taken + remaining - 1 - j]))
  }

  lemma TakenFront<K, V>(entries: seq<Bound<K, V>>, taken: nat, remaining: nat, choices: seq<bool>, fronts: seq<(K, V)>, backs: seq<(K, V)>)
    requires remaining > 0 && choices != [] && choices[0] && Taken(entries, taken + 1, remaining - 1, choices[1..], fronts, backs)
    ensures Taken(entries, taken, remaining, choices, [ItemOf(entries[taken])] + fronts, backs)
  {
    EffectiveStep(choices, remaining);
  }

  lemma TakenBack<K, V>(entries: seq<Bound<K, V>>, taken: nat, remaining: nat, choices: seq<bool>, fronts: seq<(K, V)>, backs: seq<(K, V)>)
    requires 0 < remaining && taken + remaining <= |entries|
    requires choices != [] && !choices[0] && Taken(entries, taken, remaining - 1, choices[1..], fronts, backs)
    ensures Taken(entries, taken, remaining, choices, fronts, [ItemOf(entries[taken + remaining - 1])] + backs)
  {
    EffectiveStep(choices, remaining);
  }

  /** Takes one item per choice, from the front or from the back. */
  method Take<K(!new), V>(iter: PersistentMapIter<K, V>, choices: seq<bool>) returns (fronts: seq<(K, V)>, backs: seq<(K, V)>)
    requires iter.Valid()
    modifies iter
    ensures Taken(iter.entries, old(iter.taken), old(iter.remaining), choices, fronts, backs)
    decreases |choices|
  {
    if choices == [] || iter.remaining == 0 {
      return [], [];
    }
    ghost var taken, remaining := iter.taken, iter.remaining;
    var item;
    if choices[0] {
      item := iter.Next();
      fronts, backs := Take(iter, choices[1..]);
      TakenFront(iter.entries, taken, remaining, choices, fronts, backs);
      fronts := [item.value] + fronts;
    } else {
      item := iter.NextBack();
      fronts, backs := Take(iter, choices[1..]);
      TakenBack(iter.entries, taken, remaining, choices, fronts, backs);
      backs := [item.value] + backs;
    }
  }

  /**
   * Any interleaving of the two ends: `choices[i]` says whether step i takes
   * from the front. The front items are a prefix of the sorted items, the
   * back items the reverse of a suffix, and together they cover every item
   * exactly once when there are steps enough.
   */
  method Interleave<K(!new), V>(m: PersistentMap<K, V>, choices: seq<bool>) returns (fronts: seq<(K, V)>, backs: seq<(K, V)>)
    requires m.Valid()
    ensures var all := OpenedAll(Entries(TreeOf(m.root)));
            && |fronts| == multiset(if |choices| <= |all| then choices else choices[..|all|])[true]
            && |fronts| + |backs| == (if |choices| <= |all| then |choices| else |all|)
            && fronts == all[..|fronts|]
            && Reversed(backs) == all[|all| - |backs|..]
            && (|choices| >= |all| ==> fronts + Reversed(backs) == all)
  {
    var iter := new PersistentMapIter(m);
    fronts, backs := Take(iter, choices);
    FrontChoicesCount(Effective(choices, |iter.entries|));
    EndsOf(OpenedAll(iter.entries), fronts, backs);
  }

  /** The owning walk over a shared root's keys, holding a cursor and a stack. */
  class OwnedSetValues<K(!new), V> {
    var next: MapNode?<K, V>
    var stack: seq<MapNode<K, V>>

    ghost predicate Valid()
      reads this
    {
      Rooted(next) && AllValid(stack)
    }

    /** The entries still to come. */
    ghost function Remaining(): seq<Bound<K, V>>
      reads this
    {
      Entries(TreeOf(next)) + FrontRest(stack)
    }

    constructor (m: PersistentMap<K, V>)
      requires m.Valid()
      ensures Valid() && Remaining() == Entries(TreeOf(m.root))
    {
      next, stack := m.root, [];
    }

    method Next() returns (key: Option<K>)
      requires Valid()
      modifies this
      ensures Valid()
      ensures old(Remaining()) == [] ==> key == None && Remaining() == []
      ensures old(Remaining()) != [] ==> key == Some(old(Remaining())[0].0) && Remaining() == old(Remaining())[1..]
    {
      while next != null
        invariant Valid() && Remaining() == old(Remaining())
        decreases TreeOf(next)
      {
        FrontPushed(stack, next);
        var node := next;
        next := node.left;
        stack := stack + [node];
      }
      if stack == [] {
        return None;
      }
      FrontPopped(stack);
      var node := stack[|stack| - 1];
      stack := stack[..|stack| - 1];
      next := node.right;
      HeadOf((node.key, node.value), Remaining(), old(Remaining()), 0);
      return Some(node.key);
    }
  }
}
