/** The stacks of a diff walk: what they have yet to visit, and what opening a subtree does to them. */
module DiffStacks {
  import opened Sequences
  import opened AvlTree
  import opened PersistentMaps

  type Bound<K, V> = (K, Shared<V>)

  /** The unvisited part of a map: a whole subtree or one entry. */
  datatype DiffItem<K, V> = Subtree(node: MapNode<K, V>) | Entry(node: MapNode<K, V>)

  ghost function ItemEntries<K, V>(item: DiffItem<K, V>): seq<Bound<K, V>> {
    match item
    case Subtree(node) => Entries(node.tree)
    case Entry(node) => [(node.key, node.value)]
  }

  /** What a stack, its top last, has yet to visit. */
  ghost function Rest<K, V>(stack: seq<DiffItem<K, V>>): seq<Bound<K, V>> {
    if stack == [] then [] else ItemEntries(stack[|stack| - 1]) + Rest(stack[..|stack| - 1])
  }

  ghost function Weight<K, V>(stack: seq<DiffItem<K, V>>): nat {
    if stack == [] then 0 else ItemWeight(stack[|stack| - 1]) + Weight(stack[..|stack| - 1])
  }

  ghost predicate Wellformed<K, V>(stack: seq<DiffItem<K, V>>) {
    stack != [] ==> stack[|stack| - 1].node.Valid() && Wellformed(stack[..|stack| - 1])
  }

  lemma PushEntry<K, V>(stack: seq<DiffItem<K, V>>, node: MapNode<K, V>)
    requires Wellformed(stack) && node.Valid()
    ensures Wellformed(stack + [Entry(node)])
    ensures Rest(stack + [Entry(node)]) == [(node.key, node.value)] + Rest(stack)
  {
    assert (stack + [Entry(node)])[..|stack|] == stack;
  }

  lemma PushSubtree<K, V>(stack: seq<DiffItem<K, V>>, node: MapNode<K, V>)
    requires Wellformed(stack) && node.Valid()
    ensures Wellformed(stack + [Subtree(node)])
    ensures Rest(stack + [Subtree(node)]) == Entries(node.tree) + Rest(stack)
  {
    assert (stack + [Subtree(node)])[..|stack|] == stack;
  }

  ghost function ItemWeight<K, V>(item: DiffItem<K, V>): nat {
    match item
    case Subtree(node) => 2 * |Entries(node.tree)|
    case Entry(_) => 1
  }

  lemma PushWeight<K, V>(stack: seq<DiffItem<K, V>>, item: DiffItem<K, V>)
    ensures Weight(stack + [item]) == ItemWeight(item) + Weight(stack)
  {
    assert (stack + [item])[..|stack|] == stack;
  }

  /** The stack once the subtree that was on top is opened: right child, entry, left child on top. */
  function Opened<K, V>(popped: seq<DiffItem<K, V>>, node: MapNode<K, V>): seq<DiffItem<K, V>> {
    var righted := if node.right != null then popped + [Subtree(node.right)] else popped;
    var entered := righted + [Entry(node)];
    if node.left != null then entered + [Subtree(node.left)] else entered
  }

  function Expanded<K, V>(stack: seq<DiffItem<K, V>>): seq<DiffItem<K, V>>
    requires stack != []
  {
    Opened(stack[..|stack| - 1], stack[|stack| - 1].node)
  }

  lemma OpenedRest<K, V>(popped: seq<DiffItem<K, V>>, node: MapNode<K, V>)
    requires Wellformed(popped) && node.Valid()
    ensures Wellformed(Opened(popped, node))
    ensures Rest(Opened(popped, node)) ==
            Entries(TreeOf(node.left)) + ([(node.key, node.value)] + (Entries(TreeOf(node.right)) + Rest(popped)))
  {
    var righted := if node.right != null then popped + [Subtree(node.right)] else popped;
    assert Wellformed(righted) && Rest(righted) == Entries(TreeOf(node.right)) + Rest(popped) by {
      if node.right != null { PushSubtree(popped, node.right); }
    }
    PushEntry(righted, node);
    if node.left != null { PushSubtree(righted + [Entry(node)], node.left); }
  }

  lemma OpenedWeight<K, V>(popped: seq<DiffItem<K, V>>, node: MapNode<K, V>)
    requires Wellformed(popped) && node.Valid()
    ensures Weight(Opened(popped, node)) ==
            2 * |Entries(TreeOf(node.left))| + 1 + 2 * |Entries(TreeOf(node.right))| + Weight(popped)
  {
    var righted := if node.right != null then popped + [Subtree(node.right)] else popped;
    assert Weight(righted) == 2 * |Entries(TreeOf(node.right))| + Weight(popped) by {
      if node.right != null { PushWeight(popped, Subtree(node.right)); }
    }
    PushWeight(righted, Entry(node));
    if node.left != null { PushWeight(righted + [Entry(node)], Subtree(node.left)); }
  }

  /** Opening the subtree on top changes what is visited next, not what is left to visit. */
  lemma ExpandKeeps<K, V>(stack: seq<DiffItem<K, V>>)
    requires stack != [] && stack[|stack| - 1].Subtree? && Wellformed(stack)
    ensures Wellformed(Expanded(stack)) && Rest(Expanded(stack)) == Rest(stack)
    ensures Weight(Expanded(stack)) < Weight(stack)
  {
    var node, popped := stack[|stack| - 1].node, stack[..|stack| - 1];
    OpenedRest(popped, node);
    OpenedWeight(popped, node);
    Four(Entries(TreeOf(node.left)), [(node.key, node.value)], Entries(TreeOf(node.right)), Rest(popped));
    assert Entries(node.tree) == Entries(TreeOf(node.left)) + [(node.key, node.value)] + Entries(TreeOf(node.right));
  }

  /** An entry on top is the next entry to visit. */
  lemma TopEntry<K, V>(stack: seq<DiffItem<K, V>>)
    requires stack != [] && stack[|stack| - 1].Entry? && Wellformed(stack)
    ensures var node, popped := stack[|stack| - 1].node, stack[..|stack| - 1];
            && Rest(stack) != [] && Rest(stack)[0] == (node.key, node.value) && Rest(stack)[1..] == Rest(popped)
            && Weight(popped) < Weight(stack) && Wellformed(popped)
  {
  }
}
