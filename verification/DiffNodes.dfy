/** The nodes a diff walk has yet to visit, as objects: in order, and those it has not opened. */
module DiffNodes {
  import opened Ordering
  import opened Sequences
  import opened AvlTree
  import opened PersistentMaps
  import opened DiffStacks

  /** The nodes of a tree in order. */
  ghost function Nodes<K, V>(node: MapNode?<K, V>): seq<MapNode<K, V>>
    requires Rooted(node)
    decreases TreeOf(node)
  {
    if node == null then [] else Nodes(node.left) + [node] + Nodes(node.right)
  }

  lemma {:induction false} NodesAreNodeSet<K, V>(node: MapNode?<K, V>)
    requires Rooted(node)
    ensures Members(Nodes(node)) == NodeSet(node)
    decreases TreeOf(node)
  {
    if node != null {
      NodesAreNodeSet(node.left);
      NodesAreNodeSet(node.right);
      MembersAround(Nodes(node.left), node, Nodes(node.right));
    }
  }

  /** The keys of some nodes. */
  ghost function Keys<K, V>(nodes: seq<MapNode<K, V>>): set<K> {
    set n | n in nodes :: n.key
  }

  lemma KeysConcat<K, V>(a: seq<MapNode<K, V>>, b: seq<MapNode<K, V>>)
    ensures Keys(a + b) == Keys(a) + Keys(b)
  {
    assert forall n :: n in a + b <==> n in a || n in b;
  }

  lemma MembersConcat<A>(a: seq<A>, b: seq<A>)
    ensures Members(a + b) == Members(a) + Members(b)
  {
  }

  lemma {:induction false} NodesAreEntries<K, V>(node: MapNode?<K, V>, i: nat)
    requires Rooted(node)
    ensures |Nodes(node)| == |Entries(TreeOf(node))|
    ensures i < |Nodes(node)| ==> Nodes(node)[i].key == Entries(TreeOf(node))[i].0
    decreases TreeOf(node)
  {
    if node != null {
      var before := |Entries(TreeOf(node.left))|;
      NodesAreEntries(node.left, if i < before then i else 0);
      NodesAreEntries(node.right, if i > before then i - before - 1 else 0);
    }
  }

  ghost predicate Sorted<K, V>(lt: (K, K) -> bool, nodes: seq<MapNode<K, V>>) {
    forall i, j :: 0 <= i < j < |nodes| ==> lt(nodes[i].key, nodes[j].key)
  }

  lemma SearchedNodesAreSorted<K, V>(lt: (K, K) -> bool, node: MapNode?<K, V>)
    requires Rooted(node) && Search(lt, TreeOf(node))
    ensures Sorted(lt, Nodes(node))
  {
    forall i | 0 <= i < |Nodes(node)|
      ensures |Nodes(node)| == |Entries(TreeOf(node))| && Nodes(node)[i].key == Entries(TreeOf(node))[i].0
    {
      NodesAreEntries(node, i);
    }
  }

  /** In a sorted list of nodes a key stands once. */
  lemma SortedOnce<K(!new), V>(lt: (K, K) -> bool, nodes: seq<MapNode<K, V>>, i: nat, j: nat)
    requires StrictTotal(lt) && Sorted(lt, nodes) && i < |nodes| && j < |nodes| && nodes[i].key == nodes[j].key
    ensures i == j
  {
  }

  // ---------- what a tree's nodes have in common ----------

  /** A node below a balanced one is lower. */
  lemma {:induction false} BelowIsLower<K, V>(node: MapNode<K, V>, below: MapNode<K, V>)
    requires node.Valid() && Balanced(node.tree) && below in Nodes(node)
    ensures below.Valid() && Balanced(below.tree) && (below == node || below.height < node.height)
    decreases node.tree
  {
    if below != node {
      if below in Nodes(node.left) {
        BelowIsLower(node.left, below);
      } else {
        BelowIsLower(node.right, below);
      }
    }
  }

  /** The nodes below a node of the tree are nodes of the tree. */
  lemma {:induction false} BelowIsWithin<K, V>(node: MapNode<K, V>, below: MapNode<K, V>, deeper: MapNode<K, V>)
    requires node.Valid() && below in Nodes(node) && below.Valid() && deeper in Nodes(below)
    ensures deeper in Nodes(node)
    decreases node.tree
  {
    if below != node {
      if below in Nodes(node.left) {
        BelowIsWithin(node.left, below, deeper);
      } else {
        BelowIsWithin(node.right, below, deeper);
      }
    }
  }

  /** A set of nodes that holds whatever lies below any of them. */
  ghost predicate ClosedBelow<K, V>(nodes: set<MapNode<K, V>>) {
    forall n <- nodes :: n.Valid() && forall below <- Nodes(n) :: below in nodes
  }

  // ---------- stacks ----------

  ghost function ItemNodes<K, V>(item: DiffItem<K, V>): seq<MapNode<K, V>>
    requires item.node.Valid()
  {
    match item
    case Subtree(node) => Nodes(node)
    case Entry(node) => [node]
  }

  /** The nodes whose entries a stack has yet to visit, in order. */
  ghost function Ahead<K, V>(stack: seq<DiffItem<K, V>>): seq<MapNode<K, V>>
    requires Wellformed(stack)
  {
    if stack == [] then [] else ItemNodes(stack[|stack| - 1]) + Ahead(stack[..|stack| - 1])
  }

  ghost function ItemUnopened<K, V>(item: DiffItem<K, V>): set<MapNode<K, V>>
    requires item.node.Valid()
  {
    match item
    case Subtree(node) => Members(Nodes(node))
    case Entry(_) => {}
  }

  /** The nodes a stack may yet open. */
  ghost function Unopened<K, V>(stack: seq<DiffItem<K, V>>): set<MapNode<K, V>>
    requires Wellformed(stack)
  {
    if stack == [] then {} else ItemUnopened(stack[|stack| - 1]) + Unopened(stack[..|stack| - 1])
  }

  lemma {:induction false} UnopenedIsAhead<K, V>(stack: seq<DiffItem<K, V>>, n: MapNode<K, V>)
    requires Wellformed(stack) && n in Unopened(stack)
    ensures n in Ahead(stack)
  {
    if n !in ItemUnopened(stack[|stack| - 1]) {
      UnopenedIsAhead(stack[..|stack| - 1], n);
    }
  }

  /** Every subtree on the stack is balanced, and none is higher than `high`. */
  ghost predicate Leveled<K, V>(stack: seq<DiffItem<K, V>>, high: nat) {
    stack == [] ||
    (Leveled(stack[..|stack| - 1], high) &&
     (stack[|stack| - 1].Subtree? ==> Balanced(stack[|stack| - 1].node.tree) && stack[|stack| - 1].node.height <= high))
  }

  ghost function TopHeight<K, V>(stack: seq<DiffItem<K, V>>): nat {
    if stack == [] || stack[|stack| - 1].Entry? then 0 else stack[|stack| - 1].node.height
  }

  lemma LeveledTop<K, V>(stack: seq<DiffItem<K, V>>, high: nat)
    requires Leveled(stack, high)
    ensures TopHeight(stack) <= high
  {
  }

  lemma Pushed<K, V>(stack: seq<DiffItem<K, V>>, item: DiffItem<K, V>, high: nat)
    requires Wellformed(stack) && item.node.Valid() && Leveled(stack, high)
    requires item.Subtree? ==> Balanced(item.node.tree) && item.node.height <= high
    ensures Wellformed(stack + [item]) && Leveled(stack + [item], high)
    ensures Ahead(stack + [item]) == ItemNodes(item) + Ahead(stack)
    ensures Unopened(stack + [item]) == ItemUnopened(item) + Unopened(stack)
  {
    assert (stack + [item])[..|stack|] == stack;
  }

  /** A child put on the stack, if there is one. */
  function WithChild<K, V>(stack: seq<DiffItem<K, V>>, child: MapNode?<K, V>): seq<DiffItem<K, V>> {
    if child == null then stack else stack + [Subtree(child)]
  }

  lemma ChildPushed<K, V>(stack: seq<DiffItem<K, V>>, child: MapNode?<K, V>, high: nat)
    requires Wellformed(stack) && Rooted(child) && Leveled(stack, high)
    requires Balanced(TreeOf(child)) && NodeHeight(child) <= high
    ensures Wellformed(WithChild(stack, child)) && Leveled(WithChild(stack, child), high)
    ensures Ahead(WithChild(stack, child)) == Nodes(child) + Ahead(stack)
    ensures Unopened(WithChild(stack, child)) == Members(Nodes(child)) + Unopened(stack)
  {
    if child != null {
      Pushed(stack, Subtree(child), high);
    }
  }

  /** Opening the subtree on top visits its nodes in the same order, and leaves its children to open. */
  lemma OpenedNodes<K, V>(popped: seq<DiffItem<K, V>>, node: MapNode<K, V>, high: nat)
    requires Wellformed(popped) && Leveled(popped, high) && node.Valid() && Balanced(node.tree) && node.height <= high
    ensures Wellformed(Opened(popped, node)) && Leveled(Opened(popped, node), high)
    ensures Ahead(Opened(popped, node)) == Nodes(node) + Ahead(popped)
    ensures Unopened(Opened(popped, node)) == Members(Nodes(node.left)) + Members(Nodes(node.right)) + Unopened(popped)
  {
    var righted := WithChild(popped, node.right);
    ChildPushed(popped, node.right, high);
    Pushed(righted, Entry(node), high);
    ChildPushed(righted + [Entry(node)], node.left, high);
    OpenedIsPushed(popped, node);
    Four(Nodes(node.left), [node], Nodes(node.right), Ahead(popped));
    Gathered(Members(Nodes(node.left)), Members(Nodes(node.right)), Unopened(popped));
  }

  lemma Gathered<A>(a: set<A>, b: set<A>, c: set<A>)
    ensures a + ({} + (b + c)) == a + b + c
  {
  }

  lemma TakenOut<A>(a: set<A>, n: A, b: set<A>, c: set<A>)
    requires n !in a && n !in b && n !in c
    ensures (a + {n} + b) + c - {n} == a + b + c
  {
  }

  lemma OpenedIsPushed<K, V>(popped: seq<DiffItem<K, V>>, node: MapNode<K, V>)
    ensures Opened(popped, node) == WithChild(WithChild(popped, node.right) + [Entry(node)], node.left)
  {
  }

  lemma OpenedIsLower<K, V>(popped: seq<DiffItem<K, V>>, node: MapNode<K, V>)
    requires node.Valid() && Balanced(node.tree)
    ensures TopHeight(Opened(popped, node)) < node.height
  {
  }

  /** What stands once in a sequence stands in no other part of it. */
  lemma StandsOnce<K(!new), V>(lt: (K, K) -> bool, a: seq<MapNode<K, V>>, n: MapNode<K, V>, b: seq<MapNode<K, V>>)
    requires StrictTotal(lt) && Sorted(lt, a + [n] + b)
    ensures n !in a && n !in b
  {
    var all := a + [n] + b;
    assert all[|a|] == n;
    forall i | 0 <= i < |a| ensures a[i] != n {
      assert all[i] == a[i];
    }
    forall i | 0 <= i < |b| ensures b[i] != n {
      assert all[|a| + 1 + i] == b[i];
    }
  }

  /** The root of the subtree on top stands nowhere else on the stack. */
  lemma RootStandsOnce<K(!new), V>(lt: (K, K) -> bool, popped: seq<DiffItem<K, V>>, n: MapNode<K, V>)
    requires StrictTotal(lt) && Wellformed(popped) && n.Valid() && Sorted(lt, Nodes(n) + Ahead(popped))
    ensures n !in Nodes(n.left) && n !in Nodes(n.right) && n !in Unopened(popped)
  {
    var l, r, rest := Nodes(n.left), Nodes(n.right), Ahead(popped);
    Three(l + [n], r, rest);
    StandsOnce(lt, l, n, r + rest);
    assert n !in Unopened(popped) by {
      if n in Unopened(popped) { UnopenedIsAhead(popped, n); }
    }
  }

  lemma MembersAround<A>(a: seq<A>, n: A, b: seq<A>)
    ensures Members(a + [n] + b) == Members(a) + {n} + Members(b)
  {
    MembersConcat(a + [n], b);
    MembersConcat(a, [n]);
    assert Members([n]) == {n};
  }

  /** What is left to open of a subtree without its root. */
  lemma RootTaken<K(!new), V>(lt: (K, K) -> bool, popped: seq<DiffItem<K, V>>, n: MapNode<K, V>)
    requires StrictTotal(lt) && Wellformed(popped) && n.Valid() && Sorted(lt, Nodes(n) + Ahead(popped))
    ensures Members(Nodes(n.left)) + Members(Nodes(n.right)) + Unopened(popped) == Members(Nodes(n)) + Unopened(popped) - {n}
    ensures n in Members(Nodes(n))
  {
    RootStandsOnce(lt, popped, n);
    MembersAround(Nodes(n.left), n, Nodes(n.right));
    TakenOut(Members(Nodes(n.left)), n, Members(Nodes(n.right)), Unopened(popped));
  }

  /** Opening a subtree opens exactly its root, and lowers the top of the stack. */
  lemma ExpandOpensOne<K(!new), V>(lt: (K, K) -> bool, stack: seq<DiffItem<K, V>>, high: nat)
    requires StrictTotal(lt) && Wellformed(stack) && Leveled(stack, high) && Sorted(lt, Ahead(stack))
    requires stack != [] && stack[|stack| - 1].Subtree?
    ensures Wellformed(Expanded(stack)) && Leveled(Expanded(stack), high)
    ensures Ahead(Expanded(stack)) == Ahead(stack)
    ensures stack[|stack| - 1].node in Unopened(stack)
    ensures Unopened(Expanded(stack)) == Unopened(stack) - {stack[|stack| - 1].node}
    ensures TopHeight(Expanded(stack)) < TopHeight(stack)
  {
    var n, popped := stack[|stack| - 1].node, stack[..|stack| - 1];
    OpenedNodes(popped, n, high);
    OpenedIsLower(popped, n);
    RootTaken(lt, popped, n);
  }

  /** The first node ahead of a stack with a subtree on top is the leftmost of that subtree. */
  lemma FirstIsLeftmost<K, V>(stack: seq<DiffItem<K, V>>)
    requires Wellformed(stack) && stack != []
    ensures Ahead(stack) != [] && Ahead(stack)[0] == ItemNodes(stack[|stack| - 1])[0]
    ensures Ahead(stack)[0] in ItemNodes(stack[|stack| - 1])
  {
  }

  lemma FirstIsNotLater<K(!new), V>(lt: (K, K) -> bool, a: seq<MapNode<K, V>>, b: seq<MapNode<K, V>>)
    requires StrictTotal(lt) && Sorted(lt, a + b) && a != []
    ensures a[0] !in b
  {
    assert (a + b)[0] == a[0];
    forall j | 0 <= j < |b| ensures b[j] != a[0] {
      assert (a + b)[|a| + j] == b[j];
    }
  }

  /** A node still to be opened whose leftmost node comes first lies in the subtree on top. */
  lemma FirstLiesOnTop<K(!new), V>(lt: (K, K) -> bool, stack: seq<DiffItem<K, V>>, n: MapNode<K, V>, first: MapNode<K, V>)
    requires StrictTotal(lt) && Wellformed(stack) && Sorted(lt, Ahead(stack)) && stack != []
    requires n in Unopened(stack) && n.Valid() && first in Nodes(n) && Ahead(stack) != [] && Ahead(stack)[0] == first
    ensures stack[|stack| - 1].Subtree? && n in Nodes(stack[|stack| - 1].node)
  {
    var top, popped := stack[|stack| - 1], stack[..|stack| - 1];
    FirstIsLeftmost(stack);
    FirstIsNotLater(lt, ItemNodes(top), Ahead(popped));
    assert n !in Unopened(popped) by {
      if n in Unopened(popped) {
        UnopenedHoldsBelow(popped, n, first);
        UnopenedIsAhead(popped, first);
      }
    }
  }

  lemma {:induction false} UnopenedHoldsBelow<K, V>(stack: seq<DiffItem<K, V>>, n: MapNode<K, V>, below: MapNode<K, V>)
    requires Wellformed(stack) && n in Unopened(stack) && n.Valid() && below in Nodes(n)
    ensures below in Unopened(stack)
  {
    var top := stack[|stack| - 1];
    if n in ItemUnopened(top) {
      BelowIsWithin(top.node, n, below);
    } else {
      UnopenedHoldsBelow(stack[..|stack| - 1], n, below);
    }
  }
}
