/**
 * The persistent map itself: immutable shared nodes with an identity, the
 * copy-on-write updates that build them, and the lookups that walk them.
 */
module PersistentMaps {
  import opened Ordering
  import opened SortedEntries
  import opened AvlTree
  import opened Sets

  /** A shared, immutable value: two references may be one object. */
  class Shared<V> {
    const value: V

    constructor (value: V)
      ensures this.value == value
    {
      this.value := value;
    }
  }

  /** Counts the nodes an operation makes. */
  class Allocations {
    var made: nat
  }

  /** A node never changes once made, so its identity determines the tree below it. */
  class MapNode<K, V> {
    const key: K
    const value: Shared<V>
    const left: MapNode?<K, V>
    const right: MapNode?<K, V>
    const height: nat
    ghost const tree: Tree<K, Shared<V>>

    ghost predicate Valid()
      decreases tree
    {
      && tree.Node?
      && tree.key == key && tree.value == value && tree.height == height
      && tree.left == TreeOf(left) && tree.right == TreeOf(right)
      && (left != null ==> left.Valid())
      && (right != null ==> right.Valid())
    }

    constructor (key: K, value: Shared<V>, left: MapNode?<K, V>, right: MapNode?<K, V>)
      requires Rooted(left) && Rooted(right)
      ensures Valid() && tree == Make(key, value, TreeOf(left), TreeOf(right))
      ensures this.key == key && this.value == value && this.left == left && this.right == right
    {
      this.key, this.value, this.left, this.right := key, value, left, right;
      this.height := 1 + Max(NodeHeight(left), NodeHeight(right));
      this.tree := Make(key, value, TreeOf(left), TreeOf(right));
    }
  }

  ghost function TreeOf<K, V>(node: MapNode?<K, V>): Tree<K, Shared<V>> {
    if node == null then Leaf else node.tree
  }

  ghost predicate Rooted<K, V>(node: MapNode?<K, V>) {
    node == null || node.Valid()
  }

  function NodeHeight<K, V>(node: MapNode?<K, V>): (height: nat)
    ensures Rooted(node) ==> height == Height(TreeOf(node))
  {
    if node == null then 0 else node.height
  }

  /** The values behind the references. */
  ghost function Plain<K, V>(m: map<K, Shared<V>>): map<K, V> {
    map k <- m :: m[k].value
  }

  ghost function OpenEntry<K, V>(entry: Option<(K, Shared<V>)>): Option<(K, V)> {
    if entry.Some? then Some((entry.value.0, entry.value.1.value)) else None
  }

  lemma PlainOfUpdate<K, V>(m: map<K, Shared<V>>, key: K, shared: Shared<V>)
    ensures Plain(m[key := shared]) == Plain(m)[key := shared.value]
    ensures m[key := shared] - {key} == m - {key}
  {
  }

  // ---------- the nodes of a map ----------

  ghost function NodeSet<K, V>(node: MapNode?<K, V>): set<MapNode<K, V>>
    requires Rooted(node)
    decreases TreeOf(node)
  {
    if node == null then {} else NodeSet(node.left) + {node} + NodeSet(node.right)
  }

  lemma ChildrenWithin<K, V>(node: MapNode<K, V>)
    requires node.Valid()
    ensures NodeSet(node.left) <= NodeSet(node) && NodeSet(node.right) <= NodeSet(node)
  {
  }

  // ---------- updates ----------

  method MakeNode<K, V>(key: K, value: Shared<V>, left: MapNode?<K, V>, right: MapNode?<K, V>, allocations: Allocations)
    returns (node: MapNode<K, V>)
    requires Rooted(left) && Rooted(right)
    modifies allocations
    ensures node.Valid() && node.tree == Make(key, value, TreeOf(left), TreeOf(right))
    ensures NodeSet(node) == NodeSet(left) + {node} + NodeSet(right)
    ensures allocations.made == old(allocations.made) + 1
  {
    allocations.made := allocations.made + 1;
    node := new MapNode(key, value, left, right);
  }

  method BalanceNode<K, V>(key: K, value: Shared<V>, left: MapNode?<K, V>, right: MapNode?<K, V>, allocations: Allocations)
    returns (node: MapNode<K, V>)
    requires Rooted(left) && Rooted(right)
    modifies allocations
    ensures node.Valid() && node.tree == Balance(key, value, TreeOf(left), TreeOf(right))
    ensures NewNodes(NodeSet(node), NodeSet(left) + NodeSet(right), BalanceMakes(TreeOf(left), TreeOf(right)))
    ensures allocations.made == old(allocations.made) + BalanceMakes(TreeOf(left), TreeOf(right))
  {
    var leftHeight, rightHeight := NodeHeight(left), NodeHeight(right);
    if leftHeight > rightHeight + 1 {
      node := RotateRight(key, value, left, right, allocations);
    } else if rightHeight > leftHeight + 1 {
      node := RotateLeft(key, value, left, right, allocations);
    } else {
      node := MakeNode(key, value, left, right, allocations);
      OneMade(NodeSet(left), node, NodeSet(right));
    }
  }

  /** The arms for a side that is too high. */
  method RotateRight<K, V>(key: K, value: Shared<V>, left: MapNode<K, V>, right: MapNode?<K, V>, allocations: Allocations)
    returns (node: MapNode<K, V>)
    requires left.Valid() && Rooted(right) && left.height > NodeHeight(right) + 1
    modifies allocations
    ensures node.Valid() && node.tree == Balance(key, value, left.tree, TreeOf(right))
    ensures NewNodes(NodeSet(node), NodeSet(left) + NodeSet(right), BalanceMakes(left.tree, TreeOf(right)))
    ensures allocations.made == old(allocations.made) + BalanceMakes(left.tree, TreeOf(right))
  {
    if NodeHeight(left.left) >= NodeHeight(left.right) {
      node := SingleRight(key, value, left, right, allocations);
    } else {
      node := DoubleRight(key, value, left, right, allocations);
    }
  }

  method RotateLeft<K, V>(key: K, value: Shared<V>, left: MapNode?<K, V>, right: MapNode<K, V>, allocations: Allocations)
    returns (node: MapNode<K, V>)
    requires Rooted(left) && right.Valid() && right.height > NodeHeight(left) + 1
    modifies allocations
    ensures node.Valid() && node.tree == Balance(key, value, TreeOf(left), right.tree)
    ensures NewNodes(NodeSet(node), NodeSet(left) + NodeSet(right), BalanceMakes(TreeOf(left), right.tree))
    ensures allocations.made == old(allocations.made) + BalanceMakes(TreeOf(left), right.tree)
  {
    if NodeHeight(right.right) >= NodeHeight(right.left) {
      node := SingleLeft(key, value, left, right, allocations);
    } else {
      node := DoubleLeft(key, value, left, right, allocations);
    }
  }

  /** The double rotations, about the inner grandchild. */
  method DoubleRight<K, V>(key: K, value: Shared<V>, left: MapNode<K, V>, right: MapNode?<K, V>, allocations: Allocations)
    returns (node: MapNode<K, V>)
    requires left.Valid() && Rooted(right) && left.right != null && left.right.Valid()
    modifies allocations
    ensures var middle := left.right.tree;
            node.Valid() && node.tree == Make(middle.key, middle.value, Make(left.key, left.value, TreeOf(left.left), middle.left),
                                              Make(key, value, middle.right, TreeOf(right)))
    ensures NewNodes(NodeSet(node), NodeSet(left) + NodeSet(right), 3)
    ensures allocations.made == old(allocations.made) + 3
  {
    var middle := left.right;
    ChildrenWithin(left);
    ChildrenWithin(middle);
    var newLeft := MakeNode(left.key, left.value, left.left, middle.left, allocations);
    var newRight := MakeNode(key, value, middle.right, right, allocations);
    node := MakeNode(middle.key, middle.value, newLeft, newRight, allocations);
    ThreeMade(NodeSet(node), NodeSet(newLeft), NodeSet(newRight), NodeSet(left.left), NodeSet(middle.left), NodeSet(middle.right),
              NodeSet(right), newLeft, node, newRight, NodeSet(left) + NodeSet(right));
  }

  method DoubleLeft<K, V>(key: K, value: Shared<V>, left: MapNode?<K, V>, right: MapNode<K, V>, allocations: Allocations)
    returns (node: MapNode<K, V>)
    requires Rooted(left) && right.Valid() && right.left != null && right.left.Valid()
    modifies allocations
    ensures var middle := right.left.tree;
            node.Valid() && node.tree == Make(middle.key, middle.value, Make(key, value, TreeOf(left), middle.left),
                                              Make(right.key, right.value, middle.right, TreeOf(right.right)))
    ensures NewNodes(NodeSet(node), NodeSet(left) + NodeSet(right), 3)
    ensures allocations.made == old(allocations.made) + 3
  {
    var middle := right.left;
    ChildrenWithin(right);
    ChildrenWithin(middle);
    var newLeft := MakeNode(key, value, left, middle.left, allocations);
    var newRight := MakeNode(right.key, right.value, middle.right, right.right, allocations);
    node := MakeNode(middle.key, middle.value, newLeft, newRight, allocations);
    ThreeMade(NodeSet(node), NodeSet(newLeft), NodeSet(newRight), NodeSet(left), NodeSet(middle.left), NodeSet(middle.right),
              NodeSet(right.right), newLeft, node, newRight, NodeSet(left) + NodeSet(right));
  }

  /** The single rotations. */
  method SingleRight<K, V>(key: K, value: Shared<V>, left: MapNode<K, V>, right: MapNode?<K, V>, allocations: Allocations)
    returns (node: MapNode<K, V>)
    requires left.Valid() && Rooted(right)
    modifies allocations
    ensures node.Valid()
    ensures node.tree == Make(left.key, left.value, TreeOf(left.left), Make(key, value, TreeOf(left.right), TreeOf(right)))
    ensures NewNodes(NodeSet(node), NodeSet(left) + NodeSet(right), 2)
    ensures allocations.made == old(allocations.made) + 2
  {
    var newRight := MakeNode(key, value, left.right, right, allocations);
    node := MakeNode(left.key, left.value, left.left, newRight, allocations);
    ChildrenWithin(left);
    TwoMade(NodeSet(node), NodeSet(newRight), NodeSet(left.left), NodeSet(left.right), NodeSet(right), node, newRight,
            NodeSet(left) + NodeSet(right));
  }

  method SingleLeft<K, V>(key: K, value: Shared<V>, left: MapNode?<K, V>, right: MapNode<K, V>, allocations: Allocations)
    returns (node: MapNode<K, V>)
    requires Rooted(left) && right.Valid()
    modifies allocations
    ensures node.Valid()
    ensures node.tree == Make(right.key, right.value, Make(key, value, TreeOf(left), TreeOf(right.left)), TreeOf(right.right))
    ensures NewNodes(NodeSet(node), NodeSet(left) + NodeSet(right), 2)
    ensures allocations.made == old(allocations.made) + 2
  {
    var newLeft := MakeNode(key, value, left, right.left, allocations);
    node := MakeNode(right.key, right.value, newLeft, right.right, allocations);
    ChildrenWithin(right);
    TwoMade(NodeSet(node), NodeSet(newLeft), NodeSet(left), NodeSet(right.left), NodeSet(right.right), newLeft, node,
            NodeSet(left) + NodeSet(right));
  }

  method InsertNode<K, V>(lt: (K, K) -> bool, node: MapNode?<K, V>, key: K, value: Shared<V>, allocations: Allocations)
    returns (result: MapNode<K, V>, inserted: bool)
    requires Rooted(node)
    modifies allocations
    ensures result.Valid() && (result.tree, inserted) == Insert(lt, TreeOf(node), key, value)
    ensures NewNodes(NodeSet(result), NodeSet(node), InsertMakes(lt, TreeOf(node), key, value))
    ensures allocations.made == old(allocations.made) + InsertMakes(lt, TreeOf(node), key, value)
    decreases TreeOf(node)
  {
    if node == null {
      result := MakeNode(key, value, null, null, allocations);
      OneMade({}, result, {});
      inserted := true;
    } else if lt(key, node.key) {
      var left;
      left, inserted := InsertNode(lt, node.left, key, value, allocations);
      result := BalanceNode(node.key, node.value, left, node.right, allocations);
      PathCopied(NodeSet(result), NodeSet(left), NodeSet(node.right), NodeSet(node.left), node, NodeSet(node.right),
                 BalanceMakes(left.tree, TreeOf(node.right)), InsertMakes(lt, TreeOf(node.left), key, value));
    } else if lt(node.key, key) {
      var right;
      right, inserted := InsertNode(lt, node.right, key, value, allocations);
      result := BalanceNode(node.key, node.value, node.left, right, allocations);
      PathCopied(NodeSet(result), NodeSet(node.left), NodeSet(right), NodeSet(node.left), node, NodeSet(node.right),
                 BalanceMakes(TreeOf(node.left), right.tree), InsertMakes(lt, TreeOf(node.right), key, value));
    } else {
      result := MakeNode(key, value, node.left, node.right, allocations);
      OneMade(NodeSet(node.left), result, NodeSet(node.right));
      PathCopied(NodeSet(result), NodeSet(node.left), NodeSet(node.right), NodeSet(node.left), node, NodeSet(node.right), 1, 0);
      inserted := false;
    }
  }

  method RemoveLeftmostNode<K, V>(node: MapNode<K, V>, allocations: Allocations)
    returns (result: MapNode?<K, V>, key: K, value: Shared<V>)
    requires node.Valid()
    modifies allocations
    ensures Rooted(result) && (TreeOf(result), key, value) == RemoveLeftmost(node.tree)
    ensures NewNodes(NodeSet(result), NodeSet(node), RemoveLeftmostMakes(node.tree))
    ensures allocations.made == old(allocations.made) + RemoveLeftmostMakes(node.tree)
    decreases node.tree
  {
    if node.left == null {
      assert NodeSet(node.right) - NodeSet(node) == {};
      return node.right, node.key, node.value;
    }
    var left;
    left, key, value := RemoveLeftmostNode(node.left, allocations);
    result := BalanceNode(node.key, node.value, left, node.right, allocations);
    PathCopied(NodeSet(result), NodeSet(left), NodeSet(node.right), NodeSet(node.left), node, NodeSet(node.right),
               BalanceMakes(TreeOf(left), TreeOf(node.right)), RemoveLeftmostMakes(node.left.tree));
  }

  /** A removal that finds nothing returns the very node it was given. */
  method RemoveNode<K, V>(lt: (K, K) -> bool, node: MapNode?<K, V>, key: K, allocations: Allocations)
    returns (result: MapNode?<K, V>, removed: bool)
    requires Rooted(node)
    modifies allocations
    ensures Rooted(result) && (TreeOf(result), removed) == Remove(lt, TreeOf(node), key)
    ensures !removed ==> result == node
    ensures NewNodes(NodeSet(result), NodeSet(node), RemoveMakes(lt, TreeOf(node), key))
    ensures allocations.made == old(allocations.made) + RemoveMakes(lt, TreeOf(node), key)
    decreases TreeOf(node)
  {
    if node == null {
      return null, false;
    }
    if lt(key, node.key) {
      var left;
      left, removed := RemoveNode(lt, node.left, key, allocations);
      if !removed {
        return node, false;
      }
      result := BalanceNode(node.key, node.value, left, node.right, allocations);
      PathCopied(NodeSet(result), NodeSet(left), NodeSet(node.right), NodeSet(node.left), node, NodeSet(node.right),
                 BalanceMakes(TreeOf(left), TreeOf(node.right)), RemoveMakes(lt, TreeOf(node.left), key));
    } else if lt(node.key, key) {
      var right;
      right, removed := RemoveNode(lt, node.right, key, allocations);
      if !removed {
        return node, false;
      }
      result := BalanceNode(node.key, node.value, node.left, right, allocations);
      PathCopied(NodeSet(result), NodeSet(node.left), NodeSet(right), NodeSet(node.left), node, NodeSet(node.right),
                 BalanceMakes(TreeOf(node.left), TreeOf(right)), RemoveMakes(lt, TreeOf(node.right), key));
    } else if node.left == null {
      assert NodeSet(node.right) - NodeSet(node) == {};
      return node.right, true;
    } else if node.right == null {
      assert NodeSet(node.left) - NodeSet(node) == {};
      return node.left, true;
    } else {
      var newRight, successorKey, successorValue := RemoveLeftmostNode(node.right, allocations);
      result := BalanceNode(successorKey, successorValue, node.left, newRight, allocations);
      PathCopied(NodeSet(result), NodeSet(node.left), NodeSet(newRight), NodeSet(node.left), node, NodeSet(node.right),
                 BalanceMakes(TreeOf(node.left), TreeOf(newRight)), RemoveLeftmostMakes(node.right.tree));
      removed := true;
    }
  }

  // ---------- the map ----------

  class PersistentMap<K(!new), V> {
    const lt: (K, K) -> bool
    var root: MapNode?<K, V>
    var len: nat

    /** A search tree with exact cached heights, sibling heights within one, and exact `len`. */
    ghost predicate Valid()
      reads this
    {
      && StrictTotal(lt)
      && Rooted(root)
      && Avl(lt, TreeOf(root))
      && len == Size(TreeOf(root))
    }

    ghost function Bindings(): map<K, Shared<V>>
      reads this
    {
      Contents(TreeOf(root))
    }

    constructor (lt: (K, K) -> bool)
      requires StrictTotal(lt)
      ensures Valid() && this.lt == lt && Bindings() == map[]
    {
      this.lt, root, len := lt, null, 0;
    }

    constructor At(lt: (K, K) -> bool, root: MapNode?<K, V>, len: nat)
      ensures this.lt == lt && this.root == root && this.len == len
    {
      this.lt, this.root, this.len := lt, root, len;
    }

    method WithInserted(key: K, value: V, allocations: Allocations) returns (m: PersistentMap<K, V>)
      requires Valid()
      modifies allocations
      ensures fresh(m) && m.Valid() && m.lt == lt
      ensures Plain(m.Bindings()) == Plain(Bindings())[key := value]
      ensures m.Bindings() - {key} == Bindings() - {key}
      ensures m.len == |m.Bindings()| && len <= m.len <= len + 1
      ensures NewNodes(NodeSet(m.root), NodeSet(root), Height(TreeOf(root)) + 3)
      ensures allocations.made <= old(allocations.made) + Height(TreeOf(root)) + 3
      ensures Pow2(Height(TreeOf(root)) / 2) <= len + 1
    {
      var shared := new Shared(value);
      var node, inserted := InsertNode(lt, root, key, shared, allocations);
      m := new PersistentMap.At(lt, node, len + if inserted then 1 else 0);
      InsertKeepsAvl(lt, TreeOf(root), key, shared);
      HeightIsLogarithmic(TreeOf(root));
      PlainOfUpdate(Bindings(), key, shared);
    }

    method WithoutKey(key: K, allocations: Allocations) returns (m: PersistentMap<K, V>)
      requires Valid()
      modifies allocations
      ensures fresh(m) && m.Valid() && m.lt == lt
      ensures m.Bindings() == Bindings() - {key}
      ensures key !in Bindings() ==> m.root == root && allocations.made == old(allocations.made)
      ensures m.len == |m.Bindings()| && len - 1 <= m.len <= len
      ensures NewNodes(NodeSet(m.root), NodeSet(root), 3 * Height(TreeOf(root)))
      ensures allocations.made <= old(allocations.made) + 3 * Height(TreeOf(root))
      ensures Pow2(Height(TreeOf(root)) / 2) <= len + 1
    {
      RemoveKeepsAvl(lt, TreeOf(root), key);
      HeightIsLogarithmic(TreeOf(root));
      var node, removed := RemoveNode(lt, root, key, allocations);
      m := new PersistentMap.At(lt, node, len - if removed then 1 else 0);
    }

    /** Updates this map; every node an older clone holds is untouched, being immutable. */
    method Insert(key: K, value: V, allocations: Allocations)
      requires Valid()
      modifies this, allocations
      ensures Valid()
      ensures Plain(Bindings()) == old(Plain(Bindings()))[key := value]
      ensures Bindings() - {key} == old(Bindings()) - {key}
    {
      var m := WithInserted(key, value, allocations);
      root, len := m.root, m.len;
    }

    method Remove(key: K, allocations: Allocations)
      requires Valid()
      modifies this, allocations
      ensures Valid() && Bindings() == old(Bindings()) - {key}
      ensures key !in old(Bindings()) ==> root == old(root)
    {
      var m := WithoutKey(key, allocations);
      root, len := m.root, m.len;
    }

    method Get(key: K) returns (value: Option<V>)
      requires Valid()
      ensures value == if key in Bindings() then Some(Plain(Bindings())[key]) else None
    {
      var node := root;
      while node != null
        invariant Rooted(node) && Search(lt, TreeOf(node))
        invariant key in Bindings() <==> key in Contents(TreeOf(node))
        invariant key in Bindings() ==> Bindings()[key] == Contents(TreeOf(node))[key]
        decreases TreeOf(node)
      {
        SearchParts(lt, node.tree);
        ContentsParts(lt, node.tree, key);
        if lt(key, node.key) {
          node := node.left;
        } else if lt(node.key, key) {
          node := node.right;
        } else {
          return Some(node.value.value);
        }
      }
      value := None;
    }

    /** The greatest entry whose key is strictly less than `key`. */
    method GetLessThan(key: K) returns (entry: Option<(K, V)>)
      requires Valid()
      ensures entry.None? ==> forall k <- Bindings() :: !lt(k, key)
      ensures entry.Some? ==>
                && Predecessor(lt, Bindings(), key, entry.value.0)
                && Plain(Bindings())[entry.value.0] == entry.value.1
    {
      var node := root;
      entry := None;
      ghost var candidate: Option<(K, Shared<V>)> := None;
      while node != null
        invariant Rooted(node) && Search(lt, TreeOf(node))
        invariant OpenEntry(candidate) == entry
        invariant LastBelow(lt, Entries(TreeOf(root)), key) == OrElse(LastBelow(lt, Entries(TreeOf(node)), key), candidate)
        decreases TreeOf(node)
      {
        SearchParts(lt, node.tree);
        LastBelowStep(lt, node.tree, key);
        if lt(node.key, key) {
          entry := Some((node.key, node.value.value));
          candidate := Some((node.key, node.value));
          node := node.right;
        } else {
          node := node.left;
        }
      }
      LastBelowIsPredecessor(lt, Entries(TreeOf(root)), key);
    }

    /** The least entry whose key is strictly greater than `key`. */
    method GetGreaterThan(key: K) returns (entry: Option<(K, V)>)
      requires Valid()
      ensures entry.None? ==> forall k <- Bindings() :: !lt(key, k)
      ensures entry.Some? ==>
                && Successor(lt, Bindings(), key, entry.value.0)
                && Plain(Bindings())[entry.value.0] == entry.value.1
    {
      var node := root;
      entry := None;
      ghost var candidate: Option<(K, Shared<V>)> := None;
      while node != null
        invariant Rooted(node) && Search(lt, TreeOf(node))
        invariant OpenEntry(candidate) == entry
        invariant FirstAbove(lt, key, Entries(TreeOf(root))) == OrElse(FirstAbove(lt, key, Entries(TreeOf(node))), candidate)
        decreases TreeOf(node)
      {
        SearchParts(lt, node.tree);
        FirstAboveStep(lt, key, node.tree);
        if lt(key, node.key) {
          entry := Some((node.key, node.value.value));
          candidate := Some((node.key, node.value));
          node := node.left;
        } else {
          node := node.right;
        }
      }
      FirstAboveIsSuccessor(lt, key, Entries(TreeOf(root)));
    }

    method SharesRootWith(other: PersistentMap<K, V>) returns (shares: bool)
      requires Valid() && other.Valid()
      ensures shares <==> root == other.root
    {
      shares := root == other.root;
    }
  }
}
