/**
 * The rotation algebra of the persistent AVL map, on values: balancing,
 * insertion and removal over trees that cache their height, the plain map and
 * the sorted entries such a tree stands for, and what every update keeps.
 */
module AvlTree {
  import opened Ordering
  import opened Sequences
  import opened SortedEntries

  datatype Tree<K, V> =
    | Leaf
    | Node(key: K, value: V, left: Tree<K, V>, right: Tree<K, V>, height: nat)

  // ---------- what a tree stands for ----------

  /** The entries in tree order. */
  ghost function Entries<K, V>(t: Tree<K, V>): seq<(K, V)> {
    match t
    case Leaf => []
    case Node(k, v, l, r, _) => Entries(l) + [(k, v)] + Entries(r)
  }

  /** The plain map a tree agrees with. */
  ghost function Contents<K, V>(t: Tree<K, V>): map<K, V> {
    MapOf(Entries(t))
  }

  ghost function Size<K, V>(t: Tree<K, V>): nat {
    |Entries(t)|
  }

  ghost predicate Search<K, V>(lt: (K, K) -> bool, t: Tree<K, V>) {
    Ascending(lt, Entries(t))
  }

  lemma SearchParts<K, V>(lt: (K, K) -> bool, t: Tree<K, V>)
    requires Search(lt, t) && t.Node?
    ensures Search(lt, t.left) && Search(lt, t.right)
    ensures Before(lt, Entries(t.left), t.key) && After(lt, t.key, Entries(t.right))
  {
    AscendingParts(lt, Entries(t.left), (t.key, t.value), Entries(t.right));
  }

  /** Where one key of a search tree lives, and what it is bound to. */
  lemma ContentsParts<K(!new), V>(lt: (K, K) -> bool, t: Tree<K, V>, key: K)
    requires StrictTotal(lt) && Search(lt, t) && t.Node?
    ensures key in Contents(t) <==> key == t.key || key in Contents(t.left) || key in Contents(t.right)
    ensures t.key in Contents(t) && Contents(t)[t.key] == t.value
    ensures key in Contents(t.left) ==> lt(key, t.key) && Contents(t)[key] == Contents(t.left)[key]
    ensures key in Contents(t.right) ==> lt(t.key, key) && Contents(t)[key] == Contents(t.right)[key]
  {
    SearchParts(lt, t);
    var l, e, r := Entries(t.left), [(t.key, t.value)], Entries(t.right);
    MapOfConcat(l + e, r);
    MapOfConcat(l, e);
    assert MapOf(e) == map[t.key := t.value];
    if key in MapOf(l) { BeforeKey(lt, l, t.key, key); }
    if key in MapOf(r) { AfterKey(lt, t.key, r, key); }
    if t.key in MapOf(l) { BeforeKey(lt, l, t.key, t.key); }
  }

  /** One step of the search for a strict predecessor. */
  lemma LastBelowStep<K(!new), V>(lt: (K, K) -> bool, t: Tree<K, V>, key: K)
    requires StrictTotal(lt) && Search(lt, t) && t.Node?
    ensures LastBelow(lt, Entries(t), key) ==
            if lt(t.key, key) then OrElse(LastBelow(lt, Entries(t.right), key), Some((t.key, t.value)))
            else LastBelow(lt, Entries(t.left), key)
  {
    SearchParts(lt, t);
    var l, e, r := Entries(t.left), [(t.key, t.value)], Entries(t.right);
    LastBelowConcat(lt, l + e, r, key);
    LastBelowConcat(lt, l, e, key);
    if !lt(t.key, key) { NoneBelow(lt, r, key); }
  }

  lemma FirstAboveStep<K(!new), V>(lt: (K, K) -> bool, key: K, t: Tree<K, V>)
    requires StrictTotal(lt) && Search(lt, t) && t.Node?
    ensures FirstAbove(lt, key, Entries(t)) ==
            if lt(key, t.key) then OrElse(FirstAbove(lt, key, Entries(t.left)), Some((t.key, t.value)))
            else FirstAbove(lt, key, Entries(t.right))
  {
    SearchParts(lt, t);
    var l, e, r := Entries(t.left), [(t.key, t.value)], Entries(t.right);
    FirstAboveConcat(lt, key, l + e, r);
    FirstAboveConcat(lt, key, l, e);
    if !lt(key, t.key) { NoneAbove(lt, key, l); }
  }

  /** Every cached height is the real one, and sibling heights differ by at most one. */
  ghost predicate Balanced<K, V>(t: Tree<K, V>) {
    match t
    case Leaf => true
    case Node(_, _, l, r, h) =>
      && Balanced(l) && Balanced(r)
      && h == 1 + Max(Height(l), Height(r))
      && Height(l) <= Height(r) + 1 && Height(r) <= Height(l) + 1
  }

  // ---------- the operations ----------

  function Max(a: nat, b: nat): nat { if a >= b then a else b }

  function Height<K, V>(t: Tree<K, V>): nat {
    if t.Leaf? then 0 else t.height
  }

  function Make<K, V>(key: K, value: V, left: Tree<K, V>, right: Tree<K, V>): Tree<K, V> {
    Node(key, value, left, right, 1 + Max(Height(left), Height(right)))
  }

  function Balance<K, V>(key: K, value: V, left: Tree<K, V>, right: Tree<K, V>): Tree<K, V> {
    if Height(left) > Height(right) + 1 then
      if Height(left.left) >= Height(left.right) then
        Make(left.key, left.value, left.left, Make(key, value, left.right, right))
      else
        var middle := left.right;
        Make(middle.key, middle.value,
             Make(left.key, left.value, left.left, middle.left),
             Make(key, value, middle.right, right))
    else if Height(right) > Height(left) + 1 then
      if Height(right.right) >= Height(right.left) then
        Make(right.key, right.value, Make(key, value, left, right.left), right.right)
      else
        var middle := right.left;
        Make(middle.key, middle.value,
             Make(key, value, left, middle.left),
             Make(right.key, right.value, middle.right, right.right))
    else Make(key, value, left, right)
  }

  /** The new tree, and whether the key was absent. */
  function Insert<K, V>(lt: (K, K) -> bool, t: Tree<K, V>, key: K, value: V): (Tree<K, V>, bool) {
    match t
    case Leaf => (Make(key, value, Leaf, Leaf), true)
    case Node(k, v, l, r, _) =>
      if lt(key, k) then
        var (left, inserted) := Insert(lt, l, key, value);
        (Balance(k, v, left, r), inserted)
      else if lt(k, key) then
        var (right, inserted) := Insert(lt, r, key, value);
        (Balance(k, v, l, right), inserted)
      else (Make(key, value, l, r), false)
  }

  /** The tree without its leftmost entry, and that entry. */
  function RemoveLeftmost<K, V>(t: Tree<K, V>): (Tree<K, V>, K, V)
    requires t.Node?
  {
    if t.left.Leaf? then (t.right, t.key, t.value)
    else
      var (left, key, value) := RemoveLeftmost(t.left);
      (Balance(t.key, t.value, left, t.right), key, value)
  }

  /** The new tree, and whether the key was present. */
  function Remove<K, V>(lt: (K, K) -> bool, t: Tree<K, V>, key: K): (Tree<K, V>, bool) {
    match t
    case Leaf => (Leaf, false)
    case Node(k, v, l, r, _) =>
      if lt(key, k) then
        var (left, removed) := Remove(lt, l, key);
        if !removed then (t, false) else (Balance(k, v, left, r), true)
      else if lt(k, key) then
        var (right, removed) := Remove(lt, r, key);
        if !removed then (t, false) else (Balance(k, v, l, right), true)
      else if l.Leaf? then (r, true)
      else if r.Leaf? then (l, true)
      else
        var (right, successor, successorValue) := RemoveLeftmost(r);
        (Balance(successor, successorValue, l, right), true)
  }

  // ---------- contents and search order ----------

  /** Rebalancing keeps the entries and their order. */
  lemma BalanceEntries<K, V>(key: K, value: V, left: Tree<K, V>, right: Tree<K, V>)
    ensures Entries(Balance(key, value, left, right)) == Entries(left) + [(key, value)] + Entries(right)
  {
    if Height(left) > Height(right) + 1 {
      var a, x := Entries(left.left), [(left.key, left.value)];
      if Height(left.left) >= Height(left.right) {
        Five(a, x, Entries(left.right), [(key, value)], Entries(right));
      } else {
        var m := left.right;
        var y := [(m.key, m.value)];
        Five(a + x + Entries(m.left), y, Entries(m.right), [(key, value)], Entries(right));
        Five(a, x, Entries(m.left), y, Entries(m.right));
      }
    } else if Height(right) > Height(left) + 1 {
      var z, c := [(right.key, right.value)], Entries(right.right);
      if Height(right.right) >= Height(right.left) {
        Five(Entries(left), [(key, value)], Entries(right.left), z, c);
      } else {
        var m := right.left;
        var y := [(m.key, m.value)];
        Five(Entries(left), [(key, value)], Entries(m.left) + y + Entries(m.right), z, c);
        Five(Entries(left), [(key, value)], Entries(m.left), y, Entries(m.right));
        Five(Entries(left) + [(key, value)] + Entries(m.left), y, Entries(m.right), z, c);
      }
    }
  }

  /** Insertion is insertion into the sorted entry list. */
  lemma {:induction false} InsertEntries<K(!new), V>(lt: (K, K) -> bool, t: Tree<K, V>, key: K, value: V)
    requires StrictTotal(lt) && Search(lt, t)
    ensures Entries(Insert(lt, t, key, value).0) == Put(lt, Entries(t), key, value)
  {
    match t
    case Leaf =>
    case Node(k, v, l, r, _) =>
      SearchParts(lt, t);
      if lt(key, k) {
        InsertEntries(lt, l, key, value);
        BalanceEntries(k, v, Insert(lt, l, key, value).0, r);
        PutLeft(lt, Entries(l), (k, v), Entries(r), key, value);
      } else if lt(k, key) {
        InsertEntries(lt, r, key, value);
        BalanceEntries(k, v, l, Insert(lt, r, key, value).0);
        PutRight(lt, Entries(l), (k, v), Entries(r), key, value);
      } else {
        PutAt(lt, Entries(l), (k, v), Entries(r), value);
      }
  }

  lemma {:induction false} RemoveLeftmostEntries<K, V>(t: Tree<K, V>)
    requires t.Node?
    ensures var (t', key, value) := RemoveLeftmost(t);
            Entries(t) == [(key, value)] + Entries(t')
  {
    if t.left.Node? {
      RemoveLeftmostEntries(t.left);
      BalanceEntries(t.key, t.value, RemoveLeftmost(t.left).0, t.right);
    }
  }

  /** Removal is removal from the sorted entry list; when it finds nothing it is the identity. */
  lemma {:induction false} RemoveEntries<K(!new), V>(lt: (K, K) -> bool, t: Tree<K, V>, key: K)
    requires StrictTotal(lt) && Search(lt, t)
    ensures Entries(Remove(lt, t, key).0) == Drop(lt, Entries(t), key)
    ensures !Remove(lt, t, key).1 ==> Remove(lt, t, key).0 == t
  {
    match t
    case Leaf =>
    case Node(k, v, l, r, _) =>
      SearchParts(lt, t);
      if lt(key, k) {
        RemoveEntries(lt, l, key);
        BalanceEntries(k, v, Remove(lt, l, key).0, r);
        DropLeft(lt, Entries(l), (k, v), Entries(r), key);
      } else if lt(k, key) {
        RemoveEntries(lt, r, key);
        BalanceEntries(k, v, l, Remove(lt, r, key).0);
        DropRight(lt, Entries(l), (k, v), Entries(r), key);
      } else {
        DropAt(lt, Entries(l), (k, v), Entries(r));
        if l.Node? && r.Node? {
          RemoveLeftmostEntries(r);
          var (right, successor, successorValue) := RemoveLeftmost(r);
          BalanceEntries(successor, successorValue, l, right);
        }
      }
  }

  lemma {:induction false} InsertCounts<K, V>(lt: (K, K) -> bool, t: Tree<K, V>, key: K, value: V)
    ensures Size(Insert(lt, t, key, value).0) == Size(t) + if Insert(lt, t, key, value).1 then 1 else 0
  {
    match t
    case Leaf =>
    case Node(k, v, l, r, _) =>
      if lt(key, k) {
        InsertCounts(lt, l, key, value);
        BalanceEntries(k, v, Insert(lt, l, key, value).0, r);
      } else if lt(k, key) {
        InsertCounts(lt, r, key, value);
        BalanceEntries(k, v, l, Insert(lt, r, key, value).0);
      }
  }

  lemma {:induction false} RemoveCounts<K, V>(lt: (K, K) -> bool, t: Tree<K, V>, key: K)
    ensures Size(Remove(lt, t, key).0) == Size(t) - if Remove(lt, t, key).1 then 1 else 0
  {
    match t
    case Leaf =>
    case Node(k, v, l, r, _) =>
      if lt(key, k) {
        RemoveCounts(lt, l, key);
        BalanceEntries(k, v, Remove(lt, l, key).0, r);
      } else if lt(k, key) {
        RemoveCounts(lt, r, key);
        BalanceEntries(k, v, l, Remove(lt, r, key).0);
      } else if l.Node? && r.Node? {
        RemoveLeftmostEntries(r);
        var (right, successor, successorValue) := RemoveLeftmost(r);
        BalanceEntries(successor, successorValue, l, right);
      }
  }

  /** Insertion means map update, and its flag says whether the key was absent. */
  lemma InsertMeansUpdate<K(!new), V>(lt: (K, K) -> bool, t: Tree<K, V>, key: K, value: V)
    requires StrictTotal(lt) && Search(lt, t)
    ensures var (t', inserted) := Insert(lt, t, key, value);
            && Search(lt, t')
            && Contents(t') == Contents(t)[key := value]
            && inserted == (key !in Contents(t))
            && Size(t') == |Contents(t')|
  {
    InsertEntries(lt, t, key, value);
    PutAscending(lt, Entries(t), key, value);
    PutMeansUpdate(lt, Entries(t), key, value);
    InsertCounts(lt, t, key, value);
    MapOfSize(lt, Entries(t));
    MapOfSize(lt, Entries(Insert(lt, t, key, value).0));
  }

  /** Removal means map removal, and its flag says whether the key was present. */
  lemma RemoveMeansRemoval<K(!new), V>(lt: (K, K) -> bool, t: Tree<K, V>, key: K)
    requires StrictTotal(lt) && Search(lt, t)
    ensures var (t', removed) := Remove(lt, t, key);
            && Search(lt, t')
            && Contents(t') == Contents(t) - {key}
            && removed == (key in Contents(t))
            && Size(t') == |Contents(t')|
            && (key !in Contents(t) ==> t' == t)
  {
    RemoveEntries(lt, t, key);
    DropAscending(lt, Entries(t), key);
    DropMeansRemoval(lt, Entries(t), key);
    RemoveCounts(lt, t, key);
    MapOfSize(lt, Entries(t));
    MapOfSize(lt, Entries(Remove(lt, t, key).0));
  }

  // ---------- balance ----------

  lemma MakeBalanced<K, V>(key: K, value: V, left: Tree<K, V>, right: Tree<K, V>)
    requires Balanced(left) && Balanced(right)
    requires Height(left) <= Height(right) + 1 && Height(right) <= Height(left) + 1
    ensures Balanced(Make(key, value, left, right))
    ensures Height(Make(key, value, left, right)) == 1 + Max(Height(left), Height(right))
  {
  }

  lemma LeftHeavyRepairs<K, V>(key: K, value: V, left: Tree<K, V>, right: Tree<K, V>)
    requires Balanced(left) && Balanced(right) && Height(left) == Height(right) + 2
    ensures var t := Balance(key, value, left, right);
            && Balanced(t)
            && Height(t) == Height(left) + if Height(left.left) == Height(left.right) then 1 else 0
  {
    if Height(left.left) >= Height(left.right) {
      MakeBalanced(key, value, left.right, right);
      MakeBalanced(left.key, left.value, left.left, Make(key, value, left.right, right));
    } else {
      var m := left.right;
      MakeBalanced(left.key, left.value, left.left, m.left);
      MakeBalanced(key, value, m.right, right);
      MakeBalanced(m.key, m.value, Make(left.key, left.value, left.left, m.left), Make(key, value, m.right, right));
    }
  }

  lemma RightHeavyRepairs<K, V>(key: K, value: V, left: Tree<K, V>, right: Tree<K, V>)
    requires Balanced(left) && Balanced(right) && Height(right) == Height(left) + 2
    ensures var t := Balance(key, value, left, right);
            && Balanced(t)
            && Height(t) == Height(right) + if Height(right.left) == Height(right.right) then 1 else 0
  {
    if Height(right.right) >= Height(right.left) {
      MakeBalanced(key, value, left, right.left);
      MakeBalanced(right.key, right.value, Make(key, value, left, right.left), right.right);
    } else {
      var m := right.left;
      MakeBalanced(key, value, left, m.left);
      MakeBalanced(right.key, right.value, m.right, right.right);
      MakeBalanced(m.key, m.value, Make(key, value, left, m.left), Make(right.key, right.value, m.right, right.right));
    }
  }

  ghost predicate Repaired(height: nat, left: nat, right: nat) {
    && Max(left, right) <= height <= 1 + Max(left, right)
    && (left <= right + 1 && right <= left + 1 ==> height == 1 + Max(left, right))
  }

  /**
   * One rebalancing step repairs a height difference of two, and restores the
   * height of the taller side exactly when its two children differ.
   */
  lemma BalanceRepairs<K, V>(key: K, value: V, left: Tree<K, V>, right: Tree<K, V>)
    requires Balanced(left) && Balanced(right)
    requires Height(left) <= Height(right) + 2 && Height(right) <= Height(left) + 2
    ensures Balanced(Balance(key, value, left, right))
    ensures Repaired(Height(Balance(key, value, left, right)), Height(left), Height(right))
    ensures Height(left) == Height(right) + 2 ==>
              (Height(Balance(key, value, left, right)) == Height(left) <==> Height(left.left) != Height(left.right))
    ensures Height(right) == Height(left) + 2 ==>
              (Height(Balance(key, value, left, right)) == Height(right) <==> Height(right.left) != Height(right.right))
    ensures Height(left) <= Height(right) + 1 && Height(right) <= Height(left) + 1
            ==> Balance(key, value, left, right) == Make(key, value, left, right)
  {
    if Height(left) == Height(right) + 2 {
      LeftHeavyRepairs(key, value, left, right);
    } else if Height(right) == Height(left) + 2 {
      RightHeavyRepairs(key, value, left, right);
    } else {
      MakeBalanced(key, value, left, right);
    }
  }

  // ---------- how many nodes an update makes ----------

  function BalanceMakes<K, V>(left: Tree<K, V>, right: Tree<K, V>): nat {
    if Height(left) > Height(right) + 1 then
      if Height(left.left) >= Height(left.right) then 2 else 3
    else if Height(right) > Height(left) + 1 then
      if Height(right.right) >= Height(right.left) then 2 else 3
    else 1
  }

  function Rotations<K, V>(left: Tree<K, V>, right: Tree<K, V>): nat {
    if Height(left) > Height(right) + 1 || Height(right) > Height(left) + 1 then 1 else 0
  }

  ghost function InsertMakes<K, V>(lt: (K, K) -> bool, t: Tree<K, V>, key: K, value: V): nat {
    match t
    case Leaf => 1
    case Node(k, _, l, r, _) =>
      if lt(key, k) then InsertMakes(lt, l, key, value) + BalanceMakes(Insert(lt, l, key, value).0, r)
      else if lt(k, key) then InsertMakes(lt, r, key, value) + BalanceMakes(l, Insert(lt, r, key, value).0)
      else 1
  }

  ghost function InsertRotations<K, V>(lt: (K, K) -> bool, t: Tree<K, V>, key: K, value: V): nat {
    match t
    case Leaf => 0
    case Node(k, _, l, r, _) =>
      if lt(key, k) then InsertRotations(lt, l, key, value) + Rotations(Insert(lt, l, key, value).0, r)
      else if lt(k, key) then InsertRotations(lt, r, key, value) + Rotations(l, Insert(lt, r, key, value).0)
      else 0
  }

  ghost function RemoveLeftmostMakes<K, V>(t: Tree<K, V>): nat
    requires t.Node?
  {
    if t.left.Leaf? then 0 else RemoveLeftmostMakes(t.left) + BalanceMakes(RemoveLeftmost(t.left).0, t.right)
  }

  ghost function RemoveMakes<K, V>(lt: (K, K) -> bool, t: Tree<K, V>, key: K): nat {
    match t
    case Leaf => 0
    case Node(k, _, l, r, _) =>
      if lt(key, k) then
        if !Remove(lt, l, key).1 then RemoveMakes(lt, l, key)
        else RemoveMakes(lt, l, key) + BalanceMakes(Remove(lt, l, key).0, r)
      else if lt(k, key) then
        if !Remove(lt, r, key).1 then RemoveMakes(lt, r, key)
        else RemoveMakes(lt, r, key) + BalanceMakes(l, Remove(lt, r, key).0)
      else if l.Leaf? || r.Leaf? then 0
      else RemoveLeftmostMakes(r) + BalanceMakes(l, RemoveLeftmost(r).0)
  }

  /** A node that grew has children of different heights, which is what a rotation above it needs. */
  lemma {:induction false} InsertBalanced<K, V>(lt: (K, K) -> bool, t: Tree<K, V>, key: K, value: V)
    requires Balanced(t)
    ensures var t' := Insert(lt, t, key, value).0;
            && Balanced(t')
            && Height(t) <= Height(t') <= Height(t) + 1
            && (t.Node? && Height(t') > Height(t) ==> Height(t'.left) != Height(t'.right))
  {
    match t
    case Leaf =>
    case Node(k, v, l, r, _) =>
      if lt(key, k) {
        InsertBalanced(lt, l, key, value);
        BalanceRepairs(k, v, Insert(lt, l, key, value).0, r);
      } else if lt(k, key) {
        InsertBalanced(lt, r, key, value);
        BalanceRepairs(k, v, l, Insert(lt, r, key, value).0);
      }
  }

  /**
   * Insertion rotates at most once and makes at most height + 3 nodes:
   * whoever rotates has its former height back, so no ancestor rotates.
   */
  lemma {:induction false} InsertRotatesOnce<K, V>(lt: (K, K) -> bool, t: Tree<K, V>, key: K, value: V)
    requires Balanced(t)
    ensures InsertRotations(lt, t, key, value) <= 1
    ensures InsertRotations(lt, t, key, value) == 1 ==> Height(Insert(lt, t, key, value).0) == Height(t)
    ensures InsertMakes(lt, t, key, value) <= Height(t) + 1 + 2 * InsertRotations(lt, t, key, value)
  {
    match t
    case Leaf =>
    case Node(k, v, l, r, _) =>
      if lt(key, k) {
        InsertRotatesOnce(lt, l, key, value);
        InsertBalanced(lt, l, key, value);
        BalanceRepairs(k, v, Insert(lt, l, key, value).0, r);
      } else if lt(k, key) {
        InsertRotatesOnce(lt, r, key, value);
        InsertBalanced(lt, r, key, value);
        BalanceRepairs(k, v, l, Insert(lt, r, key, value).0);
      }
  }

  lemma {:induction false} RemoveLeftmostBalanced<K, V>(t: Tree<K, V>)
    requires t.Node? && Balanced(t)
    ensures var t' := RemoveLeftmost(t).0;
            Balanced(t') && Height(t) - 1 <= Height(t') <= Height(t)
    ensures RemoveLeftmostMakes(t) <= 3 * (Height(t) - 1)
  {
    if t.left.Node? {
      RemoveLeftmostBalanced(t.left);
      BalanceRepairs(t.key, t.value, RemoveLeftmost(t.left).0, t.right);
    }
  }

  lemma RemoveRootBalanced<K, V>(lt: (K, K) -> bool, t: Tree<K, V>, key: K)
    requires t.Node? && Balanced(t) && !lt(key, t.key) && !lt(t.key, key)
    ensures var t' := Remove(lt, t, key).0;
            Balanced(t') && Height(t) - 1 <= Height(t') <= Height(t)
    ensures RemoveMakes(lt, t, key) <= 3 * Height(t)
  {
    if t.left.Node? && t.right.Node? {
      RemoveLeftmostBalanced(t.right);
      var (right, successor, successorValue) := RemoveLeftmost(t.right);
      BalanceRepairs(successor, successorValue, t.left, right);
    }
  }

  /** Removal keeps balance and makes at most three nodes a level; finding nothing makes none. */
  lemma {:induction false} RemoveBalanced<K, V>(lt: (K, K) -> bool, t: Tree<K, V>, key: K)
    requires Balanced(t)
    ensures var t' := Remove(lt, t, key).0;
            Balanced(t') && Height(t) - 1 <= Height(t') <= Height(t)
    ensures RemoveMakes(lt, t, key) <= 3 * Height(t)
    ensures !Remove(lt, t, key).1 ==> RemoveMakes(lt, t, key) == 0
  {
    match t
    case Leaf =>
    case Node(k, v, l, r, _) =>
      if lt(key, k) {
        RemoveBalanced(lt, l, key);
        BalanceRepairs(k, v, Remove(lt, l, key).0, r);
      } else if lt(k, key) {
        RemoveBalanced(lt, r, key);
        BalanceRepairs(k, v, l, Remove(lt, r, key).0);
      } else {
        RemoveRootBalanced(lt, t, key);
      }
  }

  // ---------- logarithmic height ----------

  ghost function Fib(n: nat): nat {
    if n < 2 then n else Fib(n - 1) + Fib(n - 2)
  }

  ghost function Pow2(n: nat): nat {
    if n == 0 then 1 else 2 * Pow2(n - 1)
  }

  lemma {:induction false} FibMonotone(m: nat, n: nat)
    requires m <= n
    ensures Fib(m) <= Fib(n)
    decreases n - m
  {
    if m < n { FibMonotone(m + 1, n); }
  }

  /** A balanced tree of height h holds at least Fib(h + 2) - 1 entries. */
  lemma {:induction false} HeightNeedsEntries<K, V>(t: Tree<K, V>)
    requires Balanced(t)
    ensures Fib(Height(t) + 2) - 1 <= Size(t)
  {
    if t.Node? {
      HeightNeedsEntries(t.left);
      HeightNeedsEntries(t.right);
      var h := Height(t);
      FibMonotone(h, Height(t.left) + 2);
      FibMonotone(h, Height(t.right) + 2);
      assert Fib(h + 2) == Fib(h + 1) + Fib(h);
    }
  }

  lemma {:induction false} FibIsExponential(h: nat)
    ensures Pow2(h / 2) <= Fib(h + 2)
  {
    if h >= 2 {
      FibIsExponential(h - 2);
      assert Fib(h + 2) == Fib(h + 1) + Fib(h);
      FibMonotone(h, h + 1);
    }
  }

  lemma {:induction false} Pow2Monotone(m: nat, n: nat)
    requires m <= n
    ensures Pow2(m) <= Pow2(n)
    decreases n - m
  {
    if m < n { Pow2Monotone(m + 1, n); }
  }

  /** So the height, and with it the work of every update, is logarithmic in the size. */
  lemma {:induction false} HeightIsLogarithmic<K, V>(t: Tree<K, V>)
    requires Balanced(t)
    ensures Pow2(Height(t) / 2) <= Size(t) + 1
  {
    var h, n := Height(t), Size(t);
    assert Fib(h + 2) - 1 <= n by { HeightNeedsEntries(t); }
    assert Pow2(h / 2) <= Fib(h + 2) by { FibIsExponential(h); }
  }

  /** The logarithm to base two, rounded down. */
  ghost function Log2(n: nat): nat {
    if n < 2 then 0 else 1 + Log2(n / 2)
  }

  lemma {:induction false} Log2OfPow2(k: nat, n: nat)
    requires n > 0
    ensures Pow2(k) <= n <==> k <= Log2(n)
    decreases n
  {
    if k > 0 {
      Pow2Monotone(0, k - 1);
      if n > 1 { Log2OfPow2(k - 1, n / 2); }
    }
  }

  lemma {:induction false} Log2Monotone(m: nat, n: nat)
    requires m <= n
    ensures Log2(m) <= Log2(n)
    decreases n
  {
    if m >= 2 { Log2Monotone(m / 2, n / 2); }
  }

  /** No balanced tree of up to `n` entries is higher. */
  ghost function Tallest(n: nat): nat {
    2 * Log2(n + 1) + 1
  }

  lemma HeightIsAtMost<K, V>(t: Tree<K, V>, n: nat)
    requires Balanced(t) && Size(t) <= n
    ensures Height(t) <= 2 * Log2(n + 1) + 1 == Tallest(n)
  {
    HeightIsLogarithmic(t);
    Log2OfPow2(Height(t) / 2, Size(t) + 1);
    Log2Monotone(Size(t) + 1, n + 1);
  }

  /** A tree whose size a 64-bit count can hold has a height an 8-bit count can hold. */
  lemma HeightFitsAByte<K, V>(t: Tree<K, V>)
    requires Balanced(t) && Size(t) < Pow2(64)
    ensures Height(t) < 256
  {
    HeightIsLogarithmic(t);
    assert Pow2(65) == 2 * Pow2(64);
    Pow2Monotone(0, 64);
    if Height(t) / 2 >= 65 {
      Pow2Monotone(65, Height(t) / 2);
    }
  }

  // ---------- everything an update keeps ----------

  /** A search tree with exact cached heights whose siblings' heights differ by at most one. */
  ghost predicate Avl<K(!new), V>(lt: (K, K) -> bool, t: Tree<K, V>) {
    Search(lt, t) && Balanced(t)
  }

  lemma InsertKeepsAvl<K(!new), V>(lt: (K, K) -> bool, t: Tree<K, V>, key: K, value: V)
    requires StrictTotal(lt) && Avl(lt, t)
    ensures var (t', inserted) := Insert(lt, t, key, value);
            && Avl(lt, t')
            && Contents(t') == Contents(t)[key := value]
            && inserted == (key !in Contents(t))
            && Size(t') == Size(t) + (if inserted then 1 else 0) == |Contents(t')|
    ensures InsertMakes(lt, t, key, value) <= Height(t) + 3
  {
    InsertMeansUpdate(lt, t, key, value);
    InsertCounts(lt, t, key, value);
    InsertBalanced(lt, t, key, value);
    InsertRotatesOnce(lt, t, key, value);
  }

  lemma RemoveKeepsAvl<K(!new), V>(lt: (K, K) -> bool, t: Tree<K, V>, key: K)
    requires StrictTotal(lt) && Avl(lt, t)
    ensures var (t', removed) := Remove(lt, t, key);
            && Avl(lt, t')
            && Contents(t') == Contents(t) - {key}
            && removed == (key in Contents(t))
            && Size(t') == Size(t) - (if removed then 1 else 0) == |Contents(t')|
            && (!removed ==> RemoveMakes(lt, t, key) == 0)
    ensures RemoveMakes(lt, t, key) <= 3 * Height(t)
  {
    RemoveMeansRemoval(lt, t, key);
    RemoveCounts(lt, t, key);
    RemoveBalanced(lt, t, key);
  }

  // ---------- every reachable map ----------

  datatype Update<K, V> = Inserting(key: K, value: V) | Removing(key: K)

  /** The tree and tracked length after a run of updates on the empty map. */
  ghost function Updated<K, V>(lt: (K, K) -> bool, updates: seq<Update<K, V>>): (Tree<K, V>, int) {
    if updates == [] then (Leaf, 0)
    else
      var (t, len) := Updated(lt, updates[..|updates| - 1]);
      match updates[|updates| - 1]
      case Inserting(key, value) =>
        var (t', inserted) := Insert(lt, t, key, value);
        (t', len + if inserted then 1 else 0)
      case Removing(key) =>
        var (t', removed) := Remove(lt, t, key);
        (t', len - if removed then 1 else 0)
  }

  /** What a plain map would hold. */
  ghost function PlainUpdate<K, V>(m: map<K, V>, update: Update<K, V>): map<K, V> {
    match update
    case Inserting(key, value) => m[key := value]
    case Removing(key) => m - {key}
  }

  ghost function PlainlyUpdated<K, V>(base: map<K, V>, updates: seq<Update<K, V>>): map<K, V> {
    if updates == [] then base
    else PlainUpdate(PlainlyUpdated(base, updates[..|updates| - 1]), updates[|updates| - 1])
  }

  /** Every reachable map is a balanced search tree that agrees with a plain map, with exact length. */
  lemma {:induction false} ReachableMapAgrees<K(!new), V>(lt: (K, K) -> bool, updates: seq<Update<K, V>>)
    requires StrictTotal(lt)
    ensures var (t, len) := Updated(lt, updates);
            Avl(lt, t) && Contents(t) == PlainlyUpdated(map[], updates) && len == Size(t) == |PlainlyUpdated(map[], updates)|
  {
    if updates != [] {
      var prior := updates[..|updates| - 1];
      ReachableMapAgrees(lt, prior);
      var (t, len) := Updated(lt, prior);
      match updates[|updates| - 1]
      case Inserting(key, value) => InsertKeepsAvl(lt, t, key, value);
      case Removing(key) => RemoveKeepsAvl(lt, t, key);
    }
  }
}
