/** How far updates carry one map from another, in nodes and in keys, and what a diff then costs. */
module DiffUpdates {
  import opened Ordering
  import opened Sequences
  import opened Sets
  import opened AvlTree
  import opened PersistentMaps
  import opened DiffNodes
  import opened DiffSets
  import opened DiffCosts

  /** No more than `nodes` nodes are in one map only, and no more than `keys` keys bound by one only. */
  ghost predicate Near<K, V>(a: MapNode?<K, V>, b: MapNode?<K, V>, nodes: nat, keys: nat)
    requires Rooted(a) && Rooted(b)
  {
    |Unshared(a, b)| <= nodes && |BoundOnce(a, b)| <= keys
  }

  lemma NearItself<K, V>(a: MapNode?<K, V>)
    requires Rooted(a)
    ensures Near(a, a, 0, 0)
  {
    assert Unshared(a, a) == {} && BoundOnce(a, a) == {};
  }

  lemma NearAlike<K, V>(a: MapNode?<K, V>, b: MapNode?<K, V>, nodes: nat, keys: nat)
    requires Rooted(a) && Rooted(b) && Near(a, b, nodes, keys)
    ensures Near(b, a, nodes, keys)
  {
    OneSidedAlike(NodeSet(a), NodeSet(b));
    OneSidedAlike(Contents(TreeOf(a)).Keys, Contents(TreeOf(b)).Keys);
  }

  lemma UnsharedThrough<K, V>(a: MapNode?<K, V>, b: MapNode?<K, V>, c: MapNode?<K, V>)
    requires Rooted(a) && Rooted(b) && Rooted(c)
    ensures |Unshared(a, c)| <= |Unshared(a, b)| + |Unshared(b, c)|
  {
    OneSidedThrough(NodeSet(a), NodeSet(b), NodeSet(c));
  }

  lemma BoundOnceThrough<K, V>(a: MapNode?<K, V>, b: MapNode?<K, V>, c: MapNode?<K, V>)
    ensures |BoundOnce(a, c)| <= |BoundOnce(a, b)| + |BoundOnce(b, c)|
  {
    OneSidedThrough(Contents(TreeOf(a)).Keys, Contents(TreeOf(b)).Keys, Contents(TreeOf(c)).Keys);
  }

  lemma NearThrough<K, V>(a: MapNode?<K, V>, b: MapNode?<K, V>, c: MapNode?<K, V>, nodes: nat, keys: nat, nodes': nat, keys': nat)
    requires Rooted(a) && Rooted(b) && Rooted(c) && Near(a, b, nodes, keys) && Near(b, c, nodes', keys')
    ensures Near(a, c, nodes + nodes', keys + keys')
  {
    UnsharedThrough(a, b, c);
    BoundOnceThrough(a, b, c);
  }

  // ---------- one update ----------

  /** A search tree has as many nodes as entries: no node stands in it twice. */
  lemma NodeCount<K(!new), V>(lt: (K, K) -> bool, root: MapNode?<K, V>)
    requires StrictTotal(lt) && Rooted(root) && Avl(lt, TreeOf(root))
    ensures |NodeSet(root)| == Size(TreeOf(root))
  {
    SearchedNodesAreSorted(lt, root);
    DistinctCount(Nodes(root));
    NodesAreNodeSet(root);
    NodesAreEntries(root, 0);
  }

  /** What an update may leave unshared: the nodes it made, as many it replaced, and one it removed. */
  lemma NodesApart<K(!new), V>(lt: (K, K) -> bool, a: MapNode?<K, V>, b: MapNode?<K, V>, made: nat)
    requires StrictTotal(lt) && Rooted(a) && Rooted(b) && Avl(lt, TreeOf(a)) && Avl(lt, TreeOf(b))
    requires NewNodes(NodeSet(b), NodeSet(a), made)
    ensures |Unshared(a, b)| + Size(TreeOf(b)) <= Size(TreeOf(a)) + 2 * made
  {
    NodeCount(lt, a);
    NodeCount(lt, b);
    OneSidedCount(NodeSet(a), NodeSet(b));
  }

  lemma KeyApart<K>(m: set<K>, n: set<K>, key: K)
    requires m - {key} == n - {key}
    ensures |OneSided(m, n)| <= 1
  {
    forall k | k in OneSided(m, n) ensures k == key {
      assert k in m - {key} <==> k in n - {key};
    }
    NoMoreThan(OneSided(m, n), {key});
  }

  /** The nodes one update on a map of some height may leave unshared. */
  function Path(high: nat): nat {
    6 * high + 6
  }

  /** And those of so many updates. */
  ghost function Paths(updates: nat, high: nat): nat {
    if updates == 0 then 0 else Paths(updates - 1, high) + Path(high)
  }

  /** An update of one key, which makes up to three nodes a level and three more, leaves all but a path shared. */
  lemma UpdatedNear<K(!new), V>(lt: (K, K) -> bool, a: MapNode?<K, V>, b: MapNode?<K, V>, key: K, made: nat)
    requires StrictTotal(lt) && Rooted(a) && Rooted(b) && Avl(lt, TreeOf(a)) && Avl(lt, TreeOf(b))
    requires Contents(TreeOf(a)).Keys - {key} == Contents(TreeOf(b)).Keys - {key}
    requires NewNodes(NodeSet(b), NodeSet(a), made) && 2 * made + Size(TreeOf(a)) <= Path(Height(TreeOf(a))) + Size(TreeOf(b))
    ensures Near(a, b, Path(Height(TreeOf(a))), 1)
  {
    NodesApart(lt, a, b, made);
    KeyApart(Contents(TreeOf(a)).Keys, Contents(TreeOf(b)).Keys, key);
  }

  lemma PlainWithout<K, V>(m: map<K, Shared<V>>, key: K)
    ensures Plain(m - {key}) == Plain(m) - {key}
  {
  }

  lemma KeysWithout<K, V>(m: map<K, V>, n: map<K, V>, key: K)
    requires m - {key} == n - {key}
    ensures m.Keys - {key} == n.Keys - {key}
  {
    assert (m - {key}).Keys == m.Keys - {key} && (n - {key}).Keys == n.Keys - {key};
  }

  // ---------- a run of updates ----------

  lemma {:induction false} PathsAdd(some: nat, more: nat, all: nat, high: nat)
    requires all == some + more
    ensures Paths(some, high) + Paths(more, high) == Paths(all, high)
  {
    if more > 0 {
      PathsAdd(some, more - 1, all - 1, high);
    }
  }

  lemma PathsNext(some: nat, more: nat, low: nat, high: nat)
    requires more == some + 1 && low <= high
    ensures Paths(some, high) + Path(low) <= Paths(more, high)
  {
  }

  /** No map of up to `limit` entries is higher than `high`. */
  ghost predicate Bounds(high: nat, limit: nat) {
    Tallest(limit) <= high
  }

  lemma BoundsHeight<K, V>(root: MapNode?<K, V>, high: nat, limit: nat)
    requires Rooted(root) && Balanced(TreeOf(root)) && Size(TreeOf(root)) <= limit && Bounds(high, limit)
    ensures Height(TreeOf(root)) <= high && NodeHeight(root) <= high
  {
    HeightIsAtMost(TreeOf(root), limit);
  }

  lemma NearNext<K, V>(a: MapNode?<K, V>, b: MapNode?<K, V>, c: MapNode?<K, V>, some: nat, more: nat, limit: nat, high: nat)
    requires Rooted(a) && Rooted(b) && Rooted(c) && more == some + 1
    requires Balanced(TreeOf(b)) && Size(TreeOf(b)) <= limit && Bounds(high, limit)
    requires Near(a, b, Paths(some, high), some) && Near(b, c, Path(Height(TreeOf(b))), 1)
    ensures Near(a, c, Paths(more, high), more)
  {
    var low := Height(TreeOf(b));
    BoundsHeight(b, high, limit);
    NearThrough(a, b, c, Paths(some, high), some, Path(low), 1);
    assert |Unshared(a, c)| <= Paths(some, high) + Path(low);
    PathsNext(some, more, low, high);
  }

  // ---------- the cost of a diff ----------

  /** What a diff opens of maps so many updates apart: a few levels for each update. */
  ghost function ChangedPaths(updates: nat, high: nat): nat {
    if updates == 0 then 0 else ChangedPaths(updates - 1, high) + 8 * high + 6
  }

  lemma {:induction false} ChangedPathsMultiply(updates: nat, high: nat)
    ensures ChangedPaths(updates, high) == updates * (8 * high + 6)
  {
    if updates > 0 {
      ChangedPathsMultiply(updates - 1, high);
    }
  }

  lemma ProductGrows(a: nat, b: nat, c: nat, d: nat)
    requires a <= c && b <= d
    ensures a * b <= c * d
  {
    assert a * b <= a * d;
    assert a * d <= c * d;
  }

  lemma LevelsAdd(nodes: nat, updates: nat, high: nat, low: nat, keys: nat)
    requires nodes <= Paths(updates, high) && low <= high && keys <= updates
    ensures Levels(nodes, low, keys) <= ChangedPaths(updates, high)
  {
    ProductGrows(low, keys, high, updates);
    PathsAndLevels(updates, high);
  }

  lemma {:induction false} PathsAndLevels(updates: nat, high: nat)
    ensures Paths(updates, high) + 2 * (high * updates) == ChangedPaths(updates, high)
  {
    if updates > 0 {
      PathsAndLevels(updates - 1, high);
      assert high * updates == high * (updates - 1) + high;
    }
  }

  lemma NearIsCheap<K(!new), V>(a: MapNode?<K, V>, b: MapNode?<K, V>, updates: nat, high: nat)
    requires Rooted(a) && Rooted(b) && Higher(a, b) <= high && Near(a, b, Paths(updates, high), updates)
    ensures Allowance(a, b) <= ChangedPaths(updates, high)
  {
    LevelsAdd(|Unshared(a, b)|, updates, high, Higher(a, b), |BoundOnce(a, b)|);
  }

  lemma ApartAt<K(!new), V>(base: MapNode?<K, V>, a: MapNode?<K, V>, b: MapNode?<K, V>, i: nat, j: nat, k: nat, high: nat)
    requires Rooted(base) && Rooted(a) && Rooted(b) && k == i + j
    requires Near(base, a, Paths(i, high), i) && Near(base, b, Paths(j, high), j)
    ensures Near(a, b, Paths(k, high), k)
  {
    NearAlike(base, a, Paths(i, high), i);
    NearThrough(a, base, b, Paths(i, high), i, Paths(j, high), j);
    assert |Unshared(a, b)| <= Paths(i, high) + Paths(j, high);
    PathsAdd(i, j, k, high);
  }

  lemma DerivedIsCheap<K(!new), V>(base: MapNode?<K, V>, a: MapNode?<K, V>, b: MapNode?<K, V>, i: nat, j: nat, k: nat, limit: nat, high: nat)
    requires Rooted(base) && Rooted(a) && Rooted(b) && Balanced(TreeOf(a)) && Balanced(TreeOf(b)) && k == i + j
    requires Size(TreeOf(a)) <= limit && Size(TreeOf(b)) <= limit && Bounds(high, limit)
    requires Near(base, a, Paths(i, high), i) && Near(base, b, Paths(j, high), j)
    ensures Allowance(a, b) <= ChangedPaths(k, high)
  {
    BoundsHeight(a, high, limit);
    BoundsHeight(b, high, limit);
    ApartAt(base, a, b, i, j, k, high);
    NearIsCheap(a, b, k, high);
  }
}
