/** Maps derived from one base by updates, and what a diff of two of them costs. */
module DerivedDiffs {
  import opened SortedEntries
  import opened AvlTree
  import opened PersistentMaps
  import opened DiffMerge
  import opened DiffUpdates
  import opened PersistentDiffs

  /** A map after one update shares all but a path with the map before it. */
  method Apply<K(!new), V>(m: PersistentMap<K, V>, update: Update<K, V>, allocations: Allocations) returns (d: PersistentMap<K, V>)
    requires m.Valid()
    modifies allocations
    ensures fresh(d) && d.Valid() && d.lt == m.lt && d.len <= m.len + 1
    ensures Plain(d.Bindings()) == PlainUpdate(Plain(m.Bindings()), update)
    ensures Near(m.root, d.root, Path(Height(TreeOf(m.root))), 1)
  {
    match update
    case Inserting(key, value) =>
      d := m.WithInserted(key, value, allocations);
      KeysWithout(m.Bindings(), d.Bindings(), key);
      UpdatedNear(m.lt, m.root, d.root, key, Height(TreeOf(m.root)) + 3);
    case Removing(key) =>
      d := m.WithoutKey(key, allocations);
      PlainWithout(m.Bindings(), key);
      KeysWithout(m.Bindings(), d.Bindings(), key);
      UpdatedNear(m.lt, m.root, d.root, key, 3 * Height(TreeOf(m.root)));
  }

  /** `d` is `m` after `k` updates, and shares all but `k` paths of its nodes with it. */
  ghost predicate Derived<K(!new), V>(m: PersistentMap<K, V>, d: PersistentMap<K, V>, updates: seq<Update<K, V>>, k: nat, high: nat)
    reads m, d
  {
    && m.Valid() && d.Valid() && d.lt == m.lt && d.len <= m.len + k
    && Plain(d.Bindings()) == PlainlyUpdated(Plain(m.Bindings()), updates)
    && Near(m.root, d.root, Paths(k, high), k)
  }

  lemma DerivedNext<K(!new), V>(m: PersistentMap<K, V>, before: PersistentMap<K, V>, d: PersistentMap<K, V>,
                                updates: seq<Update<K, V>>, earlier: nat, k: nat, limit: nat, high: nat)
    requires updates != [] && k == earlier + 1 && Derived(m, before, updates[..|updates| - 1], earlier, high)
    requires m.len + k <= limit && Bounds(high, limit)
    requires d.Valid() && d.lt == before.lt && d.len <= before.len + 1
    requires Plain(d.Bindings()) == PlainUpdate(Plain(before.Bindings()), updates[|updates| - 1])
    requires Near(before.root, d.root, Path(Height(TreeOf(before.root))), 1)
    ensures Derived(m, d, updates, k, high)
  {
    NearNext(m.root, before.root, d.root, earlier, k, limit, high);
  }

  /** A map after `k` updates shares all but `k` paths with the map before them, none longer than a map of its size can be high. */
  method Derive<K(!new), V>(m: PersistentMap<K, V>, updates: seq<Update<K, V>>, allocations: Allocations,
                            ghost k: nat, ghost limit: nat, ghost high: nat)
    returns (d: PersistentMap<K, V>)
    requires m.Valid() && k == |updates| && m.len + k <= limit && Bounds(high, limit)
    modifies allocations
    ensures Derived(m, d, updates, k, high)
    decreases |updates|
  {
    if updates == [] {
      NearItself(m.root);
      return m;
    }
    ghost var earlier: nat := k - 1;
    var before := Derive(m, updates[..|updates| - 1], allocations, earlier, limit, high);
    d := Apply(before, updates[|updates| - 1], allocations);
    DerivedNext(m, before, d, updates, earlier, k, limit, high);
  }

  /**
   * Two maps derived from one base by `k` updates in all: the diff opens no more
   * than a few times the height for each update, however large the maps.
   */
  method DiffOfDerived<K(!new), V>(base: PersistentMap<K, V>, us: seq<Update<K, V>>, vs: seq<Update<K, V>>,
                                   eqv: (V, V) -> bool, allocations: Allocations, ghost k: nat, ghost high: nat)
    returns (a: PersistentMap<K, V>, b: PersistentMap<K, V>, changes: seq<Change<K, V>>, work: nat)
    requires base.Valid() && k == |us| + |vs| && Bounds(high, base.len + k)
    modifies allocations
    ensures Plain(a.Bindings()) == PlainlyUpdated(Plain(base.Bindings()), us)
    ensures Plain(b.Bindings()) == PlainlyUpdated(Plain(base.Bindings()), vs)
    ensures ExactChanges(base.lt, eqv, a.Bindings(), b.Bindings(), changes)
    ensures Decides(eqv, a.Bindings(), b.Bindings()) ==>
              forall key :: Reports(changes, key) <==>
                            Lookup(PlainlyUpdated(Plain(base.Bindings()), us), key) != Lookup(PlainlyUpdated(Plain(base.Bindings()), vs), key)
    ensures work <= ChangedPaths(k, high)
  {
    ghost var limit := base.len + k;
    a := Derive(base, us, allocations, |us|, limit, high);
    b := Derive(base, vs, allocations, |vs|, limit, high);
    changes, work := Diff(a, b, eqv);
    DerivedIsCheap(base.root, a.root, b.root, |us|, |vs|, k, limit, high);
  }
}
