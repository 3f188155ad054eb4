/** What a diff of two maps reports: a merge of their sorted entry lists that skips nothing. */
module DiffMerge {
  import opened Ordering
  import opened SortedEntries
  import opened PersistentMaps
  import opened DiffStacks
  import opened DiffTurns

  datatype Change<+K, +V> = Change(key: K, left: Option<V>, right: Option<V>)

  // ---------- the reference: a plain merge ----------

  ghost function Merge<K, V>(lt: (K, K) -> bool, eqv: (V, V) -> bool, xs: seq<Bound<K, V>>, ys: seq<Bound<K, V>>)
    : seq<Change<K, V>>
    decreases |xs| + |ys|
  {
    if xs == [] && ys == [] then []
    else if ys == [] || (xs != [] && lt(xs[0].0, ys[0].0)) then
      [Change(xs[0].0, Some(xs[0].1.value), None)] + Merge(lt, eqv, xs[1..], ys)
    else if xs == [] || lt(ys[0].0, xs[0].0) then
      [Change(ys[0].0, None, Some(ys[0].1.value))] + Merge(lt, eqv, xs, ys[1..])
    else if xs[0].1 == ys[0].1 || eqv(xs[0].1.value, ys[0].1.value) then Merge(lt, eqv, xs[1..], ys[1..])
    else
      [Change(xs[0].0, Some(xs[0].1.value), Some(ys[0].1.value))] + Merge(lt, eqv, xs[1..], ys[1..])
  }

  /** One map alone binds `key`, or both do, to different objects whose values do not compare equal. */
  ghost predicate Differ<K, V>(eqv: (V, V) -> bool, m: map<K, Shared<V>>, n: map<K, Shared<V>>, key: K) {
    if key in m && key in n then m[key] != n[key] && !eqv(m[key].value, n[key].value) else key in m || key in n
  }

  /** On the values the two maps bind, the comparison decides equality. */
  ghost predicate Decides<K(!new), V>(eqv: (V, V) -> bool, m: map<K, Shared<V>>, n: map<K, Shared<V>>) {
    forall key :: key in m && key in n ==> (eqv(m[key].value, n[key].value) <==> m[key].value == n[key].value)
  }

  /** Then the lookups that differ are those of different values, whichever objects hold them. */
  lemma DifferInValue<K(!new), V>(eqv: (V, V) -> bool, m: map<K, Shared<V>>, n: map<K, Shared<V>>, key: K)
    requires Decides(eqv, m, n)
    ensures Differ(eqv, m, n, key) <==> Lookup(Plain(m), key) != Lookup(Plain(n), key)
  {
  }

  /** And maps agree exactly when they are equal, whichever objects hold their values. */
  lemma AgreeInValue<K(!new), V>(eqv: (V, V) -> bool, m: map<K, Shared<V>>, n: map<K, Shared<V>>)
    requires Decides(eqv, m, n)
    ensures Agree(eqv, m, n) <==> Plain(m) == Plain(n)
  {
    assert Plain(m).Keys == m.Keys && Plain(n).Keys == n.Keys;
    if Plain(m) == Plain(n) {
      forall key | key in m ensures key in n && eqv(m[key].value, n[key].value) {
        assert key in Plain(n) && Plain(m)[key] == Plain(n)[key];
      }
    }
  }

  ghost predicate Reports<K, V>(changes: seq<Change<K, V>>, key: K) {
    exists i :: 0 <= i < |changes| && changes[i].key == key
  }

  lemma ReportsCons<K, V>(c: Change<K, V>, rest: seq<Change<K, V>>, key: K)
    ensures Reports([c] + rest, key) <==> c.key == key || Reports(rest, key)
  {
    var all := [c] + rest;
    if Reports(rest, key) {
      var i :| 0 <= i < |rest| && rest[i].key == key;
      assert all[i + 1].key == key;
    }
    if c.key == key { assert all[0].key == key; }
  }

  /** A key bound in the tail of an ascending list comes after its head, and is not bound otherwise by it. */
  lemma HeadAndTail<K(!new), V>(lt: (K, K) -> bool, s: seq<(K, V)>, key: K)
    requires StrictTotal(lt) && Ascending(lt, s) && s != []
    ensures Ascending(lt, s[1..])
    ensures key in MapOf(s[1..]) ==> lt(s[0].0, key)
    ensures key in MapOf(s) <==> key == s[0].0 || key in MapOf(s[1..])
    ensures key in MapOf(s[1..]) ==> MapOf(s)[key] == MapOf(s[1..])[key]
  {
    assert After(lt, s[0].0, s[1..]);
    if key in MapOf(s[1..]) { AfterKey(lt, s[0].0, s[1..], key); }
  }

  ghost predicate KeysAfter<K, V>(lt: (K, K) -> bool, bound: K, changes: seq<Change<K, V>>) {
    forall i :: 0 <= i < |changes| ==> lt(bound, changes[i].key)
  }

  ghost predicate KeysAscend<K, V>(lt: (K, K) -> bool, changes: seq<Change<K, V>>) {
    forall i, j :: 0 <= i < j < |changes| ==> lt(changes[i].key, changes[j].key)
  }

  lemma {:induction false} MergeAfter<K(!new), V>(lt: (K, K) -> bool, eqv: (V, V) -> bool, bound: K, xs: seq<Bound<K, V>>, ys: seq<Bound<K, V>>)
    requires After(lt, bound, xs) && After(lt, bound, ys)
    ensures KeysAfter(lt, bound, Merge(lt, eqv, xs, ys))
    decreases |xs| + |ys|
  {
    if xs == [] && ys == [] {
    } else if ys == [] || (xs != [] && lt(xs[0].0, ys[0].0)) {
      MergeAfter(lt, eqv, bound, xs[1..], ys);
    } else if xs == [] || lt(ys[0].0, xs[0].0) {
      MergeAfter(lt, eqv, bound, xs, ys[1..]);
    } else {
      MergeAfter(lt, eqv, bound, xs[1..], ys[1..]);
    }
  }

  lemma AfterFromHead<K(!new), V>(lt: (K, K) -> bool, bound: K, s: seq<(K, V)>)
    requires StrictTotal(lt) && Ascending(lt, s) && (s != [] ==> lt(bound, s[0].0))
    ensures After(lt, bound, s)
  {
    forall i | 0 <= i < |s| ensures lt(bound, s[i].0) {
      assert i > 0 ==> lt(s[0].0, s[i].0);
    }
  }

  /** The changes come in strictly ascending key order. */
  lemma {:induction false} MergeAscends<K(!new), V>(lt: (K, K) -> bool, eqv: (V, V) -> bool, xs: seq<Bound<K, V>>, ys: seq<Bound<K, V>>)
    requires StrictTotal(lt) && Ascending(lt, xs) && Ascending(lt, ys)
    ensures KeysAscend(lt, Merge(lt, eqv, xs, ys))
    decreases |xs| + |ys|
  {
    if xs == [] && ys == [] {
    } else if ys == [] || (xs != [] && lt(xs[0].0, ys[0].0)) {
      MergeAscends(lt, eqv, xs[1..], ys);
      assert After(lt, xs[0].0, xs[1..]);
      AfterFromHead(lt, xs[0].0, ys);
      MergeAfter(lt, eqv, xs[0].0, xs[1..], ys);
    } else if xs == [] || lt(ys[0].0, xs[0].0) {
      MergeAscends(lt, eqv, xs, ys[1..]);
      assert After(lt, ys[0].0, ys[1..]);
      AfterFromHead(lt, ys[0].0, xs);
      MergeAfter(lt, eqv, ys[0].0, xs, ys[1..]);
    } else {
      MergeAscends(lt, eqv, xs[1..], ys[1..]);
      assert After(lt, xs[0].0, xs[1..]) && After(lt, xs[0].0, ys[1..]);
      MergeAfter(lt, eqv, xs[0].0, xs[1..], ys[1..]);
    }
  }

  /** A key is reported exactly when the lookups differ. */
  lemma {:induction false} MergeReports<K(!new), V>(lt: (K, K) -> bool, eqv: (V, V) -> bool, xs: seq<Bound<K, V>>, ys: seq<Bound<K, V>>, key: K)
    requires StrictTotal(lt) && Ascending(lt, xs) && Ascending(lt, ys)
    ensures Reports(Merge(lt, eqv, xs, ys), key) <==> Differ(eqv, MapOf(xs), MapOf(ys), key)
    decreases |xs| + |ys|
  {
    if xs != [] { HeadAndTail(lt, xs, key); }
    if ys != [] { HeadAndTail(lt, ys, key); }
    if xs == [] && ys == [] {
    } else if ys == [] || (xs != [] && lt(xs[0].0, ys[0].0)) {
      MergeReports(lt, eqv, xs[1..], ys, key);
      ReportsCons(Change(xs[0].0, Some(xs[0].1.value), None), Merge(lt, eqv, xs[1..], ys), key);
    } else if xs == [] || lt(ys[0].0, xs[0].0) {
      MergeReports(lt, eqv, xs, ys[1..], key);
      ReportsCons(Change(ys[0].0, None, Some(ys[0].1.value)), Merge(lt, eqv, xs, ys[1..]), key);
    } else {
      MergeReports(lt, eqv, xs[1..], ys[1..], key);
      ReportsCons(Change(xs[0].0, Some(xs[0].1.value), Some(ys[0].1.value)), Merge(lt, eqv, xs[1..], ys[1..]), key);
    }
  }

  /** Each change carries what each side binds its key to. */
  lemma {:induction false} MergeValues<K(!new), V>(lt: (K, K) -> bool, eqv: (V, V) -> bool, xs: seq<Bound<K, V>>, ys: seq<Bound<K, V>>, i: nat)
    requires StrictTotal(lt) && Ascending(lt, xs) && Ascending(lt, ys)
    requires i < |Merge(lt, eqv, xs, ys)|
    ensures var c := Merge(lt, eqv, xs, ys)[i];
            c.left == Lookup(Plain(MapOf(xs)), c.key) && c.right == Lookup(Plain(MapOf(ys)), c.key)
    decreases |xs| + |ys|
  {
    var all := Merge(lt, eqv, xs, ys);
    var c := all[i];
    MergeAscends(lt, eqv, xs, ys);
    assert i > 0 ==> lt(all[0].key, c.key);
    if xs != [] { HeadAndTail(lt, xs, c.key); }
    if ys != [] { HeadAndTail(lt, ys, c.key); }
    if ys == [] || (xs != [] && lt(xs[0].0, ys[0].0)) {
      if i > 0 { MergeValues(lt, eqv, xs[1..], ys, i - 1); }
    } else if xs == [] || lt(ys[0].0, xs[0].0) {
      if i > 0 { MergeValues(lt, eqv, xs, ys[1..], i - 1); }
    } else if xs[0].1 == ys[0].1 || eqv(xs[0].1.value, ys[0].1.value) {
      MergeValues(lt, eqv, xs[1..], ys[1..], i);
      assert After(lt, xs[0].0, xs[1..]) && After(lt, xs[0].0, ys[1..]);
      MergeAfter(lt, eqv, xs[0].0, xs[1..], ys[1..]);
    } else if i > 0 {
      MergeValues(lt, eqv, xs[1..], ys[1..], i - 1);
    }
  }

  /** Skipping a shared stretch on both sides loses nothing. */
  lemma {:induction false} MergeSkipsShared<K(!new), V>(lt: (K, K) -> bool, eqv: (V, V) -> bool, shared: seq<Bound<K, V>>, xs: seq<Bound<K, V>>, ys: seq<Bound<K, V>>)
    requires StrictTotal(lt)
    ensures Merge(lt, eqv, shared + xs, shared + ys) == Merge(lt, eqv, xs, ys)
  {
    if shared == [] {
      assert shared + xs == xs && shared + ys == ys;
    } else {
      MergeSkipsShared(lt, eqv, shared[1..], xs, ys);
      assert (shared + xs)[1..] == shared[1..] + xs && (shared + ys)[1..] == shared[1..] + ys;
    }
  }

  /** `changes` are exactly the keys whose lookups differ, once each, ascending, with each side's value. */
  ghost predicate ExactChanges<K(!new), V>(lt: (K, K) -> bool, eqv: (V, V) -> bool, m: map<K, Shared<V>>, n: map<K, Shared<V>>, changes: seq<Change<K, V>>) {
    && KeysAscend(lt, changes)
    && (forall key :: Reports(changes, key) <==> Differ(eqv, m, n, key))
    && (forall i :: 0 <= i < |changes| ==>
          changes[i].left == Lookup(Plain(m), changes[i].key) && changes[i].right == Lookup(Plain(n), changes[i].key))
  }

  /** What the exact changes are in the values alone, when the comparison decides equality. */
  lemma ExactInValue<K(!new), V>(lt: (K, K) -> bool, eqv: (V, V) -> bool, m: map<K, Shared<V>>, n: map<K, Shared<V>>, changes: seq<Change<K, V>>)
    requires ExactChanges(lt, eqv, m, n, changes) && Decides(eqv, m, n)
    ensures forall key :: Reports(changes, key) <==> Lookup(Plain(m), key) != Lookup(Plain(n), key)
  {
    forall key: K ensures Differ(eqv, m, n, key) <==> Lookup(Plain(m), key) != Lookup(Plain(n), key) {
      DifferInValue(eqv, m, n, key);
    }
  }

  lemma MergeIsExact<K(!new), V>(lt: (K, K) -> bool, eqv: (V, V) -> bool, xs: seq<Bound<K, V>>, ys: seq<Bound<K, V>>)
    requires StrictTotal(lt) && Ascending(lt, xs) && Ascending(lt, ys)
    ensures ExactChanges(lt, eqv, MapOf(xs), MapOf(ys), Merge(lt, eqv, xs, ys))
  {
    var m, n, changes := MapOf(xs), MapOf(ys), Merge(lt, eqv, xs, ys);
    MergeAscends(lt, eqv, xs, ys);
    forall key: K ensures Reports(changes, key) <==> Differ(eqv, m, n, key) {
      MergeReports(lt, eqv, xs, ys, key);
    }
    forall i | 0 <= i < |changes|
      ensures changes[i].left == Lookup(Plain(m), changes[i].key) && changes[i].right == Lookup(Plain(n), changes[i].key)
    {
      MergeValues(lt, eqv, xs, ys, i);
    }
  }

  /** The two maps bind the same keys to values that count as equal. */
  ghost predicate Agree<K, V>(eqv: (V, V) -> bool, m: map<K, Shared<V>>, n: map<K, Shared<V>>) {
    m.Keys == n.Keys && forall k <- m :: m[k] == n[k] || eqv(m[k].value, n[k].value)
  }

  lemma AgreeIffNothingReported<K(!new), V>(lt: (K, K) -> bool, eqv: (V, V) -> bool, xs: seq<Bound<K, V>>, ys: seq<Bound<K, V>>)
    requires StrictTotal(lt) && Ascending(lt, xs) && Ascending(lt, ys)
    ensures Merge(lt, eqv, xs, ys) == [] <==> Agree(eqv, MapOf(xs), MapOf(ys))
    ensures Agree(eqv, MapOf(xs), MapOf(ys)) ==> |xs| == |ys|
  {
    var m, n, all := MapOf(xs), MapOf(ys), Merge(lt, eqv, xs, ys);
    MapOfSize(lt, xs);
    MapOfSize(lt, ys);
    forall key: K ensures Reports(all, key) <==> Differ(eqv, m, n, key) {
      MergeReports(lt, eqv, xs, ys, key);
    }
    if all != [] {
      assert Reports(all, all[0].key);
    } else {
      forall k ensures (k in m <==> k in n) && (k in m ==> m[k] == n[k] || eqv(m[k].value, n[k].value)) {
        assert !Reports(all, k);
      }
    }
    assert |m.Keys| == |m| && |n.Keys| == |n|;
  }

  // ---------- the walk ----------

  /** A subtree on top of both stacks at once can be dropped from both. */
  lemma DropShared<K(!new), V>(lt: (K, K) -> bool, eqv: (V, V) -> bool, left: seq<DiffItem<K, V>>, right: seq<DiffItem<K, V>>)
    requires StrictTotal(lt) && Wellformed(left) && Wellformed(right)
    requires left != [] && right != [] && left[|left| - 1] == right[|right| - 1] && left[|left| - 1].Subtree?
    ensures var left', right' := left[..|left| - 1], right[..|right| - 1];
            && Wellformed(left') && Wellformed(right')
            && Merge(lt, eqv, Rest(left'), Rest(right')) == Merge(lt, eqv, Rest(left), Rest(right))
            && Weight(left') < Weight(left) && Weight(right') < Weight(right)
  {
    MergeSkipsShared(lt, eqv, ItemEntries(left[|left| - 1]), Rest(left[..|left| - 1]), Rest(right[..|right| - 1]));
  }

  lemma MeetKeeps<K(!new), V>(lt: (K, K) -> bool, eqv: (V, V) -> bool, left: seq<DiffItem<K, V>>, right: seq<DiffItem<K, V>>)
    requires StrictTotal(lt) && Wellformed(left) && Wellformed(right) && OnSubtree(left) && OnSubtree(right)
    ensures var (left', right', count) := Meet(left, right);
            Merge(lt, eqv, Rest(left'), Rest(right')) == Merge(lt, eqv, Rest(left), Rest(right))
  {
    var l, r := left[|left| - 1].node, right[|right| - 1].node;
    if l == r {
      assert left[|left| - 1] == right[|right| - 1];
      DropShared(lt, eqv, left, right);
    } else if l.height > r.height {
      ExpandKeeps(left);
    } else if l.height < r.height {
      ExpandKeeps(right);
    } else {
      ExpandKeeps(left);
      ExpandKeeps(right);
    }
  }

  /** A turn that meets a subtree, skipping or opening, reports nothing and loses nothing. */
  lemma OpeningKeeps<K(!new), V>(lt: (K, K) -> bool, eqv: (V, V) -> bool, left: seq<DiffItem<K, V>>, right: seq<DiffItem<K, V>>)
    requires StrictTotal(lt) && Wellformed(left) && Wellformed(right) && (OnSubtree(left) || OnSubtree(right))
    ensures var (left', right', count) := Turn(lt, left, right);
            Merge(lt, eqv, Rest(left'), Rest(right')) == Merge(lt, eqv, Rest(left), Rest(right))
  {
    if OnSubtree(left) && OnSubtree(right) {
      MeetKeeps(lt, eqv, left, right);
    } else if OnSubtree(left) {
      ExpandKeeps(left);
    } else {
      ExpandKeeps(right);
    }
  }

  /** Both stacks are in order, and what is opened and still to be opened come to `bill`. */
  ghost predicate Underway<K(!new), V>(lt: (K, K) -> bool, left: seq<DiffItem<K, V>>, right: seq<DiffItem<K, V>>, work: nat, bill: nat) {
    StrictTotal(lt) && Wellformed(left) && Wellformed(right) && work + Openings(lt, left, right) == bill
  }

  /** What a walk still reports. */
  ghost function Changes<K, V>(lt: (K, K) -> bool, eqv: (V, V) -> bool, left: seq<DiffItem<K, V>>, right: seq<DiffItem<K, V>>): seq<Change<K, V>> {
    Merge(lt, eqv, Rest(left), Rest(right))
  }
}
