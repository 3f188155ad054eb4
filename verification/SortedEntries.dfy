/**
 * Strictly ascending entry lists: the plain map a search tree is compared
 * with, and the reference form of every ordered walk over one.
 */
module SortedEntries {
  import opened Ordering

  ghost predicate Ascending<K, V>(lt: (K, K) -> bool, s: seq<(K, V)>) {
    forall i, j :: 0 <= i < j < |s| ==> lt(s[i].0, s[j].0)
  }

  /** All keys of `s` come before `bound`. */
  ghost predicate Before<K, V>(lt: (K, K) -> bool, s: seq<(K, V)>, bound: K) {
    forall i :: 0 <= i < |s| ==> lt(s[i].0, bound)
  }

  /** All keys of `s` come after `bound`. */
  ghost predicate After<K, V>(lt: (K, K) -> bool, bound: K, s: seq<(K, V)>) {
    forall i :: 0 <= i < |s| ==> lt(bound, s[i].0)
  }

  ghost function MapOf<K, V>(s: seq<(K, V)>): map<K, V> {
    if s == [] then map[] else MapOf(s[1..])[s[0].0 := s[0].1]
  }

  /** What `m` binds a key to. */
  ghost function Lookup<K, V>(m: map<K, V>, key: K): Option<V> {
    if key in m then Some(m[key]) else None
  }

  // ---------- update and removal on lists ----------

  ghost function Put<K, V>(lt: (K, K) -> bool, s: seq<(K, V)>, key: K, value: V): seq<(K, V)> {
    if s == [] || lt(key, s[0].0) then [(key, value)] + s
    else if lt(s[0].0, key) then [s[0]] + Put(lt, s[1..], key, value)
    else [(key, value)] + s[1..]
  }

  ghost function Drop<K, V>(lt: (K, K) -> bool, s: seq<(K, V)>, key: K): seq<(K, V)> {
    if s == [] || lt(key, s[0].0) then s
    else if lt(s[0].0, key) then [s[0]] + Drop(lt, s[1..], key)
    else s[1..]
  }

  ghost predicate HasKey<K, V>(s: seq<(K, V)>, key: K) {
    exists i :: 0 <= i < |s| && s[i].0 == key
  }

  // ---------- membership ----------

  lemma {:induction false} MapOfKeys<K, V>(s: seq<(K, V)>, key: K)
    ensures key in MapOf(s) <==> HasKey(s, key)
  {
    if s != [] {
      MapOfKeys(s[1..], key);
      if HasKey(s, key) {
        var i :| 0 <= i < |s| && s[i].0 == key;
        if i > 0 { assert s[1..][i - 1].0 == key; }
      }
      if HasKey(s[1..], key) {
        var i :| 0 <= i < |s[1..]| && s[1..][i].0 == key;
        assert s[i + 1].0 == key;
      }
    }
  }

  lemma {:induction false} MapOfAt<K(!new), V>(lt: (K, K) -> bool, s: seq<(K, V)>, i: nat)
    requires StrictTotal(lt) && Ascending(lt, s) && i < |s|
    ensures s[i].0 in MapOf(s) && MapOf(s)[s[i].0] == s[i].1
  {
    if i > 0 {
      MapOfAt(lt, s[1..], i - 1);
      assert lt(s[0].0, s[i].0);
    }
  }

  lemma {:induction false} MapOfSize<K(!new), V>(lt: (K, K) -> bool, s: seq<(K, V)>)
    requires StrictTotal(lt) && Ascending(lt, s)
    ensures |MapOf(s)| == |s|
  {
    if s != [] {
      MapOfSize(lt, s[1..]);
      MapOfKeys(s[1..], s[0].0);
      forall i | 0 <= i < |s[1..]| ensures s[1..][i].0 != s[0].0 {
        assert lt(s[0].0, s[i + 1].0);
      }
    }
  }

  // ---------- update and removal mean map update and removal ----------

  lemma {:induction false} PutAfter<K(!new), V>(lt: (K, K) -> bool, bound: K, s: seq<(K, V)>, key: K, value: V)
    requires After(lt, bound, s) && lt(bound, key)
    ensures After(lt, bound, Put(lt, s, key, value))
  {
    if s != [] && lt(s[0].0, key) {
      PutAfter(lt, bound, s[1..], key, value);
    }
  }

  lemma {:induction false} PutAscending<K(!new), V>(lt: (K, K) -> bool, s: seq<(K, V)>, key: K, value: V)
    requires StrictTotal(lt) && Ascending(lt, s)
    ensures Ascending(lt, Put(lt, s, key, value))
  {
    if s == [] {
    } else if lt(key, s[0].0) {
      forall i | 0 <= i < |s| ensures lt(key, s[i].0) {
        assert i > 0 ==> lt(s[0].0, s[i].0);
      }
    } else if lt(s[0].0, key) {
      PutAscending(lt, s[1..], key, value);
      PutAfter(lt, s[0].0, s[1..], key, value);
    }
  }

  lemma {:induction false} PutMeansUpdate<K(!new), V>(lt: (K, K) -> bool, s: seq<(K, V)>, key: K, value: V)
    requires StrictTotal(lt)
    ensures MapOf(Put(lt, s, key, value)) == MapOf(s)[key := value]
  {
    if s == [] || lt(key, s[0].0) {
      assert ([(key, value)] + s)[1..] == s;
    } else if lt(s[0].0, key) {
      PutMeansUpdate(lt, s[1..], key, value);
      assert ([s[0]] + Put(lt, s[1..], key, value))[1..] == Put(lt, s[1..], key, value);
    } else {
      assert ([(key, value)] + s[1..])[1..] == s[1..];
    }
  }

  lemma {:induction false} DropAfter<K(!new), V>(lt: (K, K) -> bool, bound: K, s: seq<(K, V)>, key: K)
    requires After(lt, bound, s)
    ensures After(lt, bound, Drop(lt, s, key))
  {
    if s != [] && lt(s[0].0, key) {
      DropAfter(lt, bound, s[1..], key);
    }
  }

  lemma {:induction false} DropAscending<K(!new), V>(lt: (K, K) -> bool, s: seq<(K, V)>, key: K)
    requires StrictTotal(lt) && Ascending(lt, s)
    ensures Ascending(lt, Drop(lt, s, key))
  {
    if s != [] && lt(s[0].0, key) {
      DropAscending(lt, s[1..], key);
      assert After(lt, s[0].0, s[1..]);
      DropAfter(lt, s[0].0, s[1..], key);
    }
  }

  /** Nothing that comes after `bound` is `bound`. */
  lemma AfterHasNoKey<K(!new), V>(lt: (K, K) -> bool, bound: K, s: seq<(K, V)>)
    requires StrictTotal(lt) && After(lt, bound, s)
    ensures bound !in MapOf(s)
  {
    MapOfKeys(s, bound);
  }

  lemma {:induction false} DropMeansRemoval<K(!new), V>(lt: (K, K) -> bool, s: seq<(K, V)>, key: K)
    requires StrictTotal(lt) && Ascending(lt, s)
    ensures MapOf(Drop(lt, s, key)) == MapOf(s) - {key}
  {
    if s == [] {
    } else if lt(key, s[0].0) {
      assert After(lt, key, s) by {
        forall i | 0 <= i < |s| ensures lt(key, s[i].0) {
          assert i > 0 ==> lt(s[0].0, s[i].0);
        }
      }
      AfterHasNoKey(lt, key, s);
    } else if lt(s[0].0, key) {
      DropMeansRemoval(lt, s[1..], key);
      assert ([s[0]] + Drop(lt, s[1..], key))[1..] == Drop(lt, s[1..], key);
    } else {
      assert After(lt, key, s[1..]);
      AfterHasNoKey(lt, key, s[1..]);
    }
  }

  // ---------- where an update falls around a middle entry ----------

  lemma {:induction false} PutLeft<K, V>(lt: (K, K) -> bool, a: seq<(K, V)>, e: (K, V), b: seq<(K, V)>, key: K, value: V)
    requires lt(key, e.0)
    ensures Put(lt, a + [e] + b, key, value) == Put(lt, a, key, value) + [e] + b
  {
    if a == [] {
      assert a + [e] + b == [e] + b;
    } else {
      PutLeft(lt, a[1..], e, b, key, value);
      assert (a + [e] + b)[1..] == a[1..] + [e] + b;
    }
  }

  lemma {:induction false} PutRight<K(!new), V>(lt: (K, K) -> bool, a: seq<(K, V)>, e: (K, V), b: seq<(K, V)>, key: K, value: V)
    requires StrictTotal(lt) && Before(lt, a, e.0) && lt(e.0, key)
    ensures Put(lt, a + [e] + b, key, value) == a + [e] + Put(lt, b, key, value)
  {
    if a == [] {
      assert a + [e] + b == [e] + b;
    } else {
      PutRight(lt, a[1..], e, b, key, value);
      assert (a + [e] + b)[1..] == a[1..] + [e] + b;
      assert lt(a[0].0, e.0);
    }
  }

  lemma {:induction false} PutAt<K(!new), V>(lt: (K, K) -> bool, a: seq<(K, V)>, e: (K, V), b: seq<(K, V)>, value: V)
    requires StrictTotal(lt) && Before(lt, a, e.0)
    ensures Put(lt, a + [e] + b, e.0, value) == a + [(e.0, value)] + b
  {
    if a == [] {
      assert a + [e] + b == [e] + b;
    } else {
      PutAt(lt, a[1..], e, b, value);
      assert (a + [e] + b)[1..] == a[1..] + [e] + b;
      assert lt(a[0].0, e.0);
    }
  }

  lemma {:induction false} DropLeft<K(!new), V>(lt: (K, K) -> bool, a: seq<(K, V)>, e: (K, V), b: seq<(K, V)>, key: K)
    requires StrictTotal(lt) && lt(key, e.0)
    ensures Drop(lt, a + [e] + b, key) == Drop(lt, a, key) + [e] + b
  {
    if a == [] {
      assert a + [e] + b == [e] + b;
    } else {
      DropLeft(lt, a[1..], e, b, key);
      assert (a + [e] + b)[1..] == a[1..] + [e] + b;
    }
  }

  lemma {:induction false} DropRight<K(!new), V>(lt: (K, K) -> bool, a: seq<(K, V)>, e: (K, V), b: seq<(K, V)>, key: K)
    requires StrictTotal(lt) && Before(lt, a, e.0) && lt(e.0, key)
    ensures Drop(lt, a + [e] + b, key) == a + [e] + Drop(lt, b, key)
  {
    if a == [] {
      assert a + [e] + b == [e] + b;
    } else {
      DropRight(lt, a[1..], e, b, key);
      assert (a + [e] + b)[1..] == a[1..] + [e] + b;
      assert lt(a[0].0, e.0);
    }
  }

  lemma {:induction false} DropAt<K(!new), V>(lt: (K, K) -> bool, a: seq<(K, V)>, e: (K, V), b: seq<(K, V)>)
    requires StrictTotal(lt) && Before(lt, a, e.0)
    ensures Drop(lt, a + [e] + b, e.0) == a + b
  {
    if a == [] {
      assert a + [e] + b == [e] + b;
    } else {
      DropAt(lt, a[1..], e, b);
      assert (a + [e] + b)[1..] == a[1..] + [e] + b;
      assert lt(a[0].0, e.0);
    }
  }

  lemma AscendingParts<K, V>(lt: (K, K) -> bool, a: seq<(K, V)>, e: (K, V), b: seq<(K, V)>)
    requires Ascending(lt, a + [e] + b)
    ensures Ascending(lt, a) && Ascending(lt, b) && Before(lt, a, e.0) && After(lt, e.0, b)
  {
    var s := a + [e] + b;
    assert s[|a|] == e;
    assert forall i :: 0 <= i < |a| ==> s[i] == a[i];
    assert forall i :: 0 <= i < |b| ==> s[|a| + 1 + i] == b[i];
  }

  // ---------- looking up ----------

  /** Earlier entries win. */
  lemma {:induction false} MapOfConcat<K, V>(a: seq<(K, V)>, b: seq<(K, V)>)
    ensures MapOf(a + b) == MapOf(b) + MapOf(a)
  {
    if a == [] {
      assert a + b == b;
    } else {
      MapOfConcat(a[1..], b);
      assert (a + b)[1..] == a[1..] + b;
    }
  }

  lemma BeforeKey<K(!new), V>(lt: (K, K) -> bool, s: seq<(K, V)>, bound: K, key: K)
    requires Before(lt, s, bound) && key in MapOf(s)
    ensures lt(key, bound)
  {
    MapOfKeys(s, key);
  }

  lemma AfterKey<K(!new), V>(lt: (K, K) -> bool, bound: K, s: seq<(K, V)>, key: K)
    requires After(lt, bound, s) && key in MapOf(s)
    ensures lt(bound, key)
  {
    MapOfKeys(s, key);
  }

  // ---------- strict neighbours ----------

  /** The last entry whose key is below `key`. */
  ghost function LastBelow<K, V>(lt: (K, K) -> bool, s: seq<(K, V)>, key: K): Option<(K, V)> {
    if s == [] then None
    else if lt(s[|s| - 1].0, key) then Some(s[|s| - 1])
    else LastBelow(lt, s[..|s| - 1], key)
  }

  /** The first entry whose key is above `key`. */
  ghost function FirstAbove<K, V>(lt: (K, K) -> bool, key: K, s: seq<(K, V)>): Option<(K, V)> {
    if s == [] then None
    else if lt(key, s[0].0) then Some(s[0])
    else FirstAbove(lt, key, s[1..])
  }

  function OrElse<A>(a: Option<A>, b: Option<A>): Option<A> {
    if a.Some? then a else b
  }

  lemma {:induction false} LastBelowConcat<K, V>(lt: (K, K) -> bool, a: seq<(K, V)>, b: seq<(K, V)>, key: K)
    ensures LastBelow(lt, a + b, key) == OrElse(LastBelow(lt, b, key), LastBelow(lt, a, key))
  {
    if b == [] {
      assert a + b == a;
    } else {
      LastBelowConcat(lt, a, b[..|b| - 1], key);
      assert (a + b)[..|a + b| - 1] == a + b[..|b| - 1];
    }
  }

  lemma {:induction false} FirstAboveConcat<K, V>(lt: (K, K) -> bool, key: K, a: seq<(K, V)>, b: seq<(K, V)>)
    ensures FirstAbove(lt, key, a + b) == OrElse(FirstAbove(lt, key, a), FirstAbove(lt, key, b))
  {
    if a == [] {
      assert a + b == b;
    } else {
      FirstAboveConcat(lt, key, a[1..], b);
      assert (a + b)[1..] == a[1..] + b;
    }
  }

  lemma {:induction false} NoneBelow<K(!new), V>(lt: (K, K) -> bool, s: seq<(K, V)>, key: K)
    requires forall i :: 0 <= i < |s| ==> !lt(s[i].0, key)
    ensures LastBelow(lt, s, key) == None
  {
    if s != [] { NoneBelow(lt, s[..|s| - 1], key); }
  }

  lemma {:induction false} NoneAbove<K(!new), V>(lt: (K, K) -> bool, key: K, s: seq<(K, V)>)
    requires forall i :: 0 <= i < |s| ==> !lt(key, s[i].0)
    ensures FirstAbove(lt, key, s) == None
  {
    if s != [] { NoneAbove(lt, key, s[1..]); }
  }

  /** `k` is the greatest key of `m` strictly below `key`. */
  ghost predicate Predecessor<K, V>(lt: (K, K) -> bool, m: map<K, V>, key: K, k: K) {
    k in m && lt(k, key) && forall other <- m :: lt(other, key) ==> !lt(k, other)
  }

  /** `k` is the least key of `m` strictly above `key`. */
  ghost predicate Successor<K, V>(lt: (K, K) -> bool, m: map<K, V>, key: K, k: K) {
    k in m && lt(key, k) && forall other <- m :: lt(key, other) ==> !lt(other, k)
  }

  lemma {:induction false} LastBelowAt<K, V>(lt: (K, K) -> bool, s: seq<(K, V)>, key: K) returns (i: int)
    ensures -1 <= i < |s| && LastBelow(lt, s, key) == if i < 0 then None else Some(s[i])
    ensures i >= 0 ==> lt(s[i].0, key)
    ensures forall j :: i < j < |s| ==> !lt(s[j].0, key)
  {
    if s == [] { return -1; }
    if lt(s[|s| - 1].0, key) { return |s| - 1; }
    i := LastBelowAt(lt, s[..|s| - 1], key);
  }

  lemma {:induction false} FirstAboveAt<K, V>(lt: (K, K) -> bool, key: K, s: seq<(K, V)>) returns (i: nat)
    ensures i <= |s| && FirstAbove(lt, key, s) == if i == |s| then None else Some(s[i])
    ensures i < |s| ==> lt(key, s[i].0)
    ensures forall j :: 0 <= j < i ==> !lt(key, s[j].0)
  {
    if s == [] { return 0; }
    if lt(key, s[0].0) { return 0; }
    i := FirstAboveAt(lt, key, s[1..]);
    i := i + 1;
  }

  /** On an ascending list, the last entry below is the map's strict predecessor. */
  lemma LastBelowIsPredecessor<K(!new), V>(lt: (K, K) -> bool, s: seq<(K, V)>, key: K)
    requires StrictTotal(lt) && Ascending(lt, s)
    ensures LastBelow(lt, s, key) == None ==> forall k <- MapOf(s) :: !lt(k, key)
    ensures forall e :: LastBelow(lt, s, key) == Some(e) ==>
              Predecessor(lt, MapOf(s), key, e.0) && MapOf(s)[e.0] == e.1
  {
    var i := LastBelowAt(lt, s, key);
    if i >= 0 { MapOfAt(lt, s, i); }
    forall k | k in MapOf(s) && lt(k, key) ensures i >= 0 && !lt(s[i].0, k) {
      MapOfKeys(s, k);
    }
  }

  lemma FirstAboveIsSuccessor<K(!new), V>(lt: (K, K) -> bool, key: K, s: seq<(K, V)>)
    requires StrictTotal(lt) && Ascending(lt, s)
    ensures FirstAbove(lt, key, s) == None ==> forall k <- MapOf(s) :: !lt(key, k)
    ensures forall e :: FirstAbove(lt, key, s) == Some(e) ==>
              Successor(lt, MapOf(s), key, e.0) && MapOf(s)[e.0] == e.1
  {
    var i := FirstAboveAt(lt, key, s);
    if i < |s| { MapOfAt(lt, s, i); }
    forall k | k in MapOf(s) && lt(key, k) ensures i < |s| && !lt(k, s[i].0) {
      MapOfKeys(s, k);
    }
  }
}
