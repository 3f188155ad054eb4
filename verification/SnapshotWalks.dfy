/**
 * Lazy bounded walks over the snapshot tree in either direction, what they
 * yield of the points recorded, and the newest-first reading of the log.
 */
module SnapshotWalks {
  import opened Ordering
  import opened Sequences
  import opened Machine
  import opened SortedEntries
  import opened AvlTree
  import opened Selectors
  import opened LoopLabels
  import opened Snapshots
  import opened Deadlines

  predicate Within(lower: Selector, upper: Selector, k: Selector) {
    !SelectorLess(k, lower) && !SelectorLess(upper, k)
  }

  /** The entries of a tree in walking order. */
  ghost function Walk<S>(t: SnapshotTree<S>, descending: bool): seq<(Selector, Option<S>)> {
    match t
    case Leaf => []
    case Node(k, v, l, r, _) =>
      if descending then Walk(r, true) + [(k, v)] + Walk(l, true) else Walk(l, false) + [(k, v)] + Walk(r, false)
  }

  /** What a walk yields at one entry: nothing out of bounds or at a tombstone. */
  ghost function Yield<S>(lower: Selector, upper: Selector, entry: (Selector, Option<S>)): seq<(Selector, S)> {
    if Within(lower, upper, entry.0) && entry.1.Some? then [(entry.0, entry.1.value)] else []
  }

  /** What a walk yields of `s`: the bound points between the bounds. */
  ghost function Visible<S>(lower: Selector, upper: Selector, s: seq<(Selector, Option<S>)>): seq<(Selector, S)> {
    if s == [] then [] else Yield(lower, upper, s[0]) + Visible(lower, upper, s[1..])
  }

  lemma {:induction false} VisibleConcat<S>(lower: Selector, upper: Selector, a: seq<(Selector, Option<S>)>, b: seq<(Selector, Option<S>)>)
    ensures Visible(lower, upper, a + b) == Visible(lower, upper, a) + Visible(lower, upper, b)
  {
    if a == [] {
      assert a + b == b;
    } else {
      VisibleConcat(lower, upper, a[1..], b);
      assert (a + b)[1..] == a[1..] + b;
      assert (a + b)[0] == a[0];
      Three(Yield(lower, upper, a[0]), Visible(lower, upper, a[1..]), Visible(lower, upper, b));
    }
  }

  lemma VisibleOne<S>(lower: Selector, upper: Selector, entry: (Selector, Option<S>))
    ensures Visible(lower, upper, [entry]) == Yield(lower, upper, entry)
  {
    assert [entry][1..] == [];
    assert Visible<S>(lower, upper, []) == [];
  }

  lemma {:induction false} VisibleMember<S>(lower: Selector, upper: Selector, s: seq<(Selector, Option<S>)>, k: Selector, v: S)
    ensures (k, v) in Visible(lower, upper, s) <==> (k, Some(v)) in s && Within(lower, upper, k)
  {
    if s != [] {
      VisibleMember(lower, upper, s[1..], k, v);
      assert s == [s[0]] + s[1..];
    }
  }

  // ---------- the walking order is the sorted order, or its reverse ----------

  lemma {:induction false} WalkIsEntries<S>(t: SnapshotTree<S>, descending: bool)
    ensures Walk(t, descending) == if descending then Reversed(Entries(t)) else Entries(t)
  {
    if t.Node? {
      WalkIsEntries(t.left, descending);
      WalkIsEntries(t.right, descending);
      if descending {
        var l, e, r := Entries(t.left), [(t.key, t.value)], Entries(t.right);
        ReversedConcat(l + e, r);
        ReversedConcat(l, e);
        assert Reversed(e) == e;
        assert Reversed(r) + (e + Reversed(l)) == Reversed(r) + e + Reversed(l);
      }
    }
  }

  predicate InOrder(descending: bool, a: Selector, b: Selector) {
    if descending then SelectorLess(b, a) else SelectorLess(a, b)
  }

  ghost predicate Ordered<V>(descending: bool, s: seq<(Selector, V)>) {
    forall i, j :: 0 <= i < j < |s| ==> InOrder(descending, s[i].0, s[j].0)
  }

  lemma {:induction false} VisibleOrdered<S>(lower: Selector, upper: Selector, s: seq<(Selector, Option<S>)>, descending: bool)
    requires Ordered(descending, s)
    ensures Ordered(descending, Visible(lower, upper, s))
  {
    if s != [] {
      VisibleOrdered(lower, upper, s[1..], descending);
      var rest := Visible(lower, upper, s[1..]);
      forall i | 0 <= i < |rest| ensures InOrder(descending, s[0].0, rest[i].0) {
        VisibleMember(lower, upper, s[1..], rest[i].0, rest[i].1);
        var j :| 0 <= j < |s[1..]| && s[1..][j] == (rest[i].0, Some(rest[i].1));
        assert s[j + 1] == (rest[i].0, Some(rest[i].1));
      }
    }
  }

  /** `out` lists exactly the points `m` binds between the bounds, once each, in order. */
  ghost predicate Listing<S(!new)>(m: map<Selector, S>, lower: Selector, upper: Selector, descending: bool, out: seq<(Selector, S)>) {
    && Ordered(descending, out)
    && forall k, v :: (k, v) in out <==> k in m && m[k] == v && Within(lower, upper, k)
  }

  lemma EntryMember<V>(s: seq<(Selector, V)>, k: Selector, v: V)
    requires StrictTotal(SelectorLess) && Ascending(SelectorLess, s)
    ensures (k, v) in s <==> k in MapOf(s) && MapOf(s)[k] == v
  {
    MapOfKeys(s, k);
    if (k, v) in s {
      var i :| 0 <= i < |s| && s[i] == (k, v);
      MapOfAt(SelectorLess, s, i);
    }
    if k in MapOf(s) {
      var i :| 0 <= i < |s| && s[i].0 == k;
      MapOfAt(SelectorLess, s, i);
      assert s[i] in s;
    }
  }

  /** What an uninterrupted walk yields, in terms of the points recorded. */
  lemma WalkLists<S(!new)>(t: SnapshotTree<S>, lower: Selector, upper: Selector, descending: bool)
    requires Search(SelectorLess, t)
    ensures Listing(Live(t), lower, upper, descending, Visible(lower, upper, Walk(t, descending)))
  {
    SelectorOrder();
    var walk, entries := Walk(t, descending), Entries(t);
    WalkIsEntries(t, descending);
    assert Ordered(descending, walk);
    VisibleOrdered(lower, upper, walk, descending);
    forall k, v ensures (k, v) in Visible(lower, upper, walk) <==> k in Live(t) && Live(t)[k] == v && Within(lower, upper, k) {
      VisibleMember(lower, upper, walk, k, v);
      EntryMember(entries, k, Some(v));
      ReversedMember(entries, (k, Some(v)));
    }
  }

  /** The child a walk visits before a node, and the one it visits after. */
  function Nearer<S>(t: SnapshotTree<S>, descending: bool): SnapshotTree<S>
    requires t.Node?
  {
    if descending then t.right else t.left
  }

  function Farther<S>(t: SnapshotTree<S>, descending: bool): SnapshotTree<S>
    requires t.Node?
  {
    if descending then t.left else t.right
  }

  /** What a node in bounds yields itself: nothing for a tombstone. */
  ghost function Own<S>(t: SnapshotTree<S>): seq<(Selector, S)>
    requires t.Node?
  {
    if t.value.Some? then [(t.key, t.value.value)] else []
  }

  /** What the nodes on a stack, its top last, have yet to yield. */
  ghost function StackRest<S>(lower: Selector, upper: Selector, descending: bool, stack: seq<SnapshotTree<S>>): seq<(Selector, S)>
    requires Pending(lower, upper, stack)
  {
    if stack == [] then []
    else
      var t := stack[|stack| - 1];
      Own(t) + (Visible(lower, upper, Walk(Farther(t, descending), descending))
                + StackRest(lower, upper, descending, stack[..|stack| - 1]))
  }

  ghost predicate Pending<S>(lower: Selector, upper: Selector, stack: seq<SnapshotTree<S>>) {
    stack != [] ==>
      var t := stack[|stack| - 1];
      t.Node? && Search(SelectorLess, t) && Within(lower, upper, t.key) && Pending(lower, upper, stack[..|stack| - 1])
  }

  lemma {:induction false} NothingVisible<S>(lower: Selector, upper: Selector, s: seq<(Selector, Option<S>)>)
    requires forall i :: 0 <= i < |s| ==> !Within(lower, upper, s[i].0)
    ensures Visible(lower, upper, s) == []
  {
    if s != [] { NothingVisible(lower, upper, s[1..]); }
  }

  lemma BelowInvisible<S>(lower: Selector, upper: Selector, descending: bool, t: SnapshotTree<S>, bound: Selector)
    requires Before(SelectorLess, Entries(t), bound) && !SelectorLess(lower, bound)
    ensures Visible(lower, upper, Walk(t, descending)) == []
  {
    SelectorOrder();
    WalkIsEntries(t, descending);
    NothingVisible(lower, upper, Walk(t, descending));
  }

  lemma AboveInvisible<S>(lower: Selector, upper: Selector, descending: bool, t: SnapshotTree<S>, bound: Selector)
    requires After(SelectorLess, bound, Entries(t)) && !SelectorLess(bound, upper)
    ensures Visible(lower, upper, Walk(t, descending)) == []
  {
    SelectorOrder();
    WalkIsEntries(t, descending);
    NothingVisible(lower, upper, Walk(t, descending));
  }

  lemma VisibleParts<S>(lower: Selector, upper: Selector, descending: bool, t: SnapshotTree<S>)
    requires t.Node?
    ensures Visible(lower, upper, Walk(t, descending)) ==
            Visible(lower, upper, Walk(Nearer(t, descending), descending))
            + ((if Within(lower, upper, t.key) then Own(t) else [])
               + Visible(lower, upper, Walk(Farther(t, descending), descending)))
  {
    var near, e, far := Walk(Nearer(t, descending), descending), [(t.key, t.value)], Walk(Farther(t, descending), descending);
    assert Walk(t, descending) == near + e + far;
    VisibleConcat(lower, upper, near + e, far);
    VisibleConcat(lower, upper, near, e);
    VisibleOne(lower, upper, (t.key, t.value));
    Three(Visible(lower, upper, near), Visible(lower, upper, e), Visible(lower, upper, far));
  }

  /** Outside the bounds, a node and one whole side of it are skipped unseen. */
  lemma SeekSkips<S>(lower: Selector, upper: Selector, descending: bool, t: SnapshotTree<S>)
    requires Search(SelectorLess, t) && t.Node? && !Within(lower, upper, t.key)
    ensures Visible(lower, upper, Walk(t, descending)) ==
            if SelectorLess(t.key, lower) then Visible(lower, upper, Walk(t.right, descending))
            else Visible(lower, upper, Walk(t.left, descending))
  {
    SelectorOrder();
    SearchParts(SelectorLess, t);
    VisibleParts(lower, upper, descending, t);
    if SelectorLess(t.key, lower) {
      BelowInvisible(lower, upper, descending, t.left, t.key);
    } else {
      AboveInvisible(lower, upper, descending, t.right, t.key);
    }
  }

  /** Pushing a node in bounds defers it and its farther side. */
  lemma PushDefers<S>(lower: Selector, upper: Selector, descending: bool, stack: seq<SnapshotTree<S>>, t: SnapshotTree<S>)
    requires Pending(lower, upper, stack) && Search(SelectorLess, t) && t.Node? && Within(lower, upper, t.key)
    ensures Pending(lower, upper, stack + [t])
    ensures Visible(lower, upper, Walk(Nearer(t, descending), descending)) + StackRest(lower, upper, descending, stack + [t])
            == Visible(lower, upper, Walk(t, descending)) + StackRest(lower, upper, descending, stack)
    ensures Size(Nearer(t, descending)) + Weight(descending, stack + [t]) == Size(t) + Weight(descending, stack)
  {
    assert (stack + [t])[..|stack|] == stack;
    VisibleParts(lower, upper, descending, t);
    Four(Visible(lower, upper, Walk(Nearer(t, descending), descending)), Own(t),
              Visible(lower, upper, Walk(Farther(t, descending), descending)), StackRest(lower, upper, descending, stack));
  }

  class RecordedSnapshotRange<S> {
    const lower: Selector
    const upper: Selector
    const descending: bool
    /** What the deadline is found to be at each check of it, and the checks made so far. */
    const expires: nat -> bool
    var checks: nat
    var stack: seq<SnapshotTree<S>>
    var stopped: bool

    ghost predicate Valid()
      reads this
    {
      Pending(lower, upper, stack)
    }

    ghost function Remaining(): seq<(Selector, S)>
      requires Valid()
      reads this
    {
      StackRest(lower, upper, descending, stack)
    }

    constructor (root: SnapshotTree<S>, lower: Selector, upper: Selector, descending: bool, expires: nat -> bool, checks: nat)
      requires Search(SelectorLess, root)
      ensures Valid() && this.lower == lower && this.upper == upper && this.descending == descending
      ensures this.expires == expires && checks <= this.checks && (stopped <==> Expired(expires, checks, this.checks))
      ensures !stopped ==> Remaining() == Visible(lower, upper, Walk(root, descending))
    {
      this.lower, this.upper, this.descending, this.expires := lower, upper, descending, expires;
      var seeking, halted, made := Seek([], lower, upper, descending, root, expires, checks);
      stack, stopped, this.checks := seeking, halted, made;
    }

    /**
     * Yields the next recorded point, skipping tombstones; nothing once the
     * walk is over, or stopped, which is exactly when a check of the deadline
     * made so far has found it expired.
     */
    method Next() returns (item: Option<(Selector, S)>)
      requires Valid()
      modifies this
      ensures Valid()
      ensures old(checks) <= checks && (stopped <==> old(stopped) || Expired(expires, old(checks), checks))
      ensures stopped ==> item == None
      ensures !stopped && old(Remaining()) == [] ==> item == None && Remaining() == []
      ensures !stopped && old(Remaining()) != [] ==> item == Some(old(Remaining())[0]) && Remaining() == old(Remaining())[1..]
    {
      while !stopped
        invariant Valid()
        invariant old(checks) <= checks && (stopped <==> old(stopped) || Expired(expires, old(checks), checks))
        invariant !stopped ==> Remaining() == old(Remaining())
        decreases !stopped, Weight(descending, stack)
      {
        var expired;
        expired, checks := Check(expires, checks, old(checks));
        if expired {
          stopped, stack := true, [];
          return None;
        }
        if stack == [] {
          return None;
        }
        ghost var before := checks;
        var node := Pop();
        ExpiredOn(expires, old(checks), before, checks);
        if stopped {
          return None;
        }
        if node.value.Some? {
          return Some((node.key, node.value.value));
        }
      }
      return None;
    }

    /** Takes the node on top of the stack and descends into its farther side. */
    method Pop() returns (node: SnapshotTree<S>)
      requires Valid() && !stopped && stack != []
      modifies this`stack, this`stopped, this`checks
      ensures Valid() && node.Node?
      ensures old(checks) <= checks && (stopped <==> Expired(expires, old(checks), checks))
      ensures !stopped ==> Own(node) + Remaining() == old(Remaining()) && Weight(descending, stack) < old(Weight(descending, stack))
    {
      node := stack[|stack| - 1];
      var far := Farther(node, descending);
      SearchParts(SelectorLess, node);
      var popped := stack[..|stack| - 1];
      assert Remaining() == Own(node) + (Visible(lower, upper, Walk(far, descending)) + StackRest(lower, upper, descending, popped));
      stack, stopped, checks := Seek(popped, lower, upper, descending, far, expires, checks);
    }
  }

  ghost function Weight<S>(descending: bool, stack: seq<SnapshotTree<S>>): nat {
    if stack == [] || stack[|stack| - 1].Leaf? then 0
    else 1 + Size(Farther(stack[|stack| - 1], descending)) + Weight(descending, stack[..|stack| - 1])
  }

  /** Descends to the first node in bounds, remembering the nodes to come back to. */
  method Seek<S>(start: seq<SnapshotTree<S>>, lower: Selector, upper: Selector, descending: bool, root: SnapshotTree<S>,
                 expires: nat -> bool, made: nat)
    returns (stack: seq<SnapshotTree<S>>, stopped: bool, checks: nat)
    requires Pending(lower, upper, start) && Search(SelectorLess, root)
    ensures Pending(lower, upper, stack)
    ensures made <= checks && (stopped <==> Expired(expires, made, checks))
    ensures !stopped ==>
              && StackRest(lower, upper, descending, stack)
                 == Visible(lower, upper, Walk(root, descending)) + StackRest(lower, upper, descending, start)
              && Weight(descending, stack) <= Size(root) + Weight(descending, start)
  {
    stack, stopped, checks := start, false, made;
    var node := root;
    while node.Node?
      invariant Owing(lower, upper, descending, start, root, stack, node) && !stopped
      invariant made <= checks && !Expired(expires, made, checks)
      decreases node
    {
      var expired;
      expired, checks := Check(expires, checks, made);
      if expired {
        return [], true, checks;
      }
      stack, node := Descend(start, root, stack, lower, upper, descending, node);
    }
  }

  /** The stack and the subtree at `node` still hold what `start` and the subtree at `root` did, and no more work. */
  ghost predicate Owing<S>(lower: Selector, upper: Selector, descending: bool, start: seq<SnapshotTree<S>>, root: SnapshotTree<S>,
                           stack: seq<SnapshotTree<S>>, node: SnapshotTree<S>)
    requires Pending(lower, upper, start)
  {
    && Pending(lower, upper, stack) && Search(SelectorLess, node)
    && Visible(lower, upper, Walk(node, descending)) + StackRest(lower, upper, descending, stack)
       == Visible(lower, upper, Walk(root, descending)) + StackRest(lower, upper, descending, start)
    && Size(node) + Weight(descending, stack) <= Size(root) + Weight(descending, start)
  }

  /** One step of the descent: past the bounds to the side within, otherwise remembering the node. */
  method Descend<S>(ghost start: seq<SnapshotTree<S>>, ghost root: SnapshotTree<S>, stack: seq<SnapshotTree<S>>,
                    lower: Selector, upper: Selector, descending: bool, node: SnapshotTree<S>)
    returns (pending: seq<SnapshotTree<S>>, next: SnapshotTree<S>)
    requires Pending(lower, upper, start) && Owing(lower, upper, descending, start, root, stack, node) && node.Node?
    ensures Owing(lower, upper, descending, start, root, pending, next) && next < node
  {
    SearchParts(SelectorLess, node);
    if SelectorLess(node.key, lower) {
      SeekSkips(lower, upper, descending, node);
      return stack, node.right;
    } else if SelectorLess(upper, node.key) {
      SeekSkips(lower, upper, descending, node);
      return stack, node.left;
    }
    PushDefers(lower, upper, descending, stack, node);
    return stack + [node], Nearer(node, descending);
  }

  // ---------- the statement entries nearest an anchor ----------

  /** Drains a walk; `cancelled` exactly when a check of the deadline found it expired. */
  method Drain<S>(range: RecordedSnapshotRange<S>) returns (out: seq<(Selector, S)>, cancelled: bool)
    requires range.Valid()
    modifies range
    ensures cancelled == range.stopped
    ensures old(range.checks) <= range.checks
    ensures cancelled <==> old(range.stopped) || Expired(range.expires, old(range.checks), range.checks)
    ensures !cancelled ==> out == old(range.Remaining())
    ensures cancelled && !old(range.stopped) ==> out <= old(range.Remaining())
    decreases if range.stopped then 0 else 1 + |range.Remaining()|
  {
    var item := range.Next();
    if item == None {
      return [], range.stopped;
    }
    ghost var made := range.checks;
    out, cancelled := Drain(range);
    ExpiredOn(range.expires, old(range.checks), made, range.checks);
    out := [item.value] + out;
  }

  /** The statement entry points among `points`, as indexes with their states. */
  ghost function StatementEntries<S>(points: seq<(Selector, S)>): seq<(USize, S)> {
    if points == [] then []
    else OneEntry(points[0]) + StatementEntries(points[1..])
  }

  function OneEntry<S>(point: (Selector, S)): seq<(USize, S)> {
    if point.0.ProgramPoint? && point.0.kind.AtEntry? && point.0.region.Statement?
    then [(point.0.region.index, point.1)] else []
  }

  function EntryOf(index: USize): Selector {
    ProgramPoint(Statement(index), AtEntry)
  }

  function ExitOf(index: USize): Selector {
    ProgramPoint(Statement(index), AtExit)
  }

  lemma {:induction false} StatementEntriesMember<S>(points: seq<(Selector, S)>, i: USize, v: S)
    ensures (i, v) in StatementEntries(points) <==> (EntryOf(i), v) in points
  {
    if points != [] {
      StatementEntriesMember(points[1..], i, v);
      assert points == [points[0]] + points[1..];
      assert (i, v) in OneEntry(points[0]) <==> points[0] == (EntryOf(i), v);
    }
  }

  ghost predicate Rising<S>(entries: seq<(USize, S)>) {
    forall i, j :: 0 <= i < j < |entries| ==> entries[i].0 < entries[j].0
  }

  ghost predicate Falling<S>(entries: seq<(USize, S)>) {
    forall i, j :: 0 <= i < j < |entries| ==> entries[j].0 < entries[i].0
  }

  lemma {:induction false} StatementEntriesOrdered<S>(points: seq<(Selector, S)>, descending: bool)
    requires Ordered(descending, points)
    ensures if descending then Falling(StatementEntries(points)) else Rising(StatementEntries(points))
  {
    if points != [] {
      StatementEntriesOrdered(points[1..], descending);
      var rest := StatementEntries(points[1..]);
      if OneEntry(points[0]) != [] {
        var first := points[0].0.region.index;
        forall j | 0 <= j < |rest| ensures if descending then rest[j].0 < first else first < rest[j].0 {
          StatementEntriesMember(points[1..], rest[j].0, rest[j].1);
          var n :| 0 <= n < |points[1..]| && points[1..][n] == (EntryOf(rest[j].0), rest[j].1);
          assert InOrder(descending, points[0].0, points[n + 1].0);
        }
      }
    }
  }

  /** At or before the anchor in descending order, then after it in ascending order. */
  predicate NearerFirst(anchor: USize, a: USize, b: USize) {
    if a <= anchor then b < a || b > anchor else b > a
  }

  /** `out` lists every recorded statement entry once, nearest first. */
  ghost predicate NearestEntries<S(!new)>(m: map<Selector, S>, anchor: USize, out: seq<(USize, S)>) {
    && (forall i, j :: 0 <= i < j < |out| ==> NearerFirst(anchor, out[i].0, out[j].0))
    && (forall i: USize, v :: (i, v) in out <==> Lookup(m, ProgramPoint(Statement(i), AtEntry)) == Some(v))
  }

  /** `out` lists the statement entries `m` binds on one side of the anchor. */
  ghost predicate EntriesOn<S(!new)>(m: map<Selector, S>, anchor: USize, late: bool, out: seq<(USize, S)>) {
    forall i: USize, v :: (i, v) in out <==> EntryOf(i) in m && m[EntryOf(i)] == v && (i > anchor) == late
  }

  lemma EntriesBefore<S(!new)>(m: map<Selector, S>, anchor: USize, down: seq<(Selector, S)>)
    requires Listing(m, EntryOf(0), EntryOf(anchor), true, down)
    ensures EntriesOn(m, anchor, false, StatementEntries(down))
  {
    forall i: USize, v: S ensures (i, v) in StatementEntries(down) <==> EntryOf(i) in m && m[EntryOf(i)] == v && (i > anchor) == false {
      StatementEntriesMember(down, i, v);
    }
  }

  lemma EntriesAfter<S(!new)>(m: map<Selector, S>, anchor: USize, up: seq<(Selector, S)>)
    requires Listing(m, ExitOf(anchor), ExitOf(USIZE_MAX), false, up)
    ensures EntriesOn(m, anchor, true, StatementEntries(up))
  {
    forall i: USize, v: S ensures (i, v) in StatementEntries(up) <==> EntryOf(i) in m && m[EntryOf(i)] == v && (i > anchor) == true {
      StatementEntriesMember(up, i, v);
    }
  }

  lemma EntriesOnSide<S(!new)>(m: map<Selector, S>, anchor: USize, late: bool, out: seq<(USize, S)>, i: nat)
    requires EntriesOn(m, anchor, late, out) && i < |out|
    ensures (out[i].0 > anchor) == late
  {
    assert (out[i].0, out[i].1) in out;
  }

  lemma NearestOrder<S>(anchor: USize, a: seq<(USize, S)>, b: seq<(USize, S)>)
    requires forall i :: 0 <= i < |a| ==> a[i].0 <= anchor
    requires forall i :: 0 <= i < |b| ==> b[i].0 > anchor
    requires Falling(a) && Rising(b)
    ensures forall i, j :: 0 <= i < j < |a + b| ==> NearerFirst(anchor, (a + b)[i].0, (a + b)[j].0)
  {
  }

  /** The two bounded walks between them see every statement entry, each on its own side of the anchor. */
  lemma NearestFromListings<S(!new)>(m: map<Selector, S>, anchor: USize, down: seq<(Selector, S)>, up: seq<(Selector, S)>)
    requires Listing(m, EntryOf(0), EntryOf(anchor), true, down)
    requires Listing(m, ExitOf(anchor), ExitOf(USIZE_MAX), false, up)
    ensures NearestEntries(m, anchor, StatementEntries(down) + StatementEntries(up))
  {
    var a, b := StatementEntries(down), StatementEntries(up);
    var all: seq<(USize, S)> := a + b;
    EntriesBefore(m, anchor, down);
    EntriesAfter(m, anchor, up);
    forall i | 0 <= i < |a| ensures a[i].0 <= anchor { EntriesOnSide(m, anchor, false, a, i); }
    forall i | 0 <= i < |b| ensures b[i].0 > anchor { EntriesOnSide(m, anchor, true, b, i); }
    StatementEntriesOrdered(down, true);
    StatementEntriesOrdered(up, false);
    NearestOrder(anchor, a, b);
    forall i: USize, v: S ensures (i, v) in a + b <==> Lookup(m, EntryOf(i)) == Some(v) {
      assert (i, v) in a + b <==> (i, v) in a || (i, v) in b;
    }
  }

  method FilterEntries<S>(points: seq<(Selector, S)>) returns (out: seq<(USize, S)>)
    ensures out == StatementEntries(points)
  {
    out := [];
    for i := 0 to |points|
      invariant out + StatementEntries(points[i..]) == StatementEntries(points)
    {
      out := out + OneEntry(points[i]);
    }
  }

  /**
   * Statement entries at or before the anchor in reverse order, then later ones in
   * forward order; all of them unless a check of the deadline found it expired.
   */
  method StatementEntriesNearest<S(!new)>(snapshots: RecordedSnapshots<S>, anchor: USize, expires: nat -> bool)
    returns (out: seq<(USize, S)>, cancelled: bool, checks: nat)
    requires snapshots.Valid()
    ensures cancelled <==> exists n :: 0 <= n < checks && expires(n)
    ensures !cancelled ==> NearestEntries(snapshots.Bound(), anchor, out)
  {
    var root := snapshots.version.root;
    var before := new RecordedSnapshotRange(root, EntryOf(0), EntryOf(anchor), true, expires, 0);
    ghost var made := before.checks;
    var down, cut := Drain(before);
    ExpiredOn(expires, 0, made, before.checks);
    var after := new RecordedSnapshotRange(root, ExitOf(anchor), ExitOf(USIZE_MAX), false, expires, before.checks);
    made := after.checks;
    var up, cutToo := Drain(after);
    checks := after.checks;
    cancelled := cut || cutToo;
    ExpiredOn(expires, before.checks, made, checks);
    ExpiredOn(expires, 0, before.checks, checks);
    var near := FilterEntries(down);
    var far := FilterEntries(up);
    out := near + far;
    WalkLists(root, EntryOf(0), EntryOf(anchor), true);
    WalkLists(root, ExitOf(anchor), ExitOf(USIZE_MAX), false);
    if !cancelled {
      NearestFromListings(snapshots.Bound(), anchor, down, up);
    }
    assert cancelled <==> Expired(expires, 0, checks);
  }

  // ---------- recent points ----------

  /** A point at its latest change, if something is recorded there by any spelling. */
  ghost function Latest<S>(selector: Selector, seen: set<Selector>, labels: Option<Labels>, m: map<Selector, S>): seq<(Selector, S)> {
    if selector !in seen && Spelling(labels, selector) in m then [(selector, m[Spelling(labels, selector)])] else []
  }

  /** The points of a log still recorded, each at its latest change, newest first. */
  ghost function Newest<S>(log: Change?<S>, seen: set<Selector>, labels: Option<Labels>, m: map<Selector, S>): seq<(Selector, S)>
    requires Logged(log)
    decreases if log == null then 0 else log.depth + 1
  {
    if log == null then [] else Latest(log.selector, seen, labels, m) + Newest(log.parent, seen + {log.selector}, labels, m)
  }

  lemma {:induction false} NewestMember<S>(log: Change?<S>, seen: set<Selector>, labels: Option<Labels>, m: map<Selector, S>, k: Selector, v: S)
    requires Logged(log)
    ensures (k, v) in Newest(log, seen, labels, m)
       <==> k in Since(log, null) && k !in seen && Lookup(m, Spelling(labels, k)) == Some(v)
    decreases if log == null then 0 else log.depth + 1
  {
    if log != null { NewestMember(log.parent, seen + {log.selector}, labels, m, k, v); }
  }

  /** No selector is reported twice. */
  lemma {:induction false} NewestDistinct<S>(log: Change?<S>, seen: set<Selector>, labels: Option<Labels>, m: map<Selector, S>)
    requires Logged(log)
    ensures var out := Newest(log, seen, labels, m);
            forall i, j :: 0 <= i < j < |out| ==> out[i].0 != out[j].0
    decreases if log == null then 0 else log.depth + 1
  {
    if log != null {
      var rest := Newest(log.parent, seen + {log.selector}, labels, m);
      NewestDistinct(log.parent, seen + {log.selector}, labels, m);
      forall j | 0 <= j < |rest| ensures rest[j].0 != log.selector {
        NewestMember(log.parent, seen + {log.selector}, labels, m, rest[j].0, rest[j].1);
      }
    }
  }

  /** How many changes back the latest change at a point lies. */
  ghost function Age<S>(log: Change?<S>, k: Selector): nat
    requires Logged(log)
    decreases if log == null then 0 else log.depth + 1
  {
    if log == null || log.selector == k then 0 else 1 + Age(log.parent, k)
  }

  /** The points come newest change first. */
  lemma {:induction false} NewestFirst<S>(log: Change?<S>, seen: set<Selector>, labels: Option<Labels>, m: map<Selector, S>, i: nat, j: nat)
    requires Logged(log) && i < j < |Newest(log, seen, labels, m)|
    ensures Age(log, Newest(log, seen, labels, m)[i].0) < Age(log, Newest(log, seen, labels, m)[j].0)
    decreases if log == null then 0 else log.depth + 1
  {
    var latest, rest := Latest(log.selector, seen, labels, m), Newest(log.parent, seen + {log.selector}, labels, m);
    var out := latest + rest;
    forall k | |latest| <= k < |out| ensures out[k].0 != log.selector {
      NewestMember(log.parent, seen + {log.selector}, labels, m, out[k].0, out[k].1);
      assert out[k] == rest[k - |latest|];
    }
    if i >= |latest| {
      NewestFirst(log.parent, seen + {log.selector}, labels, m, i - |latest|, j - |latest|);
    }
  }

  lemma {:induction false} ReachesNull<S>(log: Change?<S>)
    requires Logged(log)
    ensures Extends(log, null)
    decreases if log == null then 0 else log.depth + 1
  {
    if log != null { ReachesNull(log.parent); }
  }

  /** The log misses nothing: read to its end it lists every point bound, under the spelling it is recorded under. */
  lemma NewestIsComplete<S(!new)>(log: Change?<S>, labels: Option<Labels>, k: Selector, v: S)
    requires Logged(log) && Canonical(labels, k)
    ensures (k, v) in Newest(log, {}, labels, BoundAfter(log)) <==> k in BoundAfter(log) && BoundAfter(log)[k] == v
  {
    NewestMember(log, {}, labels, BoundAfter(log), k, v);
    ReachesNull(log);
    UnchangedSince<S>(log, null);
    if k !in Since(log, null) { assert AgreeAt(BoundAfter(log), map[], k); }
  }

  /** What a reading of the log stops at. */
  function Most(limit: nat): nat {
    if limit == 0 then 1 else limit
  }

  lemma NewestStep<S>(out: seq<(Selector, S)>, log: Change<S>, seen: set<Selector>, labels: Option<Labels>, m: map<Selector, S>)
    requires Logged(log)
    ensures out + Newest(log, seen, labels, m)
         == (out + Latest(log.selector, seen, labels, m)) + Newest(log.parent, seen + {log.selector}, labels, m)
  {
    Three(out, Latest(log.selector, seen, labels, m), Newest(log.parent, seen + {log.selector}, labels, m));
  }

  /** Takes the point of one change, unless its selector has been seen or nothing is recorded there. */
  method TakeLatest<S>(snapshots: RecordedSnapshots<S>, selector: Selector, seen: set<Selector>) returns (taken: seq<(Selector, S)>)
    requires snapshots.Valid()
    ensures taken == Latest(selector, seen, snapshots.labels, snapshots.Bound())
  {
    if selector in seen {
      return [];
    }
    var state := snapshots.Get(selector);
    return if state.Some? then [(selector, state.value)] else [];
  }

  /**
   * The newest points still recorded, at most `limit` of them. The limit is
   * tested only after a point is taken, so a limit of zero, which no caller
   * passes, yields one where there is one.
   */
  method Recent<S>(snapshots: RecordedSnapshots<S>, limit: nat) returns (out: seq<(Selector, S)>)
    requires snapshots.Valid()
    ensures var all := Newest(snapshots.version.history, {}, snapshots.labels, snapshots.Bound());
            && out == (if |all| <= Most(limit) then all else all[..Most(limit)])
            && (|out| <= limit <==> limit > 0 || all == [])
  {
    out := [];
    ghost var all := Newest(snapshots.version.history, {}, snapshots.labels, snapshots.Bound());
    var seen := {};
    var change := snapshots.version.history;
    while change != null
      invariant Logged(change)
      invariant out + Newest(change, seen, snapshots.labels, snapshots.Bound()) == all
      invariant |out| < Most(limit)
      decreases if change == null then 0 else change.depth + 1
    {
      var current := change;
      NewestStep(out, current, seen, snapshots.labels, snapshots.Bound());
      var taken := TakeLatest(snapshots, current.selector, seen);
      out := out + taken;
      if taken != [] && |out| >= limit {
        break;
      }
      seen := seen + {current.selector};
      change := current.parent;
    }
  }
}
