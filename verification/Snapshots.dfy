/**
 * Recorded snapshots: a second AVL map, with tombstones for removed points,
 * whose versions share one log of changes, recorded by the labels of loops.
 */
module Snapshots {
  import opened Ordering
  import opened Machine
  import opened SortedEntries
  import opened AvlTree
  import opened Selectors
  import opened LoopLabels

  /** A tree node bound to `None` is a tombstone. */
  type SnapshotTree<S> = Tree<Selector, Option<S>>

  // ---------- the snapshot tree's own balancing ----------

  function SnapshotBalance<S>(selector: Selector, state: Option<S>, left: SnapshotTree<S>, right: SnapshotTree<S>): SnapshotTree<S> {
    var balance := Height(left) - Height(right);
    if balance > 1 then
      var left' :=
        if Height(left.left) < Height(left.right) then
          var pivot := left.right;
          Make(pivot.key, pivot.value, Make(left.key, left.value, left.left, pivot.left), pivot.right)
        else left;
      Make(left'.key, left'.value, left'.left, Make(selector, state, left'.right, right))
    else if balance < -1 then
      var right' :=
        if Height(right.right) < Height(right.left) then
          var pivot := right.left;
          Make(pivot.key, pivot.value, pivot.left, Make(right.key, right.value, pivot.right, right.right))
        else right;
      Make(right'.key, right'.value, Make(selector, state, left, right'.left), right'.right)
    else Make(selector, state, left, right)
  }

  function SnapshotInsert<S>(root: SnapshotTree<S>, selector: Selector, state: Option<S>): SnapshotTree<S> {
    match root
    case Leaf => Make(selector, state, Leaf, Leaf)
    case Node(key, value, left, right, _) =>
      if SelectorLess(selector, key) then SnapshotBalance(key, value, SnapshotInsert(left, selector, state), right)
      else if SelectorLess(key, selector) then SnapshotBalance(key, value, left, SnapshotInsert(right, selector, state))
      else Make(selector, state, left, right)
  }

  lemma SnapshotBalanceIsBalance<S>(selector: Selector, state: Option<S>, left: SnapshotTree<S>, right: SnapshotTree<S>)
    ensures SnapshotBalance(selector, state, left, right) == Balance(selector, state, left, right)
  {
    if Height(left) > Height(right) + 1 {
      if Height(left.left) < Height(left.right) {
        var pivot := left.right;
        assert SnapshotBalance(selector, state, left, right) ==
               Make(pivot.key, pivot.value, Make(left.key, left.value, left.left, pivot.left), Make(selector, state, pivot.right, right));
      }
    } else if Height(right) > Height(left) + 1 {
      if Height(right.right) < Height(right.left) {
        var pivot := right.left;
        assert SnapshotBalance(selector, state, left, right) ==
               Make(pivot.key, pivot.value, Make(selector, state, left, pivot.left), Make(right.key, right.value, pivot.right, right.right));
      }
    }
  }

  /** The two-step rotations of the snapshot tree build the trees the persistent map's do. */
  lemma {:induction false} SnapshotInsertIsInsert<S>(root: SnapshotTree<S>, selector: Selector, state: Option<S>)
    ensures SnapshotInsert(root, selector, state) == Insert(SelectorLess, root, selector, state).0
  {
    match root
    case Leaf =>
    case Node(key, value, left, right, _) =>
      if SelectorLess(selector, key) {
        SnapshotInsertIsInsert(left, selector, state);
        SnapshotBalanceIsBalance(key, value, SnapshotInsert(left, selector, state), right);
      } else if SelectorLess(key, selector) {
        SnapshotInsertIsInsert(right, selector, state);
        SnapshotBalanceIsBalance(key, value, left, SnapshotInsert(right, selector, state));
      }
  }

  /** The points a tree binds, tombstones aside. */
  ghost function Live<S>(root: SnapshotTree<S>): map<Selector, S> {
    map k <- Contents(root) | Contents(root)[k].Some? :: Contents(root)[k].value
  }

  lemma SnapshotInsertKeeps<S>(root: SnapshotTree<S>, selector: Selector, state: Option<S>)
    requires Avl(SelectorLess, root)
    ensures Avl(SelectorLess, SnapshotInsert(root, selector, state))
    ensures Live(SnapshotInsert(root, selector, state)) ==
            if state.Some? then Live(root)[selector := state.value] else Live(root) - {selector}
  {
    SelectorOrder();
    SnapshotInsertIsInsert(root, selector, state);
    InsertKeepsAvl(SelectorLess, root, selector, state);
  }

  // ---------- the change log ----------

  /** Identifies one family of branches. */
  class Origin {
  }

  /** One change. A node never alters, so its identity fixes what was bound right after it. */
  class Change<S> {
    const selector: Selector
    const parent: Change?<S>
    ghost const bound: map<Selector, S>
    ghost const depth: nat

    ghost predicate Valid()
      decreases depth
    {
      && AgreeExcept(bound, BoundAfter(parent), {selector})
      && (parent != null ==> parent.depth < depth && parent.Valid())
    }

    constructor (selector: Selector, parent: Change?<S>, ghost bound: map<Selector, S>)
      requires Logged(parent) && AgreeExcept(bound, BoundAfter(parent), {selector})
      ensures Valid() && this.selector == selector && this.parent == parent && this.bound == bound
    {
      this.selector, this.parent := selector, parent;
      this.bound, this.depth := bound, if parent == null then 0 else parent.depth + 1;
    }
  }

  ghost function BoundAfter<S>(log: Change?<S>): map<Selector, S> {
    if log == null then map[] else log.bound
  }

  ghost predicate Logged<S>(log: Change?<S>) {
    log == null || log.Valid()
  }

  ghost predicate AgreeAt<S>(m: map<Selector, S>, n: map<Selector, S>, k: Selector) {
    (k in m <==> k in n) && (k in m ==> m[k] == n[k])
  }

  ghost predicate AgreeExcept<S>(m: map<Selector, S>, n: map<Selector, S>, except: set<Selector>) {
    forall k :: k !in except ==> AgreeAt(m, n, k)
  }

  /** The log `log` is `ancestor` with changes added. */
  ghost predicate Extends<S>(log: Change?<S>, ancestor: Change?<S>)
    requires Logged(log)
    decreases if log == null then 0 else log.depth + 1
  {
    log == ancestor || (log != null && Extends(log.parent, ancestor))
  }

  /** The points changed since `ancestor`. */
  ghost function Since<S>(log: Change?<S>, ancestor: Change?<S>): set<Selector>
    requires Logged(log)
    decreases if log == null then 0 else log.depth + 1
  {
    if log == null || log == ancestor then {} else {log.selector} + Since(log.parent, ancestor)
  }

  lemma {:induction false} UnchangedSince<S>(log: Change?<S>, ancestor: Change?<S>)
    requires Logged(log) && Extends(log, ancestor)
    ensures AgreeExcept(BoundAfter(log), BoundAfter(ancestor), Since(log, ancestor))
    decreases if log == null then 0 else log.depth + 1
  {
    if log != ancestor {
      UnchangedSince(log.parent, ancestor);
      forall k | k !in Since(log, ancestor) ensures AgreeAt(BoundAfter(log), BoundAfter(ancestor), k) {
        assert AgreeAt(log.bound, BoundAfter(log.parent), k);
        assert AgreeAt(BoundAfter(log.parent), BoundAfter(ancestor), k);
      }
    }
  }

  /** The log `log` is `fork` with changes at exactly `points` added. */
  ghost predicate Logs<S>(log: Change?<S>, fork: Change?<S>, points: set<Selector>)
    requires Logged(log)
  {
    Extends(log, fork) && Since(log, fork) == points
  }

  lemma LogsOne<S>(log: Change<S>, fork: Change?<S>)
    requires log.Valid() && log.parent == fork
    ensures Logs(log, fork, {log.selector})
  {
    assert Since(log, fork) == {log.selector} + Since(fork, fork);
  }

  lemma {:induction false} LogsThrough<S>(log: Change?<S>, middle: Change?<S>, fork: Change?<S>, late: set<Selector>, early: set<Selector>)
    requires Logged(log) && Logged(middle) && Logs(log, middle, late) && Logs(middle, fork, early)
    ensures Logs(log, fork, late + early)
    decreases if log == null then 0 else log.depth + 1
  {
    if log != middle {
      LogsThrough(log.parent, middle, fork, Since(log.parent, middle), early);
      if log == fork {
        ExtendsIsOlder(log.parent, fork);
      }
    }
  }

  /** What a log extends is no younger than it. */
  lemma {:induction false} ExtendsIsOlder<S>(log: Change?<S>, fork: Change<S>)
    requires Logged(log) && Extends(log, fork)
    ensures log != null && fork.depth <= log.depth
    decreases if log == null then 0 else log.depth + 1
  {
    if log != fork {
      ExtendsIsOlder(log.parent, fork);
    }
  }

  /**
   * A branch: its labels and its log have only grown since the fork, and every
   * change since was logged under the spelling its point had at the fork.
   */
  ghost predicate Branches<S>(before: Option<Labels>, fork: Change?<S>, labels: Option<Labels>, log: Change?<S>)
    requires Logged(log)
  {
    && Refines(before, labels)
    && Extends(log, fork)
    && forall c <- Since(log, fork) :: Canonical(before, c)
  }

  lemma BranchesThrough<S>(before: Option<Labels>, fork: Change?<S>, between: Option<Labels>, middle: Change?<S>,
                           labels: Option<Labels>, log: Change?<S>)
    requires Consistent(before) && Logged(middle) && Logged(log)
    requires Branches(before, fork, between, middle) && Branches(between, middle, labels, log)
    ensures Branches(before, fork, labels, log)
  {
    LogsThrough(log, middle, fork, Since(log, middle), Since(middle, fork));
    forall c | c in Since(log, middle) ensures Canonical(before, c) {
      CanonicalBefore(before, between, c);
    }
  }

  /** One version: a tree, the log that led to it, and the family it belongs to. */
  datatype Version<S> = Version(root: SnapshotTree<S>, history: Change?<S>, origin: Origin)

  class RecordedSnapshots<S(==)> {
    var version: Version<S>
    /** The labels the proof gave loops on this path. */
    var labels: Option<Labels>

    ghost predicate Valid()
      reads this
    {
      && Avl(SelectorLess, version.root)
      && Logged(version.history)
      && Bound() == BoundAfter(version.history)
      && Consistent(labels)
    }

    /** The states bound in the tree now. */
    ghost function Bound(): map<Selector, S>
      reads this
    {
      Live(version.root)
    }

    /** What is recorded at a point, by whichever spelling it is named. */
    ghost function Recorded(selector: Selector): Option<S>
      reads this
    {
      Lookup(Bound(), Spelling(labels, selector))
    }

    /** Every point is bound under the one spelling it is recorded under. */
    ghost predicate AllCanonical()
      reads this
    {
      forall k <- Bound() :: Canonical(labels, k)
    }

    constructor ()
      ensures Valid() && Bound() == map[] && version.history == null && fresh(version.origin) && labels == None
    {
      var origin := new Origin;
      version := Version(Leaf, null, origin);
      labels := None;
    }

    constructor Clone(version: Version<S>, labels: Option<Labels>)
      ensures this.version == version && this.labels == labels
    {
      this.version, this.labels := version, labels;
    }

    method GetExact(key: Selector) returns (state: Option<S>)
      requires Valid()
      ensures state == if key in Bound() then Some(Bound()[key]) else None
    {
      SelectorOrder();
      var node := version.root;
      while node.Node?
        invariant Search(SelectorLess, node)
        invariant key in Contents(version.root) <==> key in Contents(node)
        invariant key in Contents(node) ==> Contents(version.root)[key] == Contents(node)[key]
        decreases node
      {
        SearchParts(SelectorLess, node);
        ContentsParts(SelectorLess, node, key);
        if SelectorLess(key, node.key) {
          node := node.left;
        } else if SelectorLess(node.key, key) {
          node := node.right;
        } else {
          return node.value;
        }
      }
      state := None;
    }

    /** Looks a point up by any of its spellings. */
    method Get(key: Selector) returns (state: Option<S>)
      requires Valid()
      ensures state == Recorded(key)
    {
      if labels.Some? {
        state := GetExact(Spelling(labels, key));
      } else {
        state := GetExact(key);
      }
    }

    method Record(selector: Selector, state: Option<S>)
      requires Valid()
      modifies this`version
      ensures Valid() && version.origin == old(version.origin)
      ensures Bound() == if state.Some? then old(Bound())[selector := state.value] else old(Bound()) - {selector}
      ensures version.history != null && version.history.selector == selector && version.history.parent == old(version.history)
    {
      SnapshotInsertKeeps(version.root, selector, state);
      var root := SnapshotInsert(version.root, selector, state);
      var history := new Change(selector, version.history, Live(root));
      version := Version(root, history, version.origin);
    }

    /** Binds a point and returns what it was bound to. */
    method Insert(selector: Selector, state: S) returns (prior: Option<S>)
      requires Valid()
      modifies this`version
      ensures Valid() && version.origin == old(version.origin)
      ensures Bound() == old(Bound())[Spelling(labels, selector) := state]
      ensures prior == old(Recorded(selector))
      ensures old(AllCanonical()) ==> AllCanonical()
      ensures version.history != null && version.history.selector == Spelling(labels, selector)
      ensures version.history.parent == old(version.history)
      ensures Logs(version.history, old(version.history), {Spelling(labels, selector)})
      ensures Branches(labels, old(version.history), labels, version.history)
    {
      var spelling := Spelling(labels, selector);
      SpellingIsCanonical(labels, selector);
      prior := Get(spelling);
      Record(spelling, Some(state));
      LogsOne(version.history, old(version.history));
    }

    /** Unbinds a point, leaving the version alone when it was not bound. */
    method Remove(selector: Selector) returns (prior: Option<S>)
      requires Valid()
      modifies this`version
      ensures Valid() && version.origin == old(version.origin)
      ensures Bound() == old(Bound()) - {Spelling(labels, selector)}
      ensures prior == old(Recorded(selector))
      ensures old(AllCanonical()) ==> AllCanonical()
      ensures prior == None ==> version == old(version)
      ensures prior.Some? ==>
                && version.history != null && version.history.selector == Spelling(labels, selector)
                && version.history.parent == old(version.history)
      ensures Logs(version.history, old(version.history), if prior.Some? then {Spelling(labels, selector)} else {})
      ensures Branches(labels, old(version.history), labels, version.history)
    {
      var spelling := Spelling(labels, selector);
      SpellingIsCanonical(labels, selector);
      prior := Get(selector);
      if prior.Some? {
        Record(spelling, None);
        LogsOne(version.history, old(version.history));
      }
    }

    /** Takes away what is recorded at a loop's point before the loop has a label. */
    method TakeUnlabelled(index: USize, kind: PointKind) returns (state: Option<S>)
      requires Valid() && !IsLabelled(labels, index)
      modifies this`version
      ensures Valid() && version.origin == old(version.origin)
      ensures Logs(version.history, old(version.history), if state.Some? then {LoopPoint(index, kind)} else {})
      ensures state == old(Recorded(LoopPoint(index, kind))) == Lookup(old(Bound()), LoopPoint(index, kind))
      ensures Bound() == old(Bound()) - {LoopPoint(index, kind)}
    {
      state := GetExact(LoopPoint(index, kind));
      if state.Some? {
        var _ := Remove(LoopPoint(index, kind));
      }
    }

    /** Gives back under the loop's spelling now what was recorded there before. */
    method GiveBack(index: USize, kind: PointKind, state: Option<S>)
      requires Valid()
      modifies this`version
      ensures Valid() && version.origin == old(version.origin)
      ensures Logs(version.history, old(version.history), if state.Some? then {Spelling(labels, LoopPoint(index, kind))} else {})
      ensures Bound() == Given(old(Bound()), Spelling(labels, LoopPoint(index, kind)), state)
    {
      if state.Some? {
        var _ := Insert(LoopPoint(index, kind), state.value);
      }
    }

    /**
     * Records that the proof calls loop `index` `name`. A state recorded before
     * the loop had a label moves to the label's spelling, and both spellings
     * are logged; nothing else is.
     */
    method LabelLoop(index: USize, name: string)
      requires Valid() && Free(labels, index, name)
      modifies this
      ensures Valid() && version.origin == old(version.origin)
      ensures labels == Some(Labelled(old(labels), index, name))
      ensures Bound() == old(if IsLabelled(labels, index) then Bound() else Moved(Bound(), index, name))
      ensures Logs(version.history, old(version.history), old(if IsLabelled(labels, index) then {} else MovedPoints(Bound(), index, name)))
      ensures Branches(old(labels), old(version.history), labels, version.history)
    {
      LabelledRefines(labels, index, name);
      if labels.Some? && name in labels.value.loops && labels.value.loops[name] == index {
        assert labels.value == Labelled(labels, index, name);
        return;
      }
      var after := Labelled(labels, index, name);
      LabelledIsConsistent(labels, index, name);
      if IsLabelled(labels, index) {
        labels := Some(after);
        return;
      }
      MovedPointsAreCanonical(labels, Bound(), index, name);
      Relabel(index, name, after);
    }

    /** Labels a loop for the first time, moving what is recorded at its points. */
    method Relabel(index: USize, name: string, after: Labels)
      requires Valid() && Free(labels, index, name) && !IsLabelled(labels, index) && after == Labelled(labels, index, name)
      modifies this
      ensures Valid() && version.origin == old(version.origin) && labels == Some(after)
      ensures Bound() == old(Moved(Bound(), index, name))
      ensures Logs(version.history, old(version.history), old(MovedPoints(Bound(), index, name)))
    {
      LabelledIsConsistent(labels, index, name);
      LabelRespells(labels, index, name, LoopPoint(index, AtEntry));
      LabelRespells(labels, index, name, LoopPoint(index, AtExit));
      var entry, exit := TakeBoth(index);
      labels := Some(after);
      ghost var log := version.history;
      GiveBoth(index, entry, exit);
      LogsThrough(version.history, log, old(version.history),
                  Two(entry, LabelPoint(name, AtEntry), exit, LabelPoint(name, AtExit)),
                  Two(entry, LoopPoint(index, AtEntry), exit, LoopPoint(index, AtExit)));
    }

    method TakeBoth(index: USize) returns (entry: Option<S>, exit: Option<S>)
      requires Valid() && !IsLabelled(labels, index)
      modifies this`version
      ensures Valid() && version.origin == old(version.origin)
      ensures Logs(version.history, old(version.history), Two(entry, LoopPoint(index, AtEntry), exit, LoopPoint(index, AtExit)))
      ensures entry == Lookup(old(Bound()), LoopPoint(index, AtEntry)) && exit == Lookup(old(Bound()), LoopPoint(index, AtExit))
      ensures Bound() == old(Bound()) - {LoopPoint(index, AtEntry)} - {LoopPoint(index, AtExit)}
    {
      entry := TakeUnlabelled(index, AtEntry);
      ghost var log := version.history;
      exit := TakeUnlabelled(index, AtExit);
      LogsThrough(version.history, log, old(version.history),
                  if exit.Some? then {LoopPoint(index, AtExit)} else {}, if entry.Some? then {LoopPoint(index, AtEntry)} else {});
    }

    method GiveBoth(index: USize, entry: Option<S>, exit: Option<S>)
      requires Valid()
      modifies this`version
      ensures Valid() && version.origin == old(version.origin)
      ensures Logs(version.history, old(version.history),
                   Two(entry, Spelling(labels, LoopPoint(index, AtEntry)), exit, Spelling(labels, LoopPoint(index, AtExit))))
      ensures Bound() == Given(Given(old(Bound()), Spelling(labels, LoopPoint(index, AtEntry)), entry),
                               Spelling(labels, LoopPoint(index, AtExit)), exit)
    {
      GiveBack(index, AtEntry, entry);
      ghost var log := version.history;
      GiveBack(index, AtExit, exit);
      LogsThrough(version.history, log, old(version.history),
                  if exit.Some? then {Spelling(labels, LoopPoint(index, AtExit))} else {},
                  if entry.Some? then {Spelling(labels, LoopPoint(index, AtEntry))} else {});
    }
  }

  /** A state bound, if there is one to bind. */
  ghost function Given<S>(m: map<Selector, S>, k: Selector, state: Option<S>): map<Selector, S> {
    if state.Some? then m[k := state.value] else m
  }

  /** A loop's entry and exit moved to the label's spelling, where anything is recorded there. */
  ghost function Moved<S>(m: map<Selector, S>, index: USize, name: string): map<Selector, S> {
    Given(Given(m - {LoopPoint(index, AtEntry)} - {LoopPoint(index, AtExit)},
                LabelPoint(name, AtEntry), Lookup(m, LoopPoint(index, AtEntry))),
          LabelPoint(name, AtExit), Lookup(m, LoopPoint(index, AtExit)))
  }

  /** The points of those of two states that there are. */
  ghost function Two<S>(first: Option<S>, p: Selector, second: Option<S>, q: Selector): set<Selector> {
    (if second.Some? then {q} else {}) + (if first.Some? then {p} else {})
  }

  /** The points a first label moves: where a loop's entry or exit was recorded, and where it is then. */
  ghost function MovedPoints<S>(m: map<Selector, S>, index: USize, name: string): set<Selector> {
    var entry, exit := Lookup(m, LoopPoint(index, AtEntry)), Lookup(m, LoopPoint(index, AtExit));
    Two(entry, LabelPoint(name, AtEntry), exit, LabelPoint(name, AtExit))
    + Two(entry, LoopPoint(index, AtEntry), exit, LoopPoint(index, AtExit))
  }

  lemma MovedPointsAreCanonical<S>(labels: Option<Labels>, m: map<Selector, S>, index: USize, name: string)
    requires Consistent(labels) && Free(labels, index, name) && !IsLabelled(labels, index)
    ensures forall c <- MovedPoints(m, index, name) :: Canonical(labels, c)
  {
  }

  lemma MovedElsewhere<S>(m: map<Selector, S>, index: USize, name: string, q: Selector)
    requires forall kind :: q != LoopPoint(index, kind) && q != LabelPoint(name, kind)
    ensures Lookup(Moved(m, index, name), q) == Lookup(m, q)
  {
    assert q != LoopPoint(index, AtEntry) && q != LoopPoint(index, AtExit);
    assert q != LabelPoint(name, AtEntry) && q != LabelPoint(name, AtExit);
  }

  lemma MovedHere<S>(m: map<Selector, S>, index: USize, name: string, kind: PointKind)
    ensures Lookup(Moved(m, index, name), LabelPoint(name, kind)) ==
            if LoopPoint(index, kind) in m then Lookup(m, LoopPoint(index, kind)) else Lookup(m, LabelPoint(name, kind))
  {
    assert LabelPoint(name, AtEntry) != LabelPoint(name, AtExit);
    assert LabelPoint(name, kind) != LoopPoint(index, AtEntry) && LabelPoint(name, kind) != LoopPoint(index, AtExit);
  }

  /**
   * What is recorded at a point of the loop follows its new label, and what a
   * first label's own spelling bound before shows only where the loop had nothing
   * recorded; every other point stays as it was.
   */
  lemma LabelKeepsRecords<S>(labels: Option<Labels>, m: map<Selector, S>, index: USize, name: string, k: Selector)
    requires Consistent(labels) && Free(labels, index, name)
    ensures var after := Labelled(labels, index, name);
            var moved := if IsLabelled(labels, index) then m else Moved(m, index, name);
            if !Names(after, k, index) then Lookup(moved, Spelling(Some(after), k)) == Lookup(m, Spelling(labels, k))
            else
              Lookup(moved, Spelling(Some(after), k)) ==
              if IsLabelled(labels, index) || LoopPoint(index, k.kind) in m then Lookup(m, Spelling(labels, LoopPoint(index, k.kind)))
              else Lookup(m, LabelPoint(name, k.kind))
  {
    var after := Labelled(labels, index, name);
    if Names(after, k, index) {
      LabelRespells(labels, index, name, LoopPoint(index, k.kind));
      MovedHere(m, index, name, k.kind);
      NamesAlike(after, k, index);
    } else {
      SpelledElsewhere(labels, index, name, k);
      MovedElsewhere(m, index, name, Spelling(labels, k));
    }
  }

  /** A label first used now leaves every point bound under the one spelling it is recorded under. */
  lemma LabelKeepsCanonical<S>(labels: Option<Labels>, m: map<Selector, S>, index: USize, name: string, k: Selector)
    requires Consistent(labels) && Free(labels, index, name) && forall q <- m :: Canonical(labels, q)
    requires LabelPoint(name, AtEntry) in m || LabelPoint(name, AtExit) in m ==> labels.Some? && name in labels.value.loops
    requires k in if IsLabelled(labels, index) then m else Moved(m, index, name)
    ensures Canonical(Some(Labelled(labels, index, name)), k)
  {
    var after := Labelled(labels, index, name);
    if !Names(after, k, index) {
      SpelledElsewhere(labels, index, name, k);
      assert k in m;
    } else if IsLabelled(labels, index) {
      assert k.kind == AtEntry || k.kind == AtExit;
      LabelRespells(labels, index, name, k);
      NamesAlike(after, k, index);
    } else {
      assert k.kind == AtEntry || k.kind == AtExit;
      assert k != LoopPoint(index, AtEntry) && k != LoopPoint(index, AtExit);
      assert k == LabelPoint(name, k.kind);
      LabelRespells(labels, index, name, LoopPoint(index, k.kind));
      NamesAlike(after, k, index);
    }
  }
}
