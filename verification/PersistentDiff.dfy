/** The sharing-aware walk over the entries on which two persistent maps differ. */
module PersistentDiffs {
  import opened Ordering
  import opened SortedEntries
  import opened AvlTree
  import opened PersistentMaps
  import opened DiffStacks
  import opened DiffTurns
  import opened DiffCosts
  import opened DiffMerge

  class PersistentMapDiff<K(!new), V> {
    const lt: (K, K) -> bool
    const eqv: (V, V) -> bool
    var left: seq<DiffItem<K, V>>
    var right: seq<DiffItem<K, V>>
    /** The subtrees opened so far. */
    var work: nat
    /** The subtrees the whole walk opens. */
    ghost const bill: nat

    ghost predicate Valid()
      reads this
    {
      Underway(lt, left, right, work, bill)
    }

    /** The changes still to come. */
    ghost function Remaining(): seq<Change<K, V>>
      reads this
    {
      Changes(lt, eqv, left, right)
    }

    constructor (a: PersistentMap<K, V>, b: PersistentMap<K, V>, eqv: (V, V) -> bool)
      requires a.Valid() && b.Valid() && a.lt == b.lt
      ensures Valid() && lt == a.lt && this.eqv == eqv
      ensures Remaining() == Merge(a.lt, eqv, Entries(TreeOf(a.root)), Entries(TreeOf(b.root)))
      ensures Wellformed(Whole(a.root)) && Wellformed(Whole(b.root)) && bill == Openings(lt, Whole(a.root), Whole(b.root))
    {
      lt, this.eqv, work := a.lt, eqv, 0;
      left, right := Whole(a.root), Whole(b.root);
      WholeRests(a.root);
      WholeRests(b.root);
      bill := Openings(a.lt, Whole(a.root), Whole(b.root));
    }

    /** Yields the next change, and nothing once none is left. */
    method Next() returns (change: Option<Change<K, V>>)
      requires Valid()
      modifies this
      ensures Valid()
      ensures old(Remaining()) == [] ==> change == None && Remaining() == []
      ensures change == None ==> work == bill
      ensures old(Remaining()) != [] ==> change == Some(old(Remaining())[0]) && Remaining() == old(Remaining())[1..]
    {
      while true
        invariant Valid() && Remaining() == old(Remaining())
        decreases Weight(left) + Weight(right)
      {
        if left == [] && right == [] {
          return None;
        }
        var leftOpens := left != [] && left[|left| - 1].Subtree?;
        var rightOpens := right != [] && right[|right| - 1].Subtree?;
        TurnLightens(lt, left, right);
        if leftOpens || rightOpens {
          OpenOrSkip(leftOpens, rightOpens);
        } else {
          var yielded;
          yielded, change := TakeEntries();
          if yielded {
            return;
          }
        }
      }
    }

    /** The arms of the walk that meet a subtree: skip it when shared, open the taller otherwise. */
    method OpenOrSkip(leftOpens: bool, rightOpens: bool)
      requires Valid() && (leftOpens || rightOpens)
      requires leftOpens == OnSubtree(left) && rightOpens == OnSubtree(right)
      modifies this
      ensures Valid() && Remaining() == old(Remaining())
      ensures (left, right, work - old(work)) == Turn(lt, old(left), old(right))
    {
      ghost var (left', right', count) := Turn(lt, left, right);
      TurnLightens(lt, left, right);
      OpeningKeeps(lt, eqv, left, right);
      if leftOpens && rightOpens {
        MeetSubtrees();
      } else if leftOpens {
        left, work := Expanded(left), work + 1;
      } else {
        right, work := Expanded(right), work + 1;
      }
      assert left == left' && right == right';
    }

    method MeetSubtrees()
      requires OnSubtree(left) && OnSubtree(right)
      modifies this
      ensures (left, right, work - old(work)) == Meet(old(left), old(right))
    {
      var l, r := left[|left| - 1].node, right[|right| - 1].node;
      if l == r {
        left, right := left[..|left| - 1], right[..|right| - 1];
      } else {
        var leftHeight, rightHeight := l.height, r.height;
        if leftHeight >= rightHeight { left, work := Expanded(left), work + 1; }
        if rightHeight >= leftHeight { right, work := Expanded(right), work + 1; }
      }
    }

    /** The arms of the walk that stand at entries: yield the lesser key, or compare the values of one key. */
    method TakeEntries() returns (yielded: bool, change: Option<Change<K, V>>)
      requires Valid() && (left != [] || right != [])
      requires left == [] || left[|left| - 1].Entry?
      requires right == [] || right[|right| - 1].Entry?
      modifies this
      ensures Valid()
      ensures (left, right, work - old(work)) == Turn(lt, old(left), old(right))
      ensures yielded ==> old(Remaining()) != [] && change == Some(old(Remaining())[0]) && Remaining() == old(Remaining())[1..]
      ensures !yielded ==> Remaining() == old(Remaining())
    {
      if left != [] { TopEntry(left); }
      if right != [] { TopEntry(right); }
      if left == [] {
        var r := right[|right| - 1].node;
        right := right[..|right| - 1];
        return true, Some(Change(r.key, None, Some(r.value.value)));
      }
      var l := left[|left| - 1].node;
      if right == [] {
        left := left[..|left| - 1];
        return true, Some(Change(l.key, Some(l.value.value), None));
      }
      var r := right[|right| - 1].node;
      if lt(l.key, r.key) {
        left := left[..|left| - 1];
        return true, Some(Change(l.key, Some(l.value.value), None));
      } else if lt(r.key, l.key) {
        right := right[..|right| - 1];
        return true, Some(Change(r.key, None, Some(r.value.value)));
      }
      left, right := left[..|left| - 1], right[..|right| - 1];
      if l.value != r.value && !eqv(l.value.value, r.value.value) {
        return true, Some(Change(l.key, Some(l.value.value), Some(r.value.value)));
      }
      return false, None;
    }
  }

  /** Drains a walk. */
  method Collect<K(!new), V>(walk: PersistentMapDiff<K, V>) returns (changes: seq<Change<K, V>>)
    requires walk.Valid()
    modifies walk
    ensures walk.Valid() && changes == old(walk.Remaining()) && walk.work == walk.bill
    decreases |walk.Remaining()|
  {
    var change := walk.Next();
    if change == None {
      return [];
    }
    changes := Collect(walk);
    changes := [change.value] + changes;
  }

  /**
   * The whole diff of two maps of any shape, however much structure they share.
   * `work` subtrees are opened: at most one for each node that only one of the maps
   * holds, and twice the height for each key that only one of them binds.
   */
  method Diff<K(!new), V>(a: PersistentMap<K, V>, b: PersistentMap<K, V>, eqv: (V, V) -> bool)
    returns (changes: seq<Change<K, V>>, work: nat)
    requires a.Valid() && b.Valid() && a.lt == b.lt
    ensures ExactChanges(a.lt, eqv, a.Bindings(), b.Bindings(), changes)
    ensures forall key :: key in a.Bindings() && key in b.Bindings() ==>
              (Reports(changes, key) <==>
               a.Bindings()[key] != b.Bindings()[key] && !eqv(a.Bindings()[key].value, b.Bindings()[key].value))
    ensures Decides(eqv, a.Bindings(), b.Bindings()) ==>
              forall key :: Reports(changes, key) <==> Lookup(Plain(a.Bindings()), key) != Lookup(Plain(b.Bindings()), key)
    ensures work <= Allowance(a.root, b.root)
  {
    var walk := new PersistentMapDiff(a, b, eqv);
    changes := Collect(walk);
    work := walk.work;
    assert ExactChanges(a.lt, eqv, a.Bindings(), b.Bindings(), changes) by {
      MergeIsExact(a.lt, eqv, Entries(TreeOf(a.root)), Entries(TreeOf(b.root)));
    }
    if Decides(eqv, a.Bindings(), b.Bindings()) {
      ExactInValue(a.lt, eqv, a.Bindings(), b.Bindings(), changes);
    }
    assert work <= Allowance(a.root, b.root) by {
      OpeningsAreBounded(a.lt, a.root, b.root);
    }
  }

  /** Map equality: length, then root identity, then the first difference. */
  method Equal<K(!new), V>(a: PersistentMap<K, V>, b: PersistentMap<K, V>, eqv: (V, V) -> bool) returns (equal: bool)
    requires a.Valid() && b.Valid() && a.lt == b.lt
    ensures equal <==>
              && a.Bindings().Keys == b.Bindings().Keys
              && forall k <- a.Bindings() ::
                   a.Bindings()[k] == b.Bindings()[k] || eqv(a.Bindings()[k].value, b.Bindings()[k].value)
    ensures Decides(eqv, a.Bindings(), b.Bindings()) ==> (equal <==> Plain(a.Bindings()) == Plain(b.Bindings()))
  {
    if Decides(eqv, a.Bindings(), b.Bindings()) {
      AgreeInValue(eqv, a.Bindings(), b.Bindings());
    }
    AgreeIffNothingReported(a.lt, eqv, Entries(TreeOf(a.root)), Entries(TreeOf(b.root)));
    if a.len != b.len {
      return false;
    }
    var shares := a.SharesRootWith(b);
    if shares {
      return true;
    }
    var walk := new PersistentMapDiff(a, b, eqv);
    var first := walk.Next();
    equal := first == None;
  }
}
