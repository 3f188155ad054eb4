/** The merge of two branches of one ancestor, visiting only the points changed since the fork. */
module SnapshotMerges {
  import opened Ordering
  import opened SortedEntries
  import opened Selectors
  import opened LoopLabels
  import opened Snapshots

  /** Walks a log back to `ancestor`, collecting the points changed; `false` when it never meets it. */
  method ChangedKeysSince<S>(log: Change?<S>, ancestor: Change?<S>) returns (met: bool, changed: set<Selector>)
    requires Logged(log)
    ensures met <==> Extends(log, ancestor)
    ensures met ==> changed == Since(log, ancestor)
  {
    changed := {};
    var current := log;
    while true
      invariant Logged(current)
      invariant Extends(log, ancestor) <==> Extends(current, ancestor)
      invariant Extends(current, ancestor) ==> Since(log, ancestor) == changed + Since(current, ancestor)
      decreases if current == null then 0 else current.depth + 1
    {
      if current != null && ancestor != null && current == ancestor {
        return true, changed;
      } else if current == null && ancestor == null {
        return true, changed;
      } else if current != null {
        changed := changed + {current.selector};
        current := current.parent;
      } else {
        return false, changed;
      }
    }
  }

  /** What both arms bind to the same state. */
  ghost function Common<S>(a: map<Selector, S>, b: map<Selector, S>): map<Selector, S> {
    map k <- a | k in b && a[k] == b[k] :: a[k]
  }

  /** Where two arms agree on what is recorded. */
  ghost function Agreed<S>(left: Option<S>, right: Option<S>): Option<S> {
    if left == right then left else None
  }

  /** `k` is the spelling of a changed point. */
  ghost predicate Touched(labels: Option<Labels>, changed: set<Selector>, k: Selector) {
    exists c :: c in changed && Spelling(labels, c) == k
  }

  /** Every point but the pending ones is bound as in `target`. */
  ghost predicate Settled<S>(labels: Option<Labels>, pending: set<Selector>, m: map<Selector, S>, target: map<Selector, S>) {
    forall k :: Canonical(labels, k) && !Touched(labels, pending, k) ==> AgreeAt(m, target, k)
  }

  lemma SettlesOne<S>(labels: Option<Labels>, pending: set<Selector>, c: Selector, m: map<Selector, S>, n: map<Selector, S>, target: map<Selector, S>)
    requires Settled(labels, pending, m, target) && c in pending
    requires AgreeAt(n, target, Spelling(labels, c)) && AgreeExcept(n, m, {Spelling(labels, c)})
    ensures Settled(labels, pending - {c}, n, target)
  {
    forall k | Canonical(labels, k) && !Touched(labels, pending - {c}, k) ensures AgreeAt(n, target, k) {
      if k != Spelling(labels, c) {
        assert !Touched(labels, pending, k);
        assert AgreeAt(m, target, k) && AgreeAt(n, m, k);
      }
    }
  }

  /** Before any point is merged, only changed points may differ. */
  lemma SettledAtFirst<S>(labels: Option<Labels>, changed: set<Selector>, m: map<Selector, S>, target: map<Selector, S>)
    requires AgreeExcept(m, target, changed)
    ensures Settled(labels, changed, m, target)
  {
    forall k | Canonical(labels, k) && !Touched(labels, changed, k) ensures AgreeAt(m, target, k) {
      assert k !in changed;
    }
  }

  /** With no point pending, every point is recorded where both arms agree, as they agree. */
  lemma SettledRecords<S>(labels: Option<Labels>, m: map<Selector, S>, a: map<Selector, S>, b: map<Selector, S>, k: Selector)
    requires Consistent(labels) && Settled(labels, {}, m, Common(a, b))
    ensures Lookup(m, Spelling(labels, k)) == Agreed(Lookup(a, Spelling(labels, k)), Lookup(b, Spelling(labels, k)))
  {
    SpellingIsCanonical(labels, k);
    assert AgreeAt(m, Common(a, b), Spelling(labels, k));
  }

  /** When nothing is bound but under its own spelling, the whole trees agree. */
  lemma SettledEverywhere<S>(labels: Option<Labels>, m: map<Selector, S>, target: map<Selector, S>)
    requires Settled(labels, {}, m, target)
    requires (forall k <- m :: Canonical(labels, k)) && (forall k <- target :: Canonical(labels, k))
    ensures m == target
  {
    forall k ensures AgreeAt(m, target, k) {
    }
    AgreeEverywhere(m, target);
  }

  // ---------- what a merge records ----------

  /** The points either arm has changed since the fork. */
  ghost function Changed<S>(self: RecordedSnapshots<S>, other: RecordedSnapshots<S>, ancestor: RecordedSnapshots<S>): set<Selector>
    requires self.Valid() && other.Valid()
    reads self, other, ancestor
  {
    Since(self.version.history, ancestor.version.history) + Since(other.version.history, ancestor.version.history)
  }

  /** Labels, log and logged spellings have only grown since the ancestor, as every operation leaves them. */
  ghost predicate BranchOf<S>(arm: RecordedSnapshots<S>, ancestor: RecordedSnapshots<S>)
    requires arm.Valid()
    reads arm, ancestor
  {
    Branches(ancestor.labels, ancestor.version.history, arm.labels, arm.version.history)
  }

  /** What both arms record alike at a point, by whichever spelling it is named. */
  ghost function Both<S>(self: RecordedSnapshots<S>, other: RecordedSnapshots<S>, k: Selector): Option<S>
    reads self, other
  {
    Agreed(self.Recorded(k), other.Recorded(k))
  }

  /** An arm has respelled the point since the fork, and neither has changed it under its former spelling. */
  ghost predicate Strays<S>(self: RecordedSnapshots<S>, other: RecordedSnapshots<S>, ancestor: RecordedSnapshots<S>, k: Selector)
    requires self.Valid() && other.Valid()
    reads self, other, ancestor
  {
    && self.labels != other.labels
    && Spelling(ancestor.labels, k) !in Changed(self, other, ancestor)
    && !(Spelling(self.labels, k) == Spelling(other.labels, k) == Spelling(ancestor.labels, k))
  }

  /**
   * What a merge of two branches records: what both arms record alike where they
   * bear the same labels, or where the point changed under its spelling at the
   * fork; anywhere else, what the ancestor recorded.
   */
  ghost predicate MergesAt<S>(common: RecordedSnapshots<S>, self: RecordedSnapshots<S>, other: RecordedSnapshots<S>,
                              ancestor: RecordedSnapshots<S>, k: Selector)
    requires self.Valid() && other.Valid()
    reads common, self, other, ancestor
  {
    common.Recorded(k) ==
    if self.labels == other.labels || Spelling(ancestor.labels, k) in Changed(self, other, ancestor) then Both(self, other, k)
    else ancestor.Recorded(k)
  }

  /** The merge records at every point exactly what both arms record alike there. */
  ghost predicate RecordsBoth<S(!new)>(common: RecordedSnapshots<S>, self: RecordedSnapshots<S>, other: RecordedSnapshots<S>)
    reads common, self, other
  {
    forall k :: common.Recorded(k) == Both(self, other, k)
  }

  /** The points astray happen to be recorded by the ancestor as by both arms. */
  ghost predicate NoneAstray<S(!new)>(self: RecordedSnapshots<S>, other: RecordedSnapshots<S>, ancestor: RecordedSnapshots<S>)
    requires self.Valid() && other.Valid()
    reads self, other, ancestor
  {
    forall k :: Strays(self, other, ancestor, k) ==> ancestor.Recorded(k) == Both(self, other, k)
  }

  lemma ReplacedAt<S(!new)>(before: Option<Labels>, mine: Option<Labels>, yours: Option<Labels>, changed: set<Selector>,
                            c: map<Selector, S>, a: map<Selector, S>, b: map<Selector, S>, m: map<Selector, S>, k: Selector)
    requires Consistent(before) && Refines(before, mine) && Refines(before, yours) && Replaced(changed, c, m, mine, a, yours, b)
    ensures Lookup(m, Spelling(before, k)) ==
            if Spelling(before, k) in changed then Agreed(Lookup(a, Spelling(mine, k)), Lookup(b, Spelling(yours, k)))
            else Lookup(c, Spelling(before, k))
  {
    SpellingOnward(before, mine, k);
    SpellingOnward(before, yours, k);
  }

  /** A point that has not strayed is recorded as both arms record it. */
  lemma UnlessAstray<S>(common: RecordedSnapshots<S>, self: RecordedSnapshots<S>, other: RecordedSnapshots<S>,
                        ancestor: RecordedSnapshots<S>, k: Selector)
    requires self.Valid() && other.Valid() && ancestor.Valid() && BranchOf(self, ancestor) && BranchOf(other, ancestor)
    requires MergesAt(common, self, other, ancestor, k)
    ensures !Strays(self, other, ancestor, k) ==> common.Recorded(k) == Both(self, other, k)
    ensures Strays(self, other, ancestor, k) ==> common.Recorded(k) == ancestor.Recorded(k)
  {
    UnchangedSince(self.version.history, ancestor.version.history);
    UnchangedSince(other.version.history, ancestor.version.history);
    var s := Spelling(ancestor.labels, k);
    if s !in Changed(self, other, ancestor) {
      assert AgreeAt(self.Bound(), ancestor.Bound(), s) && AgreeAt(other.Bound(), ancestor.Bound(), s);
    }
  }

  /** A merge of two branches keeps all that both arms record alike, and nothing else, exactly when nothing is astray. */
  lemma MergeIsExactly<S(!new)>(common: RecordedSnapshots<S>, self: RecordedSnapshots<S>, other: RecordedSnapshots<S>, ancestor: RecordedSnapshots<S>)
    requires self.Valid() && other.Valid() && ancestor.Valid() && BranchOf(self, ancestor) && BranchOf(other, ancestor)
    requires forall k :: MergesAt(common, self, other, ancestor, k)
    ensures RecordsBoth(common, self, other) <==> NoneAstray(self, other, ancestor)
  {
    forall k
      ensures !Strays(self, other, ancestor, k) ==> common.Recorded(k) == Both(self, other, k)
      ensures Strays(self, other, ancestor, k) ==> common.Recorded(k) == ancestor.Recorded(k)
    {
      UnlessAstray(common, self, other, ancestor, k);
    }
  }

  /** Where the ancestor recorded nothing that has strayed, a merge may lose what both arms record, and records nothing else. */
  lemma MergeOnlyLoses<S(!new)>(common: RecordedSnapshots<S>, self: RecordedSnapshots<S>, other: RecordedSnapshots<S>,
                                ancestor: RecordedSnapshots<S>, k: Selector)
    requires self.Valid() && other.Valid() && ancestor.Valid() && BranchOf(self, ancestor) && BranchOf(other, ancestor)
    requires MergesAt(common, self, other, ancestor, k) && (Strays(self, other, ancestor, k) ==> ancestor.Recorded(k) == None)
    ensures common.Recorded(k) == if Strays(self, other, ancestor, k) then None else Both(self, other, k)
  {
    UnlessAstray(common, self, other, ancestor, k);
  }

  /**
   * The merge of two branches of one ancestor. It succeeds exactly when both
   * logs extend the ancestor's in its own family. When the arms bear the same
   * loop labels it keeps them, and then records a point, by whichever spelling
   * it is named, exactly where both arms record it alike; points neither arm
   * changed are left alone. Where besides each loop bore its labels before it
   * was first recorded, nothing is bound but what both arms bind alike. Of arms
   * whose labels differ it takes the ancestor's labels, and then what both arms
   * record alike is kept exactly when nothing is astray.
   */
  method CommonDescendant<S(==,!new)>(self: RecordedSnapshots<S>, other: RecordedSnapshots<S>, ancestor: RecordedSnapshots<S>)
    returns (common: Option<RecordedSnapshots<S>>)
    requires self.Valid() && other.Valid() && ancestor.Valid()
    ensures common.Some? <==>
              && self.version.origin == ancestor.version.origin == other.version.origin
              && Extends(self.version.history, ancestor.version.history)
              && Extends(other.version.history, ancestor.version.history)
    ensures common.Some? ==>
              && fresh(common.value) && common.value.Valid()
              && common.value.labels == (if self.labels == other.labels then self.labels else ancestor.labels)
              && common.value.version.origin == ancestor.version.origin
              && Extends(common.value.version.history, ancestor.version.history)
    ensures common.Some? ==>
              forall k <- Since(common.value.version.history, ancestor.version.history) ::
                Touched(common.value.labels, Changed(self, other, ancestor), k)
    ensures common.Some? && self.labels == other.labels ==> RecordsBoth(common.value, self, other)
    ensures common.Some? && self.labels == other.labels && self.AllCanonical()
            && (forall k <- ancestor.Bound() :: Canonical(self.labels, k)) ==>
              common.value.Bound() == Common(self.Bound(), other.Bound())
    ensures common.Some? && (forall c <- Changed(self, other, ancestor) :: Canonical(common.value.labels, c)) ==>
              Replaced(Changed(self, other, ancestor), ancestor.Bound(), common.value.Bound(),
                       self.labels, self.Bound(), other.labels, other.Bound())
    ensures common.Some? && BranchOf(self, ancestor) && BranchOf(other, ancestor) ==>
              && BranchOf(common.value, ancestor)
              && (forall k :: MergesAt(common.value, self, other, ancestor, k))
              && (RecordsBoth(common.value, self, other) <==> NoneAstray(self, other, ancestor))
  {
    if self.version.origin != ancestor.version.origin || other.version.origin != ancestor.version.origin {
      return None;
    }
    var met, changed := ChangedKeysSince(self.version.history, ancestor.version.history);
    if !met {
      return None;
    }
    var mine := changed;
    met, changed := ChangedKeysSince(other.version.history, ancestor.version.history);
    if !met {
      return None;
    }
    changed := mine + changed;
    UnchangedInBoth(self, other, ancestor, changed);
    var merged := new RecordedSnapshots.Clone(ancestor.version, if self.labels == other.labels then self.labels else ancestor.labels);
    SettledAtFirst(merged.labels, changed, merged.Bound(), Common(self.Bound(), other.Bound()));
    MergeAll(merged, self, other, changed);
    MergedAlike(merged, self, other, ancestor);
    if BranchOf(self, ancestor) && BranchOf(other, ancestor) {
      MergedBranches(merged, self, other, ancestor);
    }
    return Some(merged);
  }

  /** Every changed point has been merged. */
  ghost predicate Merged<S(!new)>(merged: RecordedSnapshots<S>, self: RecordedSnapshots<S>, other: RecordedSnapshots<S>, ancestor: RecordedSnapshots<S>)
    requires merged.Valid() && self.Valid() && other.Valid()
    reads merged, self, other, ancestor
  {
    && merged.labels == (if self.labels == other.labels then self.labels else ancestor.labels)
    && Merging(merged.labels, Changed(self, other, ancestor), {}, ancestor.version.history, merged.version.history,
               ancestor.Bound(), merged.Bound(), self.labels, self.Bound(), other.labels, other.Bound())
  }

  /** What a merge comes to whether or not the arms are branches, and what it comes to under equal labels. */
  lemma MergedAlike<S(!new)>(merged: RecordedSnapshots<S>, self: RecordedSnapshots<S>, other: RecordedSnapshots<S>, ancestor: RecordedSnapshots<S>)
    requires merged.Valid() && self.Valid() && other.Valid() && Merged(merged, self, other, ancestor)
    ensures (forall c <- Changed(self, other, ancestor) :: Canonical(merged.labels, c)) ==>
              Replaced(Changed(self, other, ancestor), ancestor.Bound(), merged.Bound(),
                       self.labels, self.Bound(), other.labels, other.Bound())
    ensures self.labels == other.labels ==> RecordsBoth(merged, self, other)
    ensures self.labels == other.labels && self.AllCanonical() && (forall k <- ancestor.Bound() :: Canonical(self.labels, k)) ==>
              merged.Bound() == Common(self.Bound(), other.Bound())
  {
    assert Changed(self, other, ancestor) - {} == Changed(self, other, ancestor);
    if self.labels == other.labels {
      forall k ensures merged.Recorded(k) == Both(self, other, k) {
        SettledRecords(merged.labels, merged.Bound(), self.Bound(), other.Bound(), k);
      }
      if self.AllCanonical() && forall k <- ancestor.Bound() :: Canonical(self.labels, k) {
        SettledEverywhere(merged.labels, merged.Bound(), Common(self.Bound(), other.Bound()));
      }
    }
  }

  /** A merge of two branches is a branch, and records what it should point by point. */
  lemma MergedBranches<S(!new)>(merged: RecordedSnapshots<S>, self: RecordedSnapshots<S>, other: RecordedSnapshots<S>, ancestor: RecordedSnapshots<S>)
    requires merged.Valid() && self.Valid() && other.Valid() && ancestor.Valid()
    requires BranchOf(self, ancestor) && BranchOf(other, ancestor) && Merged(merged, self, other, ancestor)
    ensures BranchOf(merged, ancestor)
    ensures forall k :: MergesAt(merged, self, other, ancestor, k)
    ensures RecordsBoth(merged, self, other) <==> NoneAstray(self, other, ancestor)
  {
    MergedAlike(merged, self, other, ancestor);
    forall k | k in Since(merged.version.history, ancestor.version.history) ensures Canonical(ancestor.labels, k) {
      var c :| c in Changed(self, other, ancestor) && Spelling(merged.labels, c) == k;
      SpellingIsCanonical(merged.labels, c);
      CanonicalBefore(ancestor.labels, merged.labels, k);
    }
    forall k ensures MergesAt(merged, self, other, ancestor, k) {
      if self.labels == other.labels {
        assert merged.Recorded(k) == Both(self, other, k);
      } else {
        ReplacedAt(ancestor.labels, self.labels, other.labels, Changed(self, other, ancestor),
                   ancestor.Bound(), self.Bound(), other.Bound(), merged.Bound(), k);
      }
    }
    MergeIsExactly(merged, self, other, ancestor);
  }

  /** What merging has done so far: the log extends `fork` by spellings of changed points, and binds no others anew. */
  ghost predicate MergedSince<S>(labels: Option<Labels>, changed: set<Selector>, fork: Change?<S>, log: Change?<S>,
                                 before: map<Selector, S>, m: map<Selector, S>)
    requires Logged(log)
  {
    && Extends(log, fork)
    && (forall k <- Since(log, fork) :: Touched(labels, changed, k))
    && (forall k <- m :: k in before || Canonical(labels, k))
  }

  /** Each of the points `done` is bound to what both arms record there alike, and every other as before. */
  ghost predicate Replaced<S(!new)>(done: set<Selector>, before: map<Selector, S>, m: map<Selector, S>,
                                    mine: Option<Labels>, a: map<Selector, S>, yours: Option<Labels>, b: map<Selector, S>) {
    forall k :: Lookup(m, k) ==
                if k in done then Agreed(Lookup(a, Spelling(mine, k)), Lookup(b, Spelling(yours, k))) else Lookup(before, k)
  }

  lemma ReplacesOne<S(!new)>(done: set<Selector>, c: Selector, before: map<Selector, S>, m: map<Selector, S>, n: map<Selector, S>,
                             mine: Option<Labels>, a: map<Selector, S>, yours: Option<Labels>, b: map<Selector, S>)
    requires Replaced(done, before, m, mine, a, yours, b) && AgreeExcept(n, m, {c})
    requires Lookup(n, c) == Agreed(Lookup(a, Spelling(mine, c)), Lookup(b, Spelling(yours, c)))
    ensures Replaced(done + {c}, before, n, mine, a, yours, b)
  {
    forall k | k != c ensures Lookup(n, k) == Lookup(m, k) {
      assert AgreeAt(n, m, k);
    }
  }

  /** How far a merge has come, with the points `pending` still to be merged. */
  ghost predicate Merging<S(!new)>(labels: Option<Labels>, changed: set<Selector>, pending: set<Selector>,
                                   fork: Change?<S>, log: Change?<S>, before: map<Selector, S>, m: map<Selector, S>,
                                   mine: Option<Labels>, a: map<Selector, S>, yours: Option<Labels>, b: map<Selector, S>)
    requires Logged(log)
  {
    && pending <= changed
    && MergedSince(labels, changed, fork, log, before, m)
    && (mine == yours ==> labels == mine && Settled(mine, pending, m, Common(a, b)))
    && ((forall c <- changed :: Canonical(labels, c)) ==> Replaced(changed - pending, before, m, mine, a, yours, b))
  }

  lemma MergingOn<S(!new)>(labels: Option<Labels>, changed: set<Selector>, pending: set<Selector>, c: Selector,
                           fork: Change?<S>, log: Change?<S>, next: Change?<S>,
                           before: map<Selector, S>, m: map<Selector, S>, n: map<Selector, S>,
                           mine: Option<Labels>, a: map<Selector, S>, yours: Option<Labels>, b: map<Selector, S>)
    requires Logged(log) && Logged(next) && Merging(labels, changed, pending, fork, log, before, m, mine, a, yours, b)
    requires Consistent(labels) && c in pending
    requires next == log || (next != null && next.selector == Spelling(labels, c) && next.parent == log)
    requires Lookup(n, Spelling(labels, c)) == Agreed(Lookup(a, Spelling(mine, c)), Lookup(b, Spelling(yours, c)))
    requires AgreeExcept(n, m, {Spelling(labels, c)})
    ensures Merging(labels, changed, pending - {c}, fork, next, before, n, mine, a, yours, b)
  {
    MergedOnceMore(labels, changed, c, fork, log, next, before, m, n);
    if mine == yours {
      SettlesOne(mine, pending, c, m, n, Common(a, b));
    }
    if forall c <- changed :: Canonical(labels, c) {
      assert Canonical(labels, c);
      ReplacesOne(changed - pending, c, before, m, n, mine, a, yours, b);
      assert changed - (pending - {c}) == changed - pending + {c};
    }
  }

  /** Merges every changed point in turn. */
  method MergeAll<S(==,!new)>(merged: RecordedSnapshots<S>, self: RecordedSnapshots<S>, other: RecordedSnapshots<S>, changed: set<Selector>)
    requires merged.Valid() && self.Valid() && other.Valid() && merged != self && merged != other
    requires Merging(merged.labels, changed, changed, merged.version.history, merged.version.history, merged.Bound(), merged.Bound(),
                     self.labels, self.Bound(), other.labels, other.Bound())
    modifies merged`version
    ensures merged.Valid() && merged.version.origin == old(merged.version.origin)
    ensures Merging(merged.labels, changed, {}, old(merged.version.history), merged.version.history, old(merged.Bound()), merged.Bound(),
                    self.labels, self.Bound(), other.labels, other.Bound())
  {
    var pending := changed;
    while pending != {}
      invariant merged.Valid() && merged.version.origin == old(merged.version.origin)
      invariant Merging(merged.labels, changed, pending, old(merged.version.history), merged.version.history,
                        old(merged.Bound()), merged.Bound(), self.labels, self.Bound(), other.labels, other.Bound())
      decreases pending
    {
      var selector :| selector in pending;
      ghost var before, log := merged.Bound(), merged.version.history;
      MergePoint(merged, self, other, selector);
      MergingOn(merged.labels, changed, pending, selector, old(merged.version.history), log, merged.version.history,
                old(merged.Bound()), before, merged.Bound(), self.labels, self.Bound(), other.labels, other.Bound());
      pending := pending - {selector};
    }
  }

  /** One more change, at the spelling of a changed point, is still part of the merge. */
  lemma MergedOnceMore<S>(labels: Option<Labels>, changed: set<Selector>, c: Selector, fork: Change?<S>, log: Change?<S>, next: Change?<S>,
                          before: map<Selector, S>, m: map<Selector, S>, n: map<Selector, S>)
    requires Logged(log) && Logged(next) && MergedSince(labels, changed, fork, log, before, m)
    requires Consistent(labels) && c in changed
    requires next == log || (next != null && next.selector == Spelling(labels, c) && next.parent == log)
    requires AgreeExcept(n, m, {Spelling(labels, c)})
    ensures MergedSince(labels, changed, fork, next, before, n)
  {
    SpellingIsCanonical(labels, c);
    assert Touched(labels, changed, Spelling(labels, c));
    forall k <- n ensures k in before || Canonical(labels, k) {
      assert k == Spelling(labels, c) || AgreeAt(n, m, k);
    }
  }

  /** The merge's step at one changed point: what both arms record alike there is recorded, anything else taken away. */
  method MergePoint<S(==)>(merged: RecordedSnapshots<S>, self: RecordedSnapshots<S>, other: RecordedSnapshots<S>, selector: Selector)
    requires merged.Valid() && self.Valid() && other.Valid() && merged != self && merged != other
    modifies merged`version
    ensures merged.Valid() && merged.version.origin == old(merged.version.origin)
    ensures Lookup(merged.Bound(), Spelling(merged.labels, selector)) == Agreed(self.Recorded(selector), other.Recorded(selector))
    ensures AgreeExcept(merged.Bound(), old(merged.Bound()), {Spelling(merged.labels, selector)})
    ensures merged.version.history == old(merged.version.history)
            || (merged.version.history != null && merged.version.history.selector == Spelling(merged.labels, selector)
                && merged.version.history.parent == old(merged.version.history))
  {
    var left := self.Get(selector);
    var right := other.Get(selector);
    if left.Some? && right.Some? && left.value == right.value {
      var _ := merged.Insert(selector, left.value);
    } else {
      var _ := merged.Remove(selector);
    }
  }

  lemma AgreeEverywhere<S>(m: map<Selector, S>, n: map<Selector, S>)
    requires AgreeExcept(m, n, {})
    ensures m == n
  {
    forall k ensures (k in m <==> k in n) && (k in m ==> m[k] == n[k]) {
      assert AgreeAt(m, n, k);
    }
    assert m.Keys == n.Keys;
  }

  lemma UnchangedInBoth<S>(self: RecordedSnapshots<S>, other: RecordedSnapshots<S>, ancestor: RecordedSnapshots<S>, changed: set<Selector>)
    requires self.Valid() && other.Valid() && ancestor.Valid()
    requires Extends(self.version.history, ancestor.version.history)
    requires Extends(other.version.history, ancestor.version.history)
    requires changed == Since(self.version.history, ancestor.version.history) + Since(other.version.history, ancestor.version.history)
    ensures AgreeExcept(ancestor.Bound(), Common(self.Bound(), other.Bound()), changed)
  {
    var fork := ancestor.version.history;
    UnchangedSince(self.version.history, fork);
    UnchangedSince(other.version.history, fork);
    var a, b, c := self.Bound(), other.Bound(), ancestor.Bound();
    forall k | k !in changed ensures AgreeAt(c, Common(a, b), k) {
      assert AgreeAt(a, c, k) && AgreeAt(b, c, k);
    }
  }
}
