/** Proofs that label loops so that a merge of their branches goes astray, each run to its end. */
module MergesAstray {
  import opened Ordering
  import opened Machine
  import opened Selectors
  import opened LoopLabels
  import opened Snapshots
  import opened SnapshotMerges

  /** A branch of `ancestor` with these labels and states, and these points logged since. */
  ghost predicate ArmOf<S>(arm: RecordedSnapshots<S>, ancestor: RecordedSnapshots<S>, labels: Option<Labels>,
                           bound: map<Selector, S>, points: set<Selector>)
    reads arm, ancestor
  {
    && arm.Valid() && ancestor.Valid() && BranchOf(arm, ancestor)
    && arm.version.origin == ancestor.version.origin
    && arm.labels == labels && arm.Bound() == bound
    && Logs(arm.version.history, ancestor.version.history, points)
  }

  /** Nothing recorded yet, and no loop labelled. */
  method Fresh<S>() returns (ancestor: RecordedSnapshots<S>)
    ensures fresh(ancestor) && ArmOf(ancestor, ancestor, None, map[], {})
  {
    ancestor := new RecordedSnapshots();
  }

  /** The proof takes a branch of its own. */
  method Branch<S>(ancestor: RecordedSnapshots<S>, ghost labels: Option<Labels>, ghost bound: map<Selector, S>)
    returns (arm: RecordedSnapshots<S>)
    requires ancestor.Valid() && ancestor.labels == labels && ancestor.Bound() == bound
    ensures fresh(arm) && ArmOf(arm, ancestor, labels, bound, {}) && ArmOf(arm, arm, labels, bound, {})
  {
    arm := new RecordedSnapshots.Clone(ancestor.version, ancestor.labels);
  }

  /** The proof labels a loop at whose points nothing is recorded. */
  method LabelNext<S>(arm: RecordedSnapshots<S>, index: USize, name: string, ghost ancestor: RecordedSnapshots<S>,
                      ghost labels: Option<Labels>, ghost bound: map<Selector, S>, ghost points: set<Selector>)
    requires ArmOf(arm, ancestor, labels, bound, points) && arm != ancestor && Free(labels, index, name)
    requires LoopPoint(index, AtEntry) !in bound && LoopPoint(index, AtExit) !in bound
    modifies arm
    ensures ArmOf(arm, ancestor, Some(Labelled(labels, index, name)), bound, points)
  {
    ghost var log := arm.version.history;
    arm.LabelLoop(index, name);
    LogsThrough(arm.version.history, log, ancestor.version.history, {}, points);
    BranchesThrough(ancestor.labels, ancestor.version.history, labels, log, arm.labels, arm.version.history);
    assert {} + points == points;
  }

  /** The proof records a state. */
  method RecordNext<S>(arm: RecordedSnapshots<S>, point: Selector, state: S, ghost ancestor: RecordedSnapshots<S>,
                       ghost labels: Option<Labels>, ghost bound: map<Selector, S>, ghost points: set<Selector>)
    requires ArmOf(arm, ancestor, labels, bound, points) && arm != ancestor
    modifies arm
    ensures ArmOf(arm, ancestor, labels, bound[Spelling(labels, point) := state], {Spelling(labels, point)} + points)
  {
    ghost var log := arm.version.history;
    var _ := arm.Insert(point, state);
    LogsThrough(arm.version.history, log, ancestor.version.history, {Spelling(labels, point)}, points);
    BranchesThrough(ancestor.labels, ancestor.version.history, labels, log, arm.labels, arm.version.history);
  }

  /** A merge of such branches takes a point astray from the ancestor. */
  method MergeAstray<S(==,!new)>(self: RecordedSnapshots<S>, other: RecordedSnapshots<S>, ancestor: RecordedSnapshots<S>, k: Selector)
    returns (common: Option<RecordedSnapshots<S>>)
    requires self.Valid() && other.Valid() && ancestor.Valid() && BranchOf(self, ancestor) && BranchOf(other, ancestor)
    requires self.version.origin == ancestor.version.origin == other.version.origin
    requires Strays(self, other, ancestor, k)
    ensures common.Some? && common.value.Recorded(k) == ancestor.Recorded(k)
  {
    common := CommonDescendant(self, other, ancestor);
    UnlessAstray(common.value, self, other, ancestor, k);
  }

  // ---------- two ways to lose a record, and one to keep a stale one ----------

  /** The labels of a proof that gives one loop one label. */
  function One(index: USize, name: string): Labels {
    Labelled(None, index, name)
  }

  /** And those of a proof that then labels once more. */
  function Next(index: USize, name: string, beside: USize, second: string): Labels {
    Labelled(Some(One(index, name)), beside, second)
  }

  method LabelledArm<S>(ancestor: RecordedSnapshots<S>, index: USize, name: string, kind: PointKind, state: S)
    returns (arm: RecordedSnapshots<S>)
    requires ArmOf(ancestor, ancestor, None, map[], {})
    ensures fresh(arm)
    ensures ArmOf(arm, ancestor, Some(One(index, name)), map[LabelPoint(name, kind) := state], {LabelPoint(name, kind)})
  {
    arm := Branch(ancestor, None, map[]);
    LabelNext(arm, index, name, ancestor, None, map[], {});
    RecordNext(arm, LoopPoint(index, kind), state, ancestor, Some(One(index, name)), map[], {});
  }

  /** An arm that labels a further loop at the end. */
  method LabelledTwice<S>(ancestor: RecordedSnapshots<S>, index: USize, name: string, kind: PointKind, state: S, beside: USize, second: string)
    returns (arm: RecordedSnapshots<S>)
    requires ArmOf(ancestor, ancestor, None, map[], {}) && beside != index && second != name
    ensures fresh(arm)
    ensures ArmOf(arm, ancestor, Some(Next(index, name, beside, second)), map[LabelPoint(name, kind) := state], {LabelPoint(name, kind)})
  {
    arm := LabelledArm(ancestor, index, name, kind, state);
    LabelNext(arm, beside, second, ancestor, Some(One(index, name)), map[LabelPoint(name, kind) := state], {LabelPoint(name, kind)});
  }

  /** An arm that gives one loop two labels, and records nothing. */
  method LabelledOnly<S>(ancestor: RecordedSnapshots<S>, index: USize, first: string, late: string, ghost bound: map<Selector, S>)
    returns (arm: RecordedSnapshots<S>)
    requires ancestor.Valid() && ancestor.labels == None && ancestor.Bound() == bound
    requires LoopPoint(index, AtEntry) !in bound && LoopPoint(index, AtExit) !in bound
    ensures fresh(arm) && ArmOf(arm, ancestor, Some(Next(index, first, index, late)), bound, {})
  {
    arm := Branch(ancestor, None, bound);
    LabelNext(arm, index, first, ancestor, None, bound, {});
    LabelNext(arm, index, late, ancestor, Some(One(index, first)), bound, {});
  }

  /** A proof that has recorded one state and labelled no loop. */
  method Unlabelled<S>(point: Selector, state: S) returns (arm: RecordedSnapshots<S>)
    ensures fresh(arm) && ArmOf(arm, arm, None, map[point := state], {})
  {
    var ancestor := Fresh<S>();
    var branch := Branch(ancestor, None, map[]);
    RecordNext(branch, point, state, ancestor, None, map[], {});
    arm := Branch(branch, None, map[point := state]);
  }

  /** Two arms that logged nothing under the loop's own spelling, and bear different labels, leave its point astray. */
  lemma ArmsStray<S>(self: RecordedSnapshots<S>, other: RecordedSnapshots<S>, ancestor: RecordedSnapshots<S>,
                     mine: Option<Labels>, a: map<Selector, S>, p: set<Selector>,
                     yours: Option<Labels>, b: map<Selector, S>, q: set<Selector>, k: Selector)
    requires ArmOf(self, ancestor, mine, a, p) && ArmOf(other, ancestor, yours, b, q) && ancestor.labels == None
    requires mine != yours && k !in p && k !in q && Spelling(mine, k) != k
    ensures Strays(self, other, ancestor, k)
  {
  }

  /** Arms that gave one loop different labels lose what both recorded there. */
  method LabelledApart<S(==,!new)>(index: USize, mine: string, yours: string, kind: PointKind, state: S)
    returns (self: RecordedSnapshots<S>, other: RecordedSnapshots<S>, common: Option<RecordedSnapshots<S>>)
    requires mine != yours
    ensures self.Recorded(LoopPoint(index, kind)) == other.Recorded(LoopPoint(index, kind)) == Some(state)
    ensures common.Some? && common.value.Recorded(LoopPoint(index, kind)) == None
  {
    var ancestor := Fresh<S>();
    self := LabelledArm(ancestor, index, mine, kind, state);
    other := LabelledArm(ancestor, index, yours, kind, state);
    assert One(index, mine).preferred[index] != One(index, yours).preferred[index];
    ArmsStray(self, other, ancestor,
              Some(One(index, mine)), map[LabelPoint(mine, kind) := state], {LabelPoint(mine, kind)},
              Some(One(index, yours)), map[LabelPoint(yours, kind) := state], {LabelPoint(yours, kind)}, LoopPoint(index, kind));
    common := MergeAstray(self, other, ancestor, LoopPoint(index, kind));
  }

  /** Arms that gave one loop the same label lose what both recorded there when one of them labels another loop besides. */
  method LabelledBesides<S(==,!new)>(index: USize, name: string, kind: PointKind, state: S, beside: USize, second: string)
    returns (self: RecordedSnapshots<S>, other: RecordedSnapshots<S>, common: Option<RecordedSnapshots<S>>)
    requires beside != index && second != name
    ensures self.Recorded(LoopPoint(index, kind)) == other.Recorded(LoopPoint(index, kind)) == Some(state)
    ensures common.Some? && common.value.Recorded(LoopPoint(index, kind)) == None
  {
    var ancestor := Fresh<S>();
    ghost var bound, points := map[LabelPoint(name, kind) := state], {LabelPoint(name, kind)};
    other := LabelledArm(ancestor, index, name, kind, state);
    self := LabelledTwice(ancestor, index, name, kind, state, beside, second);
    assert second in Next(index, name, beside, second).loops && second !in One(index, name).loops;
    ArmsStray(self, other, ancestor, Some(Next(index, name, beside, second)), bound, points,
              Some(One(index, name)), bound, points, LoopPoint(index, kind));
    common := MergeAstray(self, other, ancestor, LoopPoint(index, kind));
  }

  /** A label recorded at before it names a loop that already has one: the merge keeps what one arm no longer records. */
  method LabelledLate<S(==,!new)>(index: USize, first: string, late: string, kind: PointKind, state: S)
    returns (self: RecordedSnapshots<S>, other: RecordedSnapshots<S>, common: Option<RecordedSnapshots<S>>)
    requires first != late
    ensures self.Recorded(LabelPoint(late, kind)) == None && other.Recorded(LabelPoint(late, kind)) == Some(state)
    ensures common.Some? && common.value.Recorded(LabelPoint(late, kind)) == Some(state)
  {
    ghost var bound := map[LabelPoint(late, kind) := state];
    other := Unlabelled(LabelPoint(late, kind), state);
    self := LabelledOnly(other, index, first, late, bound);
    ArmsStray(self, other, other, Some(Next(index, first, index, late)), bound, {}, None, bound, {}, LabelPoint(late, kind));
    common := MergeAstray(self, other, other, LabelPoint(late, kind));
  }
}
