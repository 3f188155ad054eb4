/**
 * The labels a proof gives loops: every spelling of a loop's entry or exit is
 * recorded, and looked up, under one of them.
 */
module LoopLabels {
  import opened Ordering
  import opened Machine
  import opened Selectors

  /** The loop each label names, and the label each labelled loop was given first. */
  datatype Labels = Labels(loops: map<string, USize>, preferred: map<USize, string>)

  /** The loop a region names, when it names one. */
  function LoopOf(labels: Labels, region: CodeRegion): Option<USize> {
    if region.Loop? then Some(region.index)
    else if region.Label? && region.name in labels.loops then Some(labels.loops[region.name])
    else None
  }

  function Respelled(labels: Labels, region: CodeRegion): CodeRegion {
    var loop := LoopOf(labels, region);
    if loop == None then region
    else if loop.value in labels.preferred then Label(labels.preferred[loop.value])
    else Loop(loop.value)
  }

  /** How a selector is recorded: under its loop's first label when the loop has one. */
  function Spelling(labels: Option<Labels>, selector: Selector): Selector {
    if labels == None || selector.Mark? then selector
    else ProgramPoint(Respelled(labels.value, selector.region), selector.kind)
  }

  /** The label a loop was given first names that loop, and a loop some label names was given one first. */
  ghost predicate Consistent(labels: Option<Labels>) {
    labels.Some? ==>
      && (forall i <- labels.value.preferred ::
            labels.value.preferred[i] in labels.value.loops && labels.value.loops[labels.value.preferred[i]] == i)
      && (forall name <- labels.value.loops :: labels.value.loops[name] in labels.value.preferred)
  }

  /** The selector is the one its point is recorded under. */
  ghost predicate Canonical(labels: Option<Labels>, selector: Selector) {
    Spelling(labels, selector) == selector
  }

  lemma SpellingIsCanonical(labels: Option<Labels>, selector: Selector)
    requires Consistent(labels)
    ensures Canonical(labels, Spelling(labels, selector))
  {
    if labels.Some? && selector.ProgramPoint? {
      var loop := LoopOf(labels.value, selector.region);
      if loop.Some? && loop.value in labels.value.preferred {
        assert LoopOf(labels.value, Label(labels.value.preferred[loop.value])) == loop;
      }
    }
  }

  /** Only the points of a loop with a label are respelled, whether named by the loop or by a label, and to its first label. */
  lemma SpellingIs(labels: Labels, index: USize, name: string, kind: PointKind, selector: Selector)
    ensures Spelling(None, selector) == selector
    ensures selector.Mark? || !(selector.region.Loop? || selector.region.Label?) ==> Spelling(Some(labels), selector) == selector
    ensures Spelling(Some(labels), ProgramPoint(Loop(index), kind)) ==
            ProgramPoint(if index in labels.preferred then Label(labels.preferred[index]) else Loop(index), kind)
    ensures Spelling(Some(labels), ProgramPoint(Label(name), kind)) ==
            if name in labels.loops then Spelling(Some(labels), ProgramPoint(Loop(labels.loops[name]), kind)) else ProgramPoint(Label(name), kind)
  {
  }

  /** The labels once `name` names loop `index` too. */
  function Labelled(labels: Option<Labels>, index: USize, name: string): Labels {
    var before := if labels == None then Labels(map[], map[]) else labels.value;
    Labels(before.loops[name := index],
           if index in before.preferred then before.preferred else before.preferred[index := name])
  }

  /** A label names its loop from then on, every other label what it did, and a loop's first label stays first. */
  lemma LabelledIs(labels: Labels, index: USize, name: string)
    ensures Labelled(None, index, name) == Labels(map[name := index], map[index := name])
    ensures var after := Labelled(Some(labels), index, name);
            && after.loops.Keys == labels.loops.Keys + {name} && after.loops[name] == index
            && (forall other <- labels.loops :: other != name ==> after.loops[other] == labels.loops[other])
            && after.preferred.Keys == labels.preferred.Keys + {index}
            && (forall i <- labels.preferred :: after.preferred[i] == labels.preferred[i])
            && (index !in labels.preferred ==> after.preferred[index] == name)
  {
  }

  /** No other loop bears the label. */
  predicate Free(labels: Option<Labels>, index: USize, name: string) {
    labels.Some? && name in labels.value.loops ==> labels.value.loops[name] == index
  }

  lemma LabelledIsConsistent(labels: Option<Labels>, index: USize, name: string)
    requires Consistent(labels) && Free(labels, index, name)
    ensures Consistent(Some(Labelled(labels, index, name)))
  {
  }

  function LoopPoint(index: USize, kind: PointKind): Selector {
    ProgramPoint(Loop(index), kind)
  }

  function LabelPoint(name: string, kind: PointKind): Selector {
    ProgramPoint(Label(name), kind)
  }

  predicate IsLabelled(labels: Option<Labels>, index: USize) {
    labels.Some? && index in labels.value.preferred
  }

  /** A new label changes the spelling of its own points, and of its loop's if it is the first; of no others. */
  lemma LabelRespells(labels: Option<Labels>, index: USize, name: string, selector: Selector)
    requires Consistent(labels) && Free(labels, index, name)
    ensures var after := Some(Labelled(labels, index, name));
            Spelling(after, selector) ==
            if selector.ProgramPoint? && selector.region == Label(name) then Spelling(after, LoopPoint(index, selector.kind))
            else if selector.ProgramPoint? && Spelling(labels, selector) == LoopPoint(index, selector.kind)
              then LabelPoint(name, selector.kind)
            else Spelling(labels, selector)
  {
  }

  /** The selector names a point of the loop. */
  predicate Names(labels: Labels, selector: Selector, index: USize) {
    selector.ProgramPoint? && LoopOf(labels, selector.region) == Some(index)
  }

  /** All spellings of a loop's point are one. */
  lemma NamesAlike(labels: Labels, selector: Selector, index: USize)
    requires Names(labels, selector, index)
    ensures Spelling(Some(labels), selector) == Spelling(Some(labels), LoopPoint(index, selector.kind))
  {
  }

  /** A selector that names no point of the loop is spelled neither as its points nor as its label's. */
  lemma SpelledElsewhere(labels: Option<Labels>, index: USize, name: string, selector: Selector)
    requires Consistent(labels) && Free(labels, index, name) && !Names(Labelled(labels, index, name), selector, index)
    ensures forall kind :: Spelling(labels, selector) != LoopPoint(index, kind) && Spelling(labels, selector) != LabelPoint(name, kind)
    ensures Spelling(Some(Labelled(labels, index, name)), selector) == Spelling(labels, selector)
  {
    LabelRespells(labels, index, name, selector);
    if labels.Some? && selector.ProgramPoint? {
      var loop := LoopOf(labels.value, selector.region);
      if loop.Some? && loop.value in labels.value.preferred {
        assert labels.value.loops[labels.value.preferred[loop.value]] == loop.value;
      }
    }
  }

  // ---------- labels only grow ----------

  /** Every label still names its loop, and every labelled loop still has the first label it was given. */
  ghost predicate Refines(before: Option<Labels>, after: Option<Labels>) {
    before.Some? ==>
      && after.Some?
      && (forall name <- before.value.loops ::
            name in after.value.loops && after.value.loops[name] == before.value.loops[name])
      && (forall i <- before.value.preferred ::
            i in after.value.preferred && after.value.preferred[i] == before.value.preferred[i])
  }

  lemma LabelledRefines(labels: Option<Labels>, index: USize, name: string)
    requires Free(labels, index, name)
    ensures Refines(labels, Some(Labelled(labels, index, name)))
  {
  }

  /** A spelling a point is recorded under now was one before it had further labels. */
  lemma CanonicalBefore(before: Option<Labels>, after: Option<Labels>, selector: Selector)
    requires Consistent(before) && Refines(before, after) && Canonical(after, selector)
    ensures Canonical(before, selector)
  {
    if before.Some? && selector.ProgramPoint? {
      var loop := LoopOf(before.value, selector.region);
      if loop.Some? && loop.value in before.value.preferred {
        assert LoopOf(after.value, selector.region) == loop;
      }
    }
  }

  /** Respelling a point by earlier labels first makes no difference. */
  lemma SpellingOnward(before: Option<Labels>, after: Option<Labels>, selector: Selector)
    requires Consistent(before) && Refines(before, after)
    ensures Spelling(after, Spelling(before, selector)) == Spelling(after, selector)
  {
    if before.Some? && selector.ProgramPoint? {
      var loop := LoopOf(before.value, selector.region);
      if loop.Some? {
        assert LoopOf(after.value, selector.region) == loop;
        assert LoopOf(after.value, Respelled(before.value, selector.region)) == loop;
      }
    }
  }
}
