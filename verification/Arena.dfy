/**
 * The first-fit arena: where an allocation lands, and what every run of
 * allocations, frees, writes and reads keeps.
 */
module ArenaModel {
  import opened Ordering

  newtype int32 = n: int | -0x8000_0000 <= n < 0x8000_0000

  const MAX_CAPACITY: nat := 536870911

  // ---------- cells ----------

  /** The cells `[start, start + count)` exist and are all free. */
  ghost predicate FreeRun(occupied: seq<int32>, start: int, count: int) {
    0 <= start && start + count <= |occupied| && forall k :: start <= k < start + count ==> occupied[k] == 0
  }

  ghost predicate HasFreeRun(occupied: seq<int32>, count: int) {
    exists start :: FreeRun(occupied, start, count)
  }

  /** `start` begins the leftmost run of `count` free cells. */
  ghost predicate FirstFit(occupied: seq<int32>, start: int, count: int) {
    FreeRun(occupied, start, count) && forall s :: 0 <= s < start ==> !FreeRun(occupied, s, count)
  }

  /** `cells` with `[start, end)` set to `value`. */
  function Filled(cells: seq<int32>, start: nat, end: nat, value: int32): seq<int32>
    requires start <= end <= |cells|
  {
    seq(|cells|, k requires 0 <= k < |cells| => if start <= k < end then value else cells[k])
  }

  // ---------- runs over the arena ----------

  type RegionId = nat

  datatype Extent = Extent(start: nat, end: nat)

  /**
   * An arena and what its callers know: which descriptors are live and where,
   * and the last value each has written at each index since its allocation.
   */
  datatype State = State(
    occupied: seq<int32>,
    data: seq<int32>,
    liveRegions: int,
    live: map<RegionId, Extent>,
    written: map<(RegionId, nat), int32>
  )

  datatype Step =
    | Alloc(id: RegionId, count: int)
    | Free(id: RegionId)
    | Write(id: RegionId, index: nat, value: int32)

  /** What a caller must respect: a descriptor in use is not reused, and only live regions are freed or written, in bounds. */
  predicate Allowed(s: State, step: Step) {
    match step
    case Alloc(id, _) => id !in s.live
    case Free(id) => id in s.live
    case Write(id, index, _) => id in s.live && s.live[id].start + index < s.live[id].end
  }

  /** The state with `count` cells from `start` taken for `id`. */
  ghost function Allocated(s: State, id: RegionId, start: nat, count: nat): State
    requires start + count <= |s.occupied|
  {
    State(Filled(s.occupied, start, start + count, 1), s.data, s.liveRegions + 1,
          s.live[id := Extent(start, start + count)], s.written)
  }

  /** What one call does to the arena and to its callers' knowledge. */
  ghost predicate Next(s: State, step: Step, t: State) {
    match step
    case Alloc(id, count) =>
      if count > 0 && exists start :: FirstFit(s.occupied, start, count) then
        exists start: nat :: FirstFit(s.occupied, start, count) && t == Allocated(s, id, start, count)
      else t == s
    case Free(id) =>
      id in s.live && s.live[id].start <= s.live[id].end <= |s.occupied|
      && t == State(Filled(s.occupied, s.live[id].start, s.live[id].end, 0), s.data, s.liveRegions - 1,
                    s.live - {id}, map key <- s.written | key.0 != id :: s.written[key])
    case Write(id, index, value) =>
      id in s.live && s.live[id].start + index < |s.data|
      && t == s.(data := s.data[s.live[id].start + index := value], written := s.written[(id, index) := value])
  }

  /** A step has one outcome: where some run of cells is free there is one leftmost. */
  lemma StepHasOneOutcome(s: State, step: Step, t: State, u: State)
    requires Next(s, step, t) && Next(s, step, u)
    ensures t == u
  {
    if step.Alloc? && step.count > 0 && exists start :: FirstFit(s.occupied, start, step.count) {
      var a: nat :| FirstFit(s.occupied, a, step.count) && t == Allocated(s, step.id, a, step.count);
      var b: nat :| FirstFit(s.occupied, b, step.count) && u == Allocated(s, step.id, b, step.count);
      assert a == b;
    }
  }

  ghost predicate InBounds(s: State) {
    forall id <- s.live :: s.live[id].start < s.live[id].end <= |s.occupied|
  }

  ghost predicate Covers(e: Extent, k: int) {
    e.start <= k < e.end
  }

  ghost predicate Disjoint(s: State) {
    forall a <- s.live, b <- s.live, k: int :: Covers(s.live[a], k) && Covers(s.live[b], k) ==> a == b
  }

  ghost predicate OccupiedExactly(s: State) {
    forall k: int :: 0 <= k < |s.occupied| ==>
      (s.occupied[k] != 0 <==> exists id :: id in s.live && Covers(s.live[id], k))
  }

  ghost predicate WritesKept(s: State) {
    forall key <- s.written ::
      && key.0 in s.live
      && s.live[key.0].start + key.1 < s.live[key.0].end
      && s.live[key.0].start + key.1 < |s.data|
      && s.data[s.live[key.0].start + key.1] == s.written[key]
  }

  /** Live regions are in bounds and disjoint, and the occupied cells are exactly theirs. */
  ghost predicate Tiled(s: State) {
    InBounds(s) && Disjoint(s) && OccupiedExactly(s)
  }

  /** The allocator's invariant. */
  ghost predicate Inv(s: State) {
    && |s.occupied| == |s.data| <= MAX_CAPACITY
    && Tiled(s)
    && s.liveRegions == |s.live|
    && WritesKept(s)
  }

  /** A fresh arena of any data, nothing occupied. */
  ghost predicate Initial(s: State) {
    && |s.occupied| == |s.data| <= MAX_CAPACITY
    && (forall k :: 0 <= k < |s.occupied| ==> s.occupied[k] == 0)
    && s.liveRegions == 0 && s.live == map[] && s.written == map[]
  }

  lemma FilledAt(cells: seq<int32>, start: nat, end: nat, value: int32, k: int)
    requires start <= end <= |cells| && 0 <= k < |cells|
    ensures Filled(cells, start, end, value)[k] == if start <= k < end then value else cells[k]
  {
  }

  /** Free cells are under no live region. */
  lemma FreeIsUncovered(s: State, start: nat, count: int, id: RegionId, k: int)
    requires Tiled(s) && FreeRun(s.occupied, start, count) && id in s.live && start <= k < start + count
    ensures !Covers(s.live[id], k)
  {
    assert s.occupied[k] == 0;
  }

  lemma AllocOccupies(s: State, id: RegionId, start: nat, count: int, t: State, k: int)
    requires Tiled(s) && id !in s.live && count > 0 && FreeRun(s.occupied, start, count)
    requires t.occupied == Filled(s.occupied, start, start + count, 1) && t.live == s.live[id := Extent(start, start + count)]
    requires 0 <= k < |t.occupied|
    ensures t.occupied[k] != 0 <==> exists other :: other in t.live && Covers(t.live[other], k)
  {
    FilledAt(s.occupied, start, start + count, 1, k);
    if start <= k < start + count {
      assert id in t.live && Covers(t.live[id], k);
    } else if s.occupied[k] != 0 {
      var other :| other in s.live && Covers(s.live[other], k);
      assert other in t.live && t.live[other] == s.live[other];
    } else {
      assert forall other <- t.live :: other != id ==> other in s.live && t.live[other] == s.live[other];
    }
  }

  lemma AllocDisjoint(s: State, id: RegionId, start: nat, count: int, t: State)
    requires Tiled(s) && id !in s.live && count > 0 && FreeRun(s.occupied, start, count)
    requires t.live == s.live[id := Extent(start, start + count)]
    ensures Disjoint(t)
  {
    forall a <- t.live, b <- t.live, k: int | Covers(t.live[a], k) && Covers(t.live[b], k) ensures a == b {
      if a == id && b != id {
        FreeIsUncovered(s, start, count, b, k);
      } else if b == id && a != id {
        FreeIsUncovered(s, start, count, a, k);
      }
    }
  }

  lemma AllocCovers(s: State, id: RegionId, start: nat, count: int, t: State)
    requires Tiled(s) && id !in s.live && count > 0 && FreeRun(s.occupied, start, count)
    requires t.occupied == Filled(s.occupied, start, start + count, 1) && t.live == s.live[id := Extent(start, start + count)]
    ensures |t.occupied| == |s.occupied| && OccupiedExactly(t)
  {
    forall k: int | 0 <= k < |t.occupied|
      ensures t.occupied[k] != 0 <==> exists other :: other in t.live && Covers(t.live[other], k)
    {
      AllocOccupies(s, id, start, count, t, k);
    }
  }

  /** Data and written values carry over to any state that keeps the regions they belong to. */
  lemma WritesCarryOver(s: State, t: State)
    requires WritesKept(s) && t.data == s.data
    requires forall key <- t.written :: key in s.written && t.written[key] == s.written[key]
    requires forall key <- t.written :: key.0 in s.live ==> key.0 in t.live && t.live[key.0] == s.live[key.0]
    ensures WritesKept(t)
  {
  }

  lemma AllocInBounds(s: State, id: RegionId, start: nat, count: int, t: State)
    requires InBounds(s) && count > 0 && FreeRun(s.occupied, start, count)
    requires |t.occupied| == |s.occupied| && t.live == s.live[id := Extent(start, start + count)]
    ensures InBounds(t)
  {
  }

  lemma AllocTiles(s: State, id: RegionId, start: nat, count: int, t: State)
    requires Tiled(s) && id !in s.live && count > 0 && FreeRun(s.occupied, start, count)
    requires t.occupied == Filled(s.occupied, start, start + count, 1) && t.live == s.live[id := Extent(start, start + count)]
    ensures Tiled(t)
  {
    AllocCovers(s, id, start, count, t);
    AllocInBounds(s, id, start, count, t);
    AllocDisjoint(s, id, start, count, t);
  }

  lemma AllocKeeps(s: State, id: RegionId, start: nat, count: int, t: State)
    requires Inv(s) && id !in s.live && count > 0 && FreeRun(s.occupied, start, count)
    requires t == State(Filled(s.occupied, start, start + count, 1), s.data, s.liveRegions + 1,
                        s.live[id := Extent(start, start + count)], s.written)
    ensures Inv(t)
  {
    AllocTiles(s, id, start, count, t);
    CountGrows(s.live, id, Extent(start, start + count));
    AllocWrites(s, id, Extent(start, start + count), t);
  }

  lemma AllocWrites(s: State, id: RegionId, extent: Extent, t: State)
    requires WritesKept(s) && id !in s.live && t.live == s.live[id := extent] && t.data == s.data && t.written == s.written
    ensures WritesKept(t)
  {
    WritesCarryOver(s, t);
  }

  lemma CountGrows(live: map<RegionId, Extent>, id: RegionId, extent: Extent)
    requires id !in live
    ensures |live[id := extent]| == |live| + 1
  {
    assert live[id := extent].Keys == live.Keys + {id};
    assert |live[id := extent]| == |live[id := extent].Keys| && |live| == |live.Keys|;
  }

  lemma CountShrinks(live: map<RegionId, Extent>, id: RegionId)
    requires id in live
    ensures |live - {id}| == |live| - 1
  {
    assert (live - {id}).Keys == live.Keys - {id};
    assert |live - {id}| == |(live - {id}).Keys| && |live| == |live.Keys|;
  }

  lemma FreeOccupies(s: State, id: RegionId, t: State, k: int)
    requires Tiled(s) && id in s.live
    requires t.occupied == Filled(s.occupied, s.live[id].start, s.live[id].end, 0) && t.live == s.live - {id}
    requires 0 <= k < |t.occupied|
    ensures t.occupied[k] != 0 <==> exists other :: other in t.live && Covers(t.live[other], k)
  {
    FilledAt(s.occupied, s.live[id].start, s.live[id].end, 0, k);
    if Covers(s.live[id], k) {
      forall other <- t.live ensures !Covers(t.live[other], k) {
        assert other in s.live && other != id;
      }
    } else if s.occupied[k] != 0 {
      var other :| other in s.live && Covers(s.live[other], k);
      assert other in t.live;
    } else {
      assert forall other <- t.live :: other in s.live;
    }
  }

  lemma FreeCovers(s: State, id: RegionId, t: State)
    requires Tiled(s) && id in s.live
    requires t.occupied == Filled(s.occupied, s.live[id].start, s.live[id].end, 0) && t.live == s.live - {id}
    ensures |t.occupied| == |s.occupied| && OccupiedExactly(t)
  {
    forall k: int | 0 <= k < |t.occupied|
      ensures t.occupied[k] != 0 <==> exists other :: other in t.live && Covers(t.live[other], k)
    {
      FreeOccupies(s, id, t, k);
    }
  }

  lemma FreeTiles(s: State, id: RegionId, t: State)
    requires Tiled(s) && id in s.live
    requires t.occupied == Filled(s.occupied, s.live[id].start, s.live[id].end, 0) && t.live == s.live - {id}
    ensures Tiled(t)
  {
    FreeCovers(s, id, t);
    FreeShrinks(s, id, t);
  }

  lemma FreeShrinks(s: State, id: RegionId, t: State)
    requires InBounds(s) && Disjoint(s) && |t.occupied| == |s.occupied| && t.live == s.live - {id}
    ensures InBounds(t) && Disjoint(t)
  {
    assert forall other <- t.live :: other in s.live && t.live[other] == s.live[other];
  }

  lemma FreeWrites(s: State, id: RegionId, t: State)
    requires WritesKept(s) && t.live == s.live - {id} && t.data == s.data
    requires t.written == map key <- s.written | key.0 != id :: s.written[key]
    ensures WritesKept(t)
  {
    forall key <- t.written ensures key in s.written && t.written[key] == s.written[key] && key.0 != id {
    }
    WritesCarryOver(s, t);
  }

  lemma FreeKeeps(s: State, id: RegionId, t: State)
    requires Inv(s) && Next(s, Free(id), t)
    ensures Inv(t)
  {
    FreeTiles(s, id, t);
    CountShrinks(s.live, id);
    FreeWrites(s, id, t);
  }

  lemma WriteKeeps(s: State, id: RegionId, index: nat, value: int32, t: State)
    requires Inv(s) && Allowed(s, Write(id, index, value)) && Next(s, Write(id, index, value), t)
    ensures Inv(t)
  {
    var cell := s.live[id].start + index;
    forall key <- t.written
      ensures && key.0 in t.live
              && t.live[key.0].start + key.1 < t.live[key.0].end
              && t.live[key.0].start + key.1 < |t.data|
              && t.data[t.live[key.0].start + key.1] == t.written[key]
    {
      if key != (id, index) && s.live[key.0].start + key.1 == cell {
        assert Covers(s.live[key.0], cell) && Covers(s.live[id], cell);
      }
    }
  }

  lemma AllocStepKeeps(s: State, id: RegionId, count: int, t: State)
    requires Inv(s) && id !in s.live && Next(s, Alloc(id, count), t)
    ensures Inv(t) && |t.occupied| == |s.occupied|
  {
    if count > 0 && exists start :: FirstFit(s.occupied, start, count) {
      var start: nat :| FirstFit(s.occupied, start, count) && t == Allocated(s, id, start, count);
      AllocKeeps(s, id, start, count, t);
    }
  }

  lemma StepKeeps(s: State, step: Step, t: State)
    requires Inv(s) && Allowed(s, step) && Next(s, step, t)
    ensures Inv(t) && |t.occupied| == |s.occupied|
  {
    match step
    case Alloc(id, count) => AllocStepKeeps(s, id, count, t);
    case Free(id) => FreeKeeps(s, id, t);
    case Write(id, index, value) => WriteKeeps(s, id, index, value, t);
  }

  /** A run: consecutive states, each reached from the last by one allowed call. */
  ghost predicate IsRun(states: seq<State>, steps: seq<Step>) {
    && |states| == |steps| + 1
    && Initial(states[0])
    && forall i :: 0 <= i < |steps| ==> Allowed(states[i], steps[i]) && Next(states[i], steps[i], states[i + 1])
  }

  /**
   * Throughout every run, live regions are in bounds and pairwise disjoint, a
   * cell is occupied exactly when a live region covers it, and the live count
   * is the number of live regions.
   */
  lemma {:induction false} RunKeeps(states: seq<State>, steps: seq<Step>, i: nat)
    requires IsRun(states, steps) && i <= |steps|
    ensures Inv(states[i]) && |states[i].occupied| == |states[0].occupied|
  {
    if i > 0 {
      RunKeeps(states, steps, i - 1);
      StepKeeps(states[i - 1], steps[i - 1], states[i]);
    }
  }

  function Read(s: State, id: RegionId, index: nat): int32
    requires id in s.live && s.live[id].start + index < |s.data|
  {
    s.data[s.live[id].start + index]
  }

  /** The value `id` last wrote at `index`, unless it was freed or reallocated since. */
  ghost function LastWritten(steps: seq<Step>, id: RegionId, index: nat): Option<int32> {
    if steps == [] then None
    else
      match steps[|steps| - 1]
      case Write(w, at, value) =>
        if w == id && at == index then Some(value) else LastWritten(steps[..|steps| - 1], id, index)
      case Free(f) => if f == id then None else LastWritten(steps[..|steps| - 1], id, index)
      case Alloc(a, _) => LastWritten(steps[..|steps| - 1], id, index)
  }

  ghost function Written(s: State, id: RegionId, index: nat): Option<int32> {
    if (id, index) in s.written then Some(s.written[(id, index)]) else None
  }

  lemma {:induction false} WrittenIsLastWritten(states: seq<State>, steps: seq<Step>, i: nat, id: RegionId, index: nat)
    requires IsRun(states, steps) && i <= |steps|
    ensures Written(states[i], id, index) == LastWritten(steps[..i], id, index)
  {
    if i > 0 {
      WrittenIsLastWritten(states, steps, i - 1, id, index);
      assert steps[..i][..i - 1] == steps[..i - 1];
      assert Next(states[i - 1], steps[i - 1], states[i]);
    }
  }

  /** A read through a live region returns the last value written through it, whatever other regions did since. */
  lemma ReadsLastWrite(states: seq<State>, steps: seq<Step>, i: nat, id: RegionId, index: nat)
    requires IsRun(states, steps) && i <= |steps|
    requires LastWritten(steps[..i], id, index).Some?
    ensures id in states[i].live && states[i].live[id].start + index < |states[i].data|
    ensures Read(states[i], id, index) == LastWritten(steps[..i], id, index).value
  {
    RunKeeps(states, steps, i);
    WrittenIsLastWritten(states, steps, i, id, index);
    ReadsWritten(states[i], id, index);
  }

  lemma ReadsWritten(s: State, id: RegionId, index: nat)
    requires WritesKept(s) && Written(s, id, index).Some?
    ensures id in s.live && s.live[id].start + index < |s.data| && Read(s, id, index) == Written(s, id, index).value
  {
    assert (id, index) in s.written;
  }

  // ---------- the live count cannot overflow ----------

  lemma {:induction false} BoundedSet(s: set<int>, n: nat)
    requires forall x <- s :: 0 <= x < n
    ensures |s| <= n
  {
    if n == 0 {
      assert forall x :: x !in s;
    } else {
      var rest := s - {n - 1};
      BoundedSet(rest, n - 1);
      assert |s| <= |rest| + 1 by {
        if n - 1 in s { assert s == rest + {n - 1}; } else { assert s == rest; }
      }
    }
  }

  /** Distinct values of a map's keys are no fewer than the keys. */
  lemma {:induction false} InjectiveImage(m: map<RegionId, Extent>, starts: set<int>)
    requires forall id <- m :: m[id].start in starts
    requires forall a <- m, b <- m :: m[a].start == m[b].start ==> a == b
    ensures |m.Keys| <= |starts|
    decreases m.Keys
  {
    if m.Keys != {} {
      var id :| id in m.Keys;
      var rest := m - {id};
      assert rest.Keys == m.Keys - {id};
      InjectiveImage(rest, starts - {m[id].start as int});
    }
  }

  /** Every live region holds a cell of its own, so the count stays far inside an int32. */
  lemma LiveCountFits(s: State)
    requires Inv(s)
    ensures 0 <= s.liveRegions <= |s.occupied| <= 536870911
  {
    var starts: set<int> := set id <- s.live :: s.live[id].start;
    BoundedSet(starts, |s.occupied|);
    forall a <- s.live, b <- s.live | s.live[a].start == s.live[b].start ensures a == b {
      assert Covers(s.live[a], s.live[a].start) && Covers(s.live[b], s.live[a].start);
    }
    InjectiveImage(s.live, starts);
    assert |s.live| == |s.live.Keys|;
  }

  /** Allocation changes no live region and no written value, and takes only cells no live region covers. */
  lemma AllocIsIsolated(s: State, id: RegionId, count: int, t: State)
    requires Inv(s) && id !in s.live && Next(s, Alloc(id, count), t)
    ensures forall other <- s.live :: other in t.live && t.live[other] == s.live[other]
    ensures t.data == s.data && t.written == s.written
    ensures id in t.live <==> count > 0 && HasFreeRun(s.occupied, count)
    ensures id in t.live ==> FirstFit(s.occupied, t.live[id].start, count) && t.live[id].end == t.live[id].start + count
  {
    if count > 0 && HasFreeRun(s.occupied, count) {
      var start :| FreeRun(s.occupied, start, count);
      LeftmostExists(s.occupied, start, count);
    }
  }

  lemma {:induction false} LeftmostExists(occupied: seq<int32>, start: int, count: int)
    requires FreeRun(occupied, start, count)
    ensures exists s :: FirstFit(occupied, s, count)
    decreases start
  {
    if s :| 0 <= s < start && FreeRun(occupied, s, count) {
      LeftmostExists(occupied, s, count);
    } else {
      assert FirstFit(occupied, start, count);
    }
  }
}
