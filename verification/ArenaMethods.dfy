/**
 * The arena's operations as they run, in 32-bit arithmetic on the arena's own
 * arrays. Each is tied to the step it takes in the model of whole runs; what the
 * callers know (`live`, `written`) is passed along as ghost values.
 */
module ArenaMethods {
  import opened ArenaModel

  class Arena {
    var data: array?<int32>
    var occupied: array?<int32>
    var capacity: int32
    var liveRegions: int32

    /** Either nothing was allocated, or both arrays were and have the recorded capacity. */
    ghost predicate Wellformed()
      reads this
    {
      if data == null || occupied == null then
        data == null && occupied == null && capacity == 0
      else
        data != occupied && data.Length == occupied.Length == capacity as int
    }

    ghost function Model(live: map<RegionId, Extent>, written: map<(RegionId, nat), int32>): State
      reads this, data, occupied
    {
      State(if occupied == null then [] else occupied[..], if data == null then [] else data[..],
            liveRegions as int, live, written)
    }
  }

  class Region {
    var arena: Arena?
    var start: int32
    var end: int32

    /** This descriptor is the live region `id` of `home`. */
    ghost predicate Is(home: Arena, id: RegionId, live: map<RegionId, Extent>)
      reads this
    {
      arena == home && id in live && start as int == live[id].start && end as int == live[id].end
    }
  }

  /** `dataGranted` and `occupiedGranted` say whether the two allocations succeed. */
  method ArenaInit(arena: Arena, capacity: int32, dataGranted: bool, occupiedGranted: bool) returns (result: int32)
    modifies arena
    ensures result == if 0 < capacity <= 536870911 && dataGranted && occupiedGranted then 1 else 0
    ensures arena.Wellformed() && Initial(arena.Model(map[], map[]))
    ensures result == 1 ==> arena.data != null && fresh(arena.data) && arena.occupied != null && fresh(arena.occupied)
    ensures arena.capacity == if result == 1 then capacity else 0
  {
    arena.data, arena.occupied, arena.capacity, arena.liveRegions := null, null, 0, 0;
    if capacity <= 0 {
      return 0;
    }
    if capacity > 536870911 {
      return 0;
    }
    if !dataGranted {
      return 0;
    }
    var data := new int32[capacity];
    if !occupiedGranted {
      return 0;
    }
    var occupied := new int32[capacity];
    var i: int32 := 0;
    while i < capacity
      invariant 0 <= i <= capacity
      invariant forall k: int :: 0 <= k < i as int ==> occupied[k] == 0
      modifies occupied
    {
      occupied[i] := 0;
      i := i + 1;
    }
    arena.data, arena.occupied, arena.capacity := data, occupied, capacity;
    return 1;
  }

  ghost predicate NoneBefore(cells: seq<int32>, bound: int, count: int) {
    forall s :: 0 <= s < bound ==> !FreeRun(cells, s, count)
  }

  /** An occupied cell at the end of too short a run rules out every start up to it. */
  lemma NoneAcross(cells: seq<int32>, at: int, runLength: int, count: int)
    requires 0 <= runLength < count && runLength <= at < |cells| && cells[at] != 0
    requires NoneBefore(cells, at - runLength, count)
    ensures NoneBefore(cells, at + 1, count)
  {
    forall s | 0 <= s < at + 1 ensures !FreeRun(cells, s, count) {
      if at - runLength <= s {
        assert s <= at < s + count;
      }
    }
  }

  /** The scan: it stops at the end of the leftmost run of `count` free cells, or at the end of the arena. */
  method Scan(arena: Arena, count: int32) returns (i: int32, runLength: int32)
    requires arena.Wellformed() && arena.occupied != null && 0 < count <= arena.capacity
    ensures 0 <= runLength <= count && runLength <= i <= arena.capacity
    ensures runLength == count <==> HasFreeRun(arena.occupied[..], count as int)
    ensures runLength == count ==> FirstFit(arena.occupied[..], i as int - count as int, count as int)
  {
    i, runLength := 0, 0;
    ghost var cells, wanted := arena.occupied[..], count as int;
    while i < arena.capacity && runLength < count
      invariant 0 <= runLength <= count && runLength <= i <= arena.capacity
      invariant forall k: int :: i as int - runLength as int <= k < i as int ==> cells[k] == 0
      invariant NoneBefore(cells, i as int - runLength as int, wanted)
    {
      if arena.occupied[i] == 0 {
        runLength := runLength + 1;
      } else {
        NoneAcross(cells, i as int, runLength as int, wanted);
        runLength := 0;
      }
      i := i + 1;
    }
    if runLength == count {
      assert FreeRun(cells, i as int - wanted, wanted);
    }
  }

  /** Sets `[start, end)`, the loop that marks and the loop that clears. */
  method Mark(cells: array<int32>, start: int32, end: int32, value: int32)
    requires 0 <= start <= end && end as int <= cells.Length
    modifies cells
    ensures cells[..] == Filled(old(cells[..]), start as nat, end as nat, value)
  {
    var i := start;
    while i < end
      invariant start <= i <= end
      invariant cells[..] == Filled(old(cells[..]), start as nat, i as nat, value)
    {
      cells[i] := value;
      i := i + 1;
    }
  }

  lemma TakesLeftmost(s: State, id: RegionId, count: int, start: nat)
    requires count > 0 && FirstFit(s.occupied, start, count)
    ensures Next(s, Alloc(id, count), Allocated(s, id, start, count))
  {
  }

  lemma TakesNothing(s: State, id: RegionId, count: int)
    requires count <= 0 || !HasFreeRun(s.occupied, count)
    ensures Next(s, Alloc(id, count), s)
  {
  }

  /** Marks the cells, fills in the descriptor and counts the region. */
  method Take(arena: Arena, start: int32, end: int32, region: Region,
              ghost id: RegionId, ghost live: map<RegionId, Extent>, ghost written: map<(RegionId, nat), int32>)
    requires arena.Wellformed() && Inv(arena.Model(live, written))
    requires 0 <= start <= end <= arena.capacity && arena.occupied != null
    modifies arena`liveRegions, arena.occupied, region
    ensures arena.Wellformed()
    ensures region.arena == arena && region.start == start && region.end == end
    ensures arena.Model(live[id := Extent(start as nat, end as nat)], written)
         == Allocated(old(arena.Model(live, written)), id, start as nat, (end - start) as nat)
  {
    LiveCountFits(arena.Model(live, written));
    Mark(arena.occupied, start, end, 1);
    region.arena, region.start, region.end := arena, start, end;
    arena.liveRegions := arena.liveRegions + 1;
  }

  /**
   * Succeeds exactly when some `count` consecutive cells are free, takes the
   * leftmost such run, and otherwise changes nothing.
   */
  method ArenaAlloc(arena: Arena, count: int32, region: Region,
                    ghost id: RegionId, ghost live: map<RegionId, Extent>, ghost written: map<(RegionId, nat), int32>)
    returns (result: int32)
    requires arena.Wellformed() && Inv(arena.Model(live, written)) && id !in live
    modifies arena`liveRegions, arena.occupied, region
    ensures arena.Wellformed()
    ensures result == if count > 0 && HasFreeRun(old(arena.Model(live, written)).occupied, count as int) then 1 else 0
    ensures result == 1 ==>
      && region.arena == arena && 0 <= region.start < region.end && region.end as int == region.start as int + count as int
      && FirstFit(old(arena.Model(live, written)).occupied, region.start as int, count as int)
    ensures Next(old(arena.Model(live, written)), Alloc(id, count as int),
                 arena.Model(if result == 1 then live[id := Extent(region.start as nat, region.end as nat)] else live, written))
    ensures result == 0 ==> unchanged(region) && unchanged(arena) && (arena.occupied != null ==> unchanged(arena.occupied))
  {
    ghost var before := arena.Model(live, written);
    if count <= 0 {
      TakesNothing(before, id, count as int);
      return 0;
    }
    if count > arena.capacity {
      TakesNothing(before, id, count as int);
      return 0;
    }
    var i, runLength := Scan(arena, count);
    if runLength < count {
      TakesNothing(before, id, count as int);
      return 0;
    }
    var start, end := i - count, i;
    TakesLeftmost(before, id, count as int, start as nat);
    Take(arena, start, end, region, id, live, written);
    return 1;
  }

  method ArenaFree(region: Region, ghost home: Arena,
                   ghost id: RegionId, ghost live: map<RegionId, Extent>, ghost written: map<(RegionId, nat), int32>)
    requires home.Wellformed() && Inv(home.Model(live, written)) && region.Is(home, id, live)
    modifies home`liveRegions, home.occupied
    ensures home.Wellformed()
    ensures Next(old(home.Model(live, written)), Free(id),
                 home.Model(live - {id}, map key <- written | key.0 != id :: written[key]))
  {
    LiveCountFits(home.Model(live, written));
    var arena := region.arena;
    Mark(arena.occupied, region.start, region.end, 0);
    arena.liveRegions := arena.liveRegions - 1;
  }

  method ArenaWrite(region: Region, index: int32, value: int32, ghost home: Arena,
                    ghost id: RegionId, ghost live: map<RegionId, Extent>, ghost written: map<(RegionId, nat), int32>)
    requires home.Wellformed() && Inv(home.Model(live, written)) && region.Is(home, id, live)
    requires 0 <= index && region.start as int + index as int < region.end as int
    modifies home.data
    ensures Next(old(home.Model(live, written)), Write(id, index as nat, value),
                 home.Model(live, written[(id, index as nat) := value]))
  {
    var arena := region.arena;
    arena.data[region.start + index] := value;
  }

  method ArenaRead(region: Region, index: int32, ghost home: Arena,
                   ghost id: RegionId, ghost live: map<RegionId, Extent>, ghost written: map<(RegionId, nat), int32>)
    returns (value: int32)
    requires home.Wellformed() && Inv(home.Model(live, written)) && region.Is(home, id, live)
    requires 0 <= index && region.start as int + index as int < region.end as int
    ensures value == Read(home.Model(live, written), id, index as nat)
    ensures (id, index as nat) in written ==> value == written[(id, index as nat)]
  {
    var arena := region.arena;
    return arena.data[region.start + index];
  }
}
