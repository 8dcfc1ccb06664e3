/**
  The hardware buffer allocator (libs/hbuf_alloc/hwbuffer_allocator.c).

  Buffers are grouped in zones by their size, rounded up to 4096.  A buffer that is given back stays in its
  zone's free list; when the driver runs out of memory, the free buffers of all other zones are released and
  the request is tried once more.

  Releasing a zone's free buffers should empty its free list.  The source never resets that list; `emptied`
  says whether it is reset, as intended, or not, as written.  The invariant of the allocator is kept by every
  run if it is, and the exact condition under which a call keeps it is given for when it is not.
*/
module HwAllocator {
  import opened Helpers

  datatype Zone = Zone(size: int, cnt: int, freecnt: int, free: seq<nat>, all: seq<nat>)

  /**
    `owner` gives the zone of every buffer the driver has memory allocated for; zones are told apart by their size.
    `held` is what the callers have been given and have not given back.
   */
  datatype State = State(ready: bool, zones: seq<Zone>, owner: map<nat, int>, next: nat, held: set<nat>)

  /** What the driver answers: to opening it, to the first and the second request for memory, to mapping it. */
  datatype Answers = Answers(open: bool, alloc: bool, again: bool, mapped: bool)

  const UNIT: int := 4096

  function RoundUp(size: int): int {
    (size + UNIT - 1) / UNIT * UNIT
  }

  lemma RoundUpIsLeast(size: int, m: int)
    ensures RoundUp(size) % UNIT == 0 && size <= RoundUp(size) < size + UNIT
    ensures m % UNIT == 0 && size <= m ==> RoundUp(size) <= m
  {
  }

  // ---------- Lists ----------

  function Remove(s: seq<nat>, b: nat): seq<nat>
    decreases |s|
  {
    if s == [] then [] else if s[0] == b then Remove(s[1..], b) else [s[0]] + Remove(s[1..], b)
  }

  function RemoveAll(s: seq<nat>, gone: seq<nat>): seq<nat>
    decreases |gone|
  {
    if gone == [] then s else RemoveAll(Remove(s, gone[0]), gone[1..])
  }

  function Elements(s: seq<nat>): set<nat> {
    set b | b in s
  }

  lemma {:induction false} RemoveExactly(s: seq<nat>, b: nat)
    requires Distinct(s)
    ensures Distinct(Remove(s, b)) && |Remove(s, b)| == |s| - if b in s then 1 else 0
    ensures forall x :: x in Remove(s, b) <==> x in s && x != b
    decreases |s|
  {
    if s == [] {
    } else {
      DistinctParts(s);
      RemoveExactly(s[1..], b);
      if s[0] != b {
        var r := Remove(s, b);
        assert r[1..] == Remove(s[1..], b);
        DistinctParts(r);
      }
    }
  }

  lemma {:induction false} RemoveAllExactly(s: seq<nat>, gone: seq<nat>)
    requires Distinct(s) && Distinct(gone) && forall b :: b in gone ==> b in s
    ensures var r := RemoveAll(s, gone); Distinct(r) && |r| == |s| - |gone|
    ensures forall x :: x in RemoveAll(s, gone) <==> x in s && x !in gone
    decreases |gone|
  {
    if gone == [] {
    } else {
      RemoveExactly(s, gone[0]);
      assert forall b :: b in gone <==> b == gone[0] || b in gone[1..];
      RemoveAllExactly(Remove(s, gone[0]), gone[1..]);
    }
  }

  // ---------- What the operations compute ----------

  /** The position of the zone of this size, or the length of the list. */
  function IndexOf(zones: seq<Zone>, size: int): (i: nat)
    ensures i <= |zones| && (i < |zones| ==> zones[i].size == size)
    ensures forall j :: 0 <= j < i ==> zones[j].size != size
    decreases |zones|
  {
    if zones == [] || zones[0].size == size then 0 else 1 + IndexOf(zones[1..], size)
  }

  /** find_or_create_zone_by_size */
  function FindOrCreate(zones: seq<Zone>, size: int): (z: seq<Zone>)
    ensures IndexOf(z, size) < |z|
  {
    if IndexOf(zones, size) < |zones| then zones else [Zone(size, 0, 0, [], [])] + zones
  }

  function Without(zones: seq<Zone>, i: nat): seq<Zone>
    requires i < |zones|
  {
    zones[..i] + zones[i + 1..]
  }

  /** destory_zone */
  function Destroy(s: State, i: nat): State
    requires i < |s.zones|
  {
    s.(zones := Without(s.zones, i), owner := s.owner - Elements(s.zones[i].all))
  }

  /** recycle_zone, without the removal of the zone */
  function Recycled(z: Zone, emptied: bool): Zone {
    z.(cnt := z.cnt - |z.free|, freecnt := z.freecnt - |z.free|, all := RemoveAll(z.all, z.free),
       free := if emptied then [] else z.free)
  }

  /** What becomes of one zone in recycle_exclude. */
  function Kept(z: Zone, ex: int, emptied: bool): seq<Zone> {
    if z.size == ex then [z] else if Recycled(z, emptied).all == [] then [] else [Recycled(z, emptied)]
  }

  function RecycleZones(zones: seq<Zone>, ex: int, emptied: bool): seq<Zone> {
    if zones == [] then [] else Kept(zones[0], ex, emptied) + RecycleZones(zones[1..], ex, emptied)
  }

  function Released(zones: seq<Zone>, ex: int): set<nat> {
    if zones == [] then {}
    else (if zones[0].size == ex then {} else Elements(zones[0].free)) + Released(zones[1..], ex)
  }

  /** recycle_exclude */
  function Recycle(s: State, ex: int, emptied: bool): State {
    s.(zones := RecycleZones(s.zones, ex, emptied), owner := s.owner - Released(s.zones, ex))
  }

  /** The end of mfw_new_hw_buffer without a buffer: an empty zone goes again. */
  function GiveUp(s: State, size: int): State {
    var i := IndexOf(s.zones, size);
    if i < |s.zones| && s.zones[i].all == [] then Destroy(s, i) else s
  }

  function Joined(z: Zone, b: nat): Zone {
    z.(all := [b] + z.all, cnt := z.cnt + 1)
  }

  /** A buffer that the driver has allocated and mapped joins its zone. */
  function Join(s: State, size: int): State {
    var i := IndexOf(s.zones, size);
    if i < |s.zones| then
      var z := s.zones[i];
      s.(zones := s.zones[i := Joined(z, s.next)], owner := s.owner[s.next := size],
         next := s.next + 1)
    else s
  }

  predicate Recycles(a: Answers) {
    !a.alloc
  }

  /** create_hwbuf */
  function Create(s: State, size: int, a: Answers, emptied: bool): (State, Option<nat>) {
    var t := if Recycles(a) then Recycle(s, size, emptied) else s;
    if (a.alloc || a.again) && a.mapped then (Join(t, size), Some(t.next)) else (t, None)
  }

  function Popped(z: Zone): Zone
    requires z.free != []
  {
    z.(free := z.free[1..], freecnt := z.freecnt - 1)
  }

  /** The zone's first free buffer is taken, for which there must be one. */
  function PopFree(s: State, i: nat): State
    requires i < |s.zones| && s.zones[i].free != []
  {
    s.(zones := s.zones[i := Popped(s.zones[i])])
  }

  /** mfw_new_hw_buffer, which also makes the caller hold what it returns. */
  function New(s: State, size: int, a: Answers, emptied: bool): (State, Option<nat>) {
    if !s.ready && !a.open then (s, None)
    else
      var zs := RoundUp(size);
      var t := s.(ready := true, zones := FindOrCreate(s.zones, zs));
      var i := IndexOf(t.zones, zs);
      if t.zones[i].free != [] then
        var b := t.zones[i].free[0];
        (PopFree(t, i).(held := t.held + {b}), Some(b))
      else
        var (u, b) := Create(t, zs, a, emptied);
        if b.Some? then (u.(held := u.held + {b.value}), b) else (GiveUp(u, zs), None)
  }

  /** mfw_free_hw_buffer */
  function Free(s: State, b: nat): State
    requires b in s.owner && IndexOf(s.zones, s.owner[b]) < |s.zones|
  {
    var i := IndexOf(s.zones, s.owner[b]);
    var z := s.zones[i];
    var t := s.(zones := s.zones[i := z.(free := [b] + z.free, freecnt := z.freecnt + 1)], held := s.held - {b});
    if z.freecnt + 1 == z.cnt then Destroy(t, i) else t
  }

  // ---------- The invariant ----------

  ghost predicate Counted(z: Zone) {
    && z.size % UNIT == 0 && z.cnt == |z.all| && z.freecnt == |z.free|
    && Distinct(z.all) && Distinct(z.free) && (forall b :: b in z.free ==> b in z.all)
  }

  /** Between calls every zone also has a buffer in use. */
  ghost predicate ZoneOk(z: Zone) {
    Counted(z) && z.freecnt < z.cnt
  }

  ghost predicate DistinctSizes(zones: seq<Zone>) {
    forall i, j :: 0 <= i < j < |zones| ==> zones[i].size != zones[j].size
  }

  /** The zone of a size, if there is one. */
  function Get(zones: seq<Zone>, size: int): Option<Zone> {
    var i := IndexOf(zones, size);
    if i < |zones| then Some(zones[i]) else None
  }

  ghost predicate InZone(zones: seq<Zone>, b: nat, size: int) {
    Get(zones, size).Some? && b in Get(zones, size).value.all
  }

  ghost predicate OnFreeList(zones: seq<Zone>, b: nat, size: int) {
    Get(zones, size).Some? && b in Get(zones, size).value.free
  }

  /** A buffer with memory is in its zone; it is held by a caller exactly when it is not on that zone's free list. */
  ghost predicate BufferOk(s: State, b: nat) {
    && (b in s.owner ==> InZone(s.zones, b, s.owner[b]) && b < s.next)
    && (b in s.held <==> b in s.owner && !OnFreeList(s.zones, b, s.owner[b]))
  }

  /** In the middle of a call, the zone it is for has no free buffers and possibly no buffer at all. */
  ghost predicate SizeOk(s: State, size: int, but: Option<int>) {
    Get(s.zones, size).Some? ==>
      var z := Get(s.zones, size).value;
      && (if but == Some(size) then Counted(z) && z.free == [] else ZoneOk(z))
      && forall b :: b in z.all ==> b in s.owner && s.owner[b] == size
  }

  ghost predicate InvBut(s: State, but: Option<int>) {
    && DistinctSizes(s.zones)
    && (forall b :: BufferOk(s, b))
    && (forall size :: SizeOk(s, size, but))
  }

  ghost predicate Inv(s: State) {
    InvBut(s, None)
  }

  // ---------- Looking zones up ----------

  lemma IndexIs(zones: seq<Zone>, i: nat)
    requires DistinctSizes(zones) && i < |zones|
    ensures IndexOf(zones, zones[i].size) == i && Get(zones, zones[i].size) == Some(zones[i])
  {
  }

  lemma GetUpdated(zones: seq<Zone>, i: nat, z: Zone, size: int)
    requires DistinctSizes(zones) && i < |zones| && z.size == zones[i].size
    ensures DistinctSizes(zones[i := z])
    ensures Get(zones[i := z], size) == if size == z.size then Some(z) else Get(zones, size)
    ensures IndexOf(zones[i := z], size) == IndexOf(zones, size)
  {
    IndexIs(zones, i);
    var after := zones[i := z];
    assert forall j :: 0 <= j < |zones| ==> after[j].size == zones[j].size;
  }

  lemma GetFirst(z: Zone, zones: seq<Zone>, size: int)
    ensures Get([z] + zones, size) == if size == z.size then Some(z) else Get(zones, size)
  {
    assert ([z] + zones)[1..] == zones;
  }

  lemma StillDistinct(zones: seq<Zone>, i: nat)
    requires DistinctSizes(zones) && i < |zones|
    ensures var after := Without(zones, i);
            && DistinctSizes(after) && (forall j :: 0 <= j < |after| ==> after[j].size != zones[i].size)
            && (forall j :: 0 <= j < |after| ==> after[j] in zones)
  {
    var after := Without(zones, i);
    assert forall j :: 0 <= j < |after| ==> after[j] == zones[if j < i then j else j + 1];
  }

  lemma IndexOutside(zones: seq<Zone>, size: int)
    requires forall i :: 0 <= i < |zones| ==> zones[i].size != size
    ensures Get(zones, size) == None
  {
  }

  lemma GetIs(zones: seq<Zone>, z: Zone)
    requires DistinctSizes(zones) && z in zones
    ensures Get(zones, z.size) == Some(z)
  {
    var i :| 0 <= i < |zones| && zones[i] == z;
    IndexIs(zones, i);
  }

  lemma GetWithout(zones: seq<Zone>, i: nat, size: int)
    requires DistinctSizes(zones) && i < |zones|
    ensures Get(Without(zones, i), size) == if size == zones[i].size then None else Get(zones, size)
  {
    StillDistinct(zones, i);
    var after := Without(zones, i);
    var j := IndexOf(zones, size);
    if size == zones[i].size {
      IndexOutside(after, size);
    } else if j < |zones| {
      assert zones[j] == after[if j < i then j else j - 1];
      GetIs(after, zones[j]);
    } else {
      IndexOutside(after, size);
    }
  }

  /** When every zone keeps a buffer, recycling changes the zones one by one. */
  lemma {:induction false} RecycledOneByOne(zones: seq<Zone>, ex: int, emptied: bool)
    requires forall i :: 0 <= i < |zones| && zones[i].size != ex ==> ZoneOk(zones[i])
    ensures var r := RecycleZones(zones, ex, emptied);
            && |r| == |zones|
            && forall i :: 0 <= i < |r| ==>
                 r[i] == if zones[i].size == ex then zones[i] else Recycled(zones[i], emptied)
    ensures forall b :: b in Released(zones, ex) <==>
              exists i :: 0 <= i < |zones| && zones[i].size != ex && b in zones[i].free
  {
    if zones == [] {
    } else {
      RecycledOneByOne(zones[1..], ex, emptied);
      if zones[0].size != ex {
        RemoveAllExactly(zones[0].all, zones[0].free);
      }
    }
  }

  lemma GetRecycled(zones: seq<Zone>, ex: int, emptied: bool, size: int)
    requires DistinctSizes(zones)
    requires forall i :: 0 <= i < |zones| && zones[i].size != ex ==> ZoneOk(zones[i])
    ensures DistinctSizes(RecycleZones(zones, ex, emptied))
    ensures Get(RecycleZones(zones, ex, emptied), size)
         == if size == ex || Get(zones, size).None? then Get(zones, size)
            else Some(Recycled(Get(zones, size).value, emptied))
  {
    RecycledOneByOne(zones, ex, emptied);
    var r := RecycleZones(zones, ex, emptied);
    assert forall i :: 0 <= i < |r| ==> r[i].size == zones[i].size;
    var i := IndexOf(zones, size);
    if i < |zones| {
      IndexIs(r, i);
    } else {
      IndexOutside(r, size);
    }
  }

  lemma EveryZone(s: State, but: Option<int>)
    requires InvBut(s, but)
    ensures forall i :: 0 <= i < |s.zones| && Some(s.zones[i].size) != but ==> ZoneOk(s.zones[i])
  {
    forall i | 0 <= i < |s.zones| && Some(s.zones[i].size) != but ensures ZoneOk(s.zones[i]) {
      IndexIs(s.zones, i);
      assert SizeOk(s, s.zones[i].size, but);
    }
  }

  /** What recycling releases is what lies on the free lists of the other zones. */
  lemma ReleasedAreFree(s: State, ex: int, b: nat)
    requires InvBut(s, Some(ex))
    ensures b in Released(s.zones, ex) <==> b in s.owner && OnFreeList(s.zones, b, s.owner[b])
  {
    EveryZone(s, Some(ex));
    RecycledOneByOne(s.zones, ex, true);
    if b in Released(s.zones, ex) {
      var i :| 0 <= i < |s.zones| && s.zones[i].size != ex && b in s.zones[i].free;
      IndexIs(s.zones, i);
      assert SizeOk(s, s.zones[i].size, Some(ex));
    }
    if b in s.owner && OnFreeList(s.zones, b, s.owner[b]) {
      assert SizeOk(s, s.owner[b], Some(ex));
      assert s.zones[IndexOf(s.zones, s.owner[b])].size != ex;
    }
  }

  lemma RecycledZoneOk(z: Zone)
    requires ZoneOk(z)
    ensures ZoneOk(Recycled(z, true))
    ensures forall b :: b in Recycled(z, true).all <==> b in z.all && b !in z.free
  {
    RemoveAllExactly(z.all, z.free);
  }

  lemma RecycleKeepsBuffer(s: State, ex: int, b: nat)
    requires InvBut(s, Some(ex))
    ensures BufferOk(Recycle(s, ex, true), b)
  {
    var t := Recycle(s, ex, true);
    assert BufferOk(s, b);
    ReleasedAreFree(s, ex, b);
    EveryZone(s, Some(ex));
    if b in s.owner {
      GetRecycled(s.zones, ex, true, s.owner[b]);
      assert SizeOk(s, s.owner[b], Some(ex));
      if s.owner[b] != ex {
        RecycledZoneOk(Get(s.zones, s.owner[b]).value);
      }
    }
  }

  lemma RecycleKeepsSize(s: State, ex: int, size: int)
    requires InvBut(s, Some(ex))
    ensures SizeOk(Recycle(s, ex, true), size, Some(ex))
  {
    EveryZone(s, Some(ex));
    GetRecycled(s.zones, ex, true, size);
    if Get(s.zones, size).Some? {
      var z := Get(s.zones, size).value;
      assert SizeOk(s, size, Some(ex));
      if size != ex {
        RecycledZoneOk(z);
      }
      forall b ensures b in Released(s.zones, ex) <==> b in s.owner && OnFreeList(s.zones, b, s.owner[b]) {
        ReleasedAreFree(s, ex, b);
      }
    }
  }

  lemma RecycleKeeps(s: State, ex: int)
    requires InvBut(s, Some(ex))
    ensures InvBut(Recycle(s, ex, true), Some(ex)) && Get(Recycle(s, ex, true).zones, ex) == Get(s.zones, ex)
  {
    EveryZone(s, Some(ex));
    GetRecycled(s.zones, ex, true, ex);
    forall b ensures BufferOk(Recycle(s, ex, true), b) {
      RecycleKeepsBuffer(s, ex, b);
    }
    forall size ensures SizeOk(Recycle(s, ex, true), size, Some(ex)) {
      RecycleKeepsSize(s, ex, size);
    }
  }

  lemma JoinedIsOk(z: Zone, b: nat)
    requires Counted(z) && z.free == [] && b !in z.all
    ensures ZoneOk(Joined(z, b)) && forall x :: x in Joined(z, b).all <==> x == b || x in z.all
  {
    DistinctParts(Joined(z, b).all);
  }

  lemma JoinKeepsBuffer(s: State, size: int, b: nat)
    requires InvBut(s, Some(size)) && Get(s.zones, size).Some?
    ensures BufferOk(Join(s, size).(held := s.held + {s.next}), b)
  {
    var i := IndexOf(s.zones, size);
    var y := Joined(s.zones[i], s.next);
    assert BufferOk(s, s.next) && BufferOk(s, b) && SizeOk(s, size, Some(size));
    GetUpdated(s.zones, i, y, size);
    if b in s.owner {
      GetUpdated(s.zones, i, y, s.owner[b]);
    }
  }

  lemma JoinKeeps(s: State, size: int)
    requires InvBut(s, Some(size)) && Get(s.zones, size).Some?
    ensures Inv(Join(s, size).(held := s.held + {s.next})) && s.next !in s.owner
  {
    var i := IndexOf(s.zones, size);
    var y := Joined(s.zones[i], s.next);
    var t := Join(s, size).(held := s.held + {s.next});
    assert BufferOk(s, s.next) && SizeOk(s, size, Some(size));
    JoinedIsOk(s.zones[i], s.next);
    GetUpdated(s.zones, i, y, size);
    forall b ensures BufferOk(t, b) {
      JoinKeepsBuffer(s, size, b);
    }
    forall other ensures SizeOk(t, other, None) {
      GetUpdated(s.zones, i, y, other);
      assert SizeOk(s, other, Some(size));
    }
  }

  lemma GiveUpKeeps(s: State, size: int)
    requires InvBut(s, Some(size))
    ensures Inv(GiveUp(s, size))
  {
    var i := IndexOf(s.zones, size);
    var t := GiveUp(s, size);
    if i < |s.zones| && s.zones[i].all == [] {
      StillDistinct(s.zones, i);
      assert t.owner == s.owner;
      forall b ensures BufferOk(t, b) {
        assert BufferOk(s, b);
        if b in s.owner {
          GetWithout(s.zones, i, s.owner[b]);
        }
      }
      forall other ensures SizeOk(t, other, None) {
        GetWithout(s.zones, i, other);
        assert SizeOk(s, other, Some(size));
      }
    } else {
      forall other ensures SizeOk(t, other, None) {
        assert SizeOk(s, other, Some(size));
      }
    }
  }

  /** Finding the zone, or putting an empty one in front of the others. */
  lemma FindOrCreateKeeps(s: State, size: int)
    requires Inv(s)
    ensures var t := s.(ready := true, zones := FindOrCreate(s.zones, RoundUp(size)));
            && Get(t.zones, RoundUp(size)).Some?
            && (Get(t.zones, RoundUp(size)).value.free == [] ==> InvBut(t, Some(RoundUp(size))))
            && (Get(t.zones, RoundUp(size)).value.free != [] ==> t.zones == s.zones)
  {
    var zs := RoundUp(size);
    var t := s.(ready := true, zones := FindOrCreate(s.zones, zs));
    RoundUpIsLeast(size, 0);
    if IndexOf(s.zones, zs) == |s.zones| {
      var z := Zone(zs, 0, 0, [], []);
      GetFirst(z, s.zones, zs);
      forall b ensures BufferOk(t, b) {
        assert BufferOk(s, b);
        if b in s.owner {
          GetFirst(z, s.zones, s.owner[b]);
        }
      }
      forall other ensures SizeOk(t, other, Some(zs)) {
        assert SizeOk(s, other, None);
        GetFirst(z, s.zones, other);
      }
    } else if Get(t.zones, zs).value.free == [] {
      forall b ensures BufferOk(t, b) {
        assert BufferOk(s, b);
      }
      forall other ensures SizeOk(t, other, Some(zs)) {
        assert SizeOk(s, other, None);
      }
    }
  }

  lemma PoppedIsOk(z: Zone)
    requires ZoneOk(z) && z.free != []
    ensures ZoneOk(Popped(z)) && forall x :: x in Popped(z).free <==> x in z.free && x != z.free[0]
  {
    DistinctParts(z.free);
  }

  lemma PopKeepsBuffer(s: State, size: int, c: nat)
    requires Inv(s) && Get(s.zones, size).Some? && Get(s.zones, size).value.free != []
    ensures var b := Get(s.zones, size).value.free[0];
            BufferOk(PopFree(s, IndexOf(s.zones, size)).(held := s.held + {b}), c)
  {
    var i := IndexOf(s.zones, size);
    var z := s.zones[i];
    assert SizeOk(s, size, None) && BufferOk(s, z.free[0]) && BufferOk(s, c);
    PoppedIsOk(z);
    GetUpdated(s.zones, i, Popped(z), size);
    if c in s.owner {
      GetUpdated(s.zones, i, Popped(z), s.owner[c]);
    }
  }

  lemma PopKeeps(s: State, size: int)
    requires Inv(s) && Get(s.zones, size).Some? && Get(s.zones, size).value.free != []
    ensures var b := Get(s.zones, size).value.free[0];
            && Inv(PopFree(s, IndexOf(s.zones, size)).(held := s.held + {b}))
            && b !in s.held && b in s.owner && s.owner[b] == size
  {
    var i := IndexOf(s.zones, size);
    var z := s.zones[i];
    var t := PopFree(s, i).(held := s.held + {z.free[0]});
    assert SizeOk(s, size, None) && BufferOk(s, z.free[0]);
    PoppedIsOk(z);
    GetUpdated(s.zones, i, Popped(z), size);
    forall c ensures BufferOk(t, c) {
      PopKeepsBuffer(s, size, c);
    }
    forall other ensures SizeOk(t, other, None) {
      assert SizeOk(s, other, None);
      GetUpdated(s.zones, i, Popped(z), other);
    }
  }

  lemma FreeKeeps(s: State, b: nat)
    requires Inv(s) && b in s.held
    ensures b in s.owner && IndexOf(s.zones, s.owner[b]) < |s.zones| && Inv(Free(s, b))
  {
    assert BufferOk(s, b);
    var size := s.owner[b];
    var i := IndexOf(s.zones, size);
    var z := s.zones[i];
    var y := z.(free := [b] + z.free, freecnt := z.freecnt + 1);
    var t := s.(zones := s.zones[i := y], held := s.held - {b});
    assert SizeOk(s, size, None);
    GetUpdated(s.zones, i, y, size);
    DistinctParts(y.free);
    forall c ensures BufferOk(t, c) {
      assert BufferOk(s, c);
      if c in s.owner {
        GetUpdated(s.zones, i, y, s.owner[c]);
      }
    }
    forall other | other != size ensures SizeOk(t, other, None) {
      assert SizeOk(s, other, None);
      GetUpdated(s.zones, i, y, other);
    }
    if y.freecnt == y.cnt {
      AllFree(y);
      DestroyKeeps(t, i);
    } else {
      assert SizeOk(t, size, None);
    }
  }

  lemma AllFree(z: Zone)
    requires Counted(z) && z.freecnt == z.cnt
    ensures forall b :: b in z.all ==> b in z.free
  {
    RemoveAllExactly(z.all, z.free);
  }

  /** Destroying a zone all of whose buffers are free. */
  lemma DestroyKeeps(s: State, i: nat)
    requires i < |s.zones| && DistinctSizes(s.zones) && (forall b :: BufferOk(s, b))
    requires forall size :: size != s.zones[i].size ==> SizeOk(s, size, None)
    requires forall b :: b in s.zones[i].all ==> b in s.zones[i].free && b in s.owner && s.owner[b] == s.zones[i].size
    ensures Inv(Destroy(s, i))
  {
    var t := Destroy(s, i);
    IndexIs(s.zones, i);
    StillDistinct(s.zones, i);
    forall b ensures BufferOk(t, b) {
      assert BufferOk(s, b);
      if b in s.owner {
        GetWithout(s.zones, i, s.owner[b]);
      }
    }
    forall other ensures SizeOk(t, other, None) {
      GetWithout(s.zones, i, other);
      if other != s.zones[i].size {
        assert SizeOk(s, other, None);
      }
    }
  }

  // ---------- Calls and runs ----------

  /** Requests for a new physical buffer are the ones that may recycle. */
  predicate NeedsMemory(s: State, size: int, a: Answers) {
    (s.ready || a.open) && (Get(s.zones, RoundUp(size)).Some? ==> Get(s.zones, RoundUp(size)).value.free == [])
  }

  lemma NewKeeps(s: State, size: int, a: Answers)
    requires Inv(s)
    ensures Inv(New(s, size, a, true).0)
  {
    if s.ready || a.open {
      var zs := RoundUp(size);
      var t := s.(ready := true, zones := FindOrCreate(s.zones, zs));
      FindOrCreateKeeps(s, size);
      if Get(t.zones, zs).value.free != [] {
        Ready(s);
        PopKeeps(t, zs);
      } else {
        var u := if Recycles(a) then Recycle(t, zs, true) else t;
        if Recycles(a) {
          RecycleKeeps(t, zs);
        }
        if (a.alloc || a.again) && a.mapped {
          JoinKeeps(u, zs);
        } else {
          GiveUpKeeps(u, zs);
        }
      }
    }
  }

  lemma Ready(s: State)
    requires Inv(s)
    ensures Inv(s.(ready := true))
  {
    var t := s.(ready := true);
    forall b ensures BufferOk(t, b) {
      assert BufferOk(s, b);
    }
    forall size ensures SizeOk(t, size, None) {
      assert SizeOk(s, size, None);
    }
  }

  datatype Call = NewBuffer(size: int, answers: Answers) | FreeBuffer(b: nat)

  /** Callers give back what they hold, and nothing else. */
  function Step(s: State, c: Call): State {
    match c
    case NewBuffer(size, a) => New(s, size, a, true).0
    case FreeBuffer(b) =>
      if b in s.held && b in s.owner && IndexOf(s.zones, s.owner[b]) < |s.zones| then Free(s, b) else s
  }

  function After(s: State, calls: seq<Call>): State {
    if calls == [] then s else Step(After(s, calls[..|calls| - 1]), calls[|calls| - 1])
  }

  const START := State(false, [], map[], 0, {})

  lemma {:induction false} RunsKeepInv(calls: seq<Call>)
    ensures Inv(After(START, calls))
  {
    if calls == [] {
    } else {
      RunsKeepInv(calls[..|calls| - 1]);
      var s, c := After(START, calls[..|calls| - 1]), calls[|calls| - 1];
      match c
      case NewBuffer(size, a) => NewKeeps(s, size, a);
      case FreeBuffer(b) =>
        if b in s.held {
          FreeKeeps(s, b);
        }
    }
  }

  /** Every zone has a buffer in use. */
  lemma ZoneInUse(s: State, i: nat) returns (b: nat)
    requires Inv(s) && i < |s.zones|
    ensures b in s.held && b in s.zones[i].all
  {
    var z := s.zones[i];
    IndexIs(s.zones, i);
    assert SizeOk(s, z.size, None);
    RemoveAllExactly(z.all, z.free);
    b := RemoveAll(z.all, z.free)[0];
    assert b in RemoveAll(z.all, z.free);
    assert BufferOk(s, b);
  }

  /** Nothing leaks: when everything has been given back, no zone and no memory is left. */
  lemma NothingHeldNothingKept(s: State)
    requires Inv(s) && s.held == {}
    ensures s.zones == [] && s.owner == map[]
  {
    if s.zones != [] {
      var b := ZoneInUse(s, 0);
      assert false;
    }
    forall b ensures b !in s.owner {
      assert BufferOk(s, b);
    }
  }

  /** A new buffer was not held by anyone and is at least as large as asked for; no held buffer loses its memory. */
  lemma NewGivesMemory(s: State, size: int, a: Answers)
    requires Inv(s)
    ensures var (t, b) := New(s, size, a, true);
            && (b.Some? ==> b.value !in s.held && t.held == s.held + {b.value})
            && (b.Some? ==> b.value in t.owner && t.owner[b.value] == RoundUp(size) >= size)
            && (b.None? ==> t.held == s.held)
            && forall c :: c in s.held ==> c in t.owner
  {
    var (t, b) := New(s, size, a, true);
    NewKeeps(s, size, a);
    RoundUpIsLeast(size, 0);
    forall c | c in s.held ensures c in t.owner {
      assert BufferOk(t, c);
    }
    if s.ready || a.open {
      FindOrCreateKeeps(s, size);
      var zs := RoundUp(size);
      var u := s.(ready := true, zones := FindOrCreate(s.zones, zs));
      if Get(u.zones, zs).value.free != [] {
        Ready(s);
        PopKeeps(u, zs);
      } else {
        assert BufferOk(u, u.next);
        if Recycles(a) {
          RecycleKeeps(u, zs);
        }
      }
    }
  }

  /** The zone of this size has a buffer to spare. */
  predicate HasSpare(s: State, size: int) {
    Get(s.zones, size).Some? && Get(s.zones, size).value.free != []
  }

  lemma FindOrCreateSpare(s: State, size: int)
    ensures var zones := FindOrCreate(s.zones, size);
            && Get(zones, size).Some?
            && Get(zones, size).value.free == if Get(s.zones, size).Some? then Get(s.zones, size).value.free else []
  {
    GetFirst(Zone(size, 0, 0, [], []), s.zones, size);
  }

  /**
    A request succeeds exactly if the driver is open or opens, and the zone has a buffer to spare or the driver grants
    the first request for memory, or the second after recycling, and maps it.  It gives the spare buffer returned last,
    or else a new one.
   */
  lemma GrantedExactly(s: State, size: int, a: Answers, emptied: bool)
    ensures var (spare, b) := (HasSpare(s, RoundUp(size)), New(s, size, a, emptied).1);
            && (b.Some? <==> (s.ready || a.open) && (spare || ((a.alloc || a.again) && a.mapped)))
            && (b.Some? ==> b.value == if spare then Get(s.zones, RoundUp(size)).value.free[0] else s.next)
  {
    FindOrCreateSpare(s, RoundUp(size));
  }

  ghost predicate NothingSpare(s: State, size: int) {
    Get(s.zones, size).Some? ==> Get(s.zones, size).value.free == []
  }

  lemma RecycledHasNothingSpare(t: State, ex: int, size: int)
    requires InvBut(t, Some(ex)) && NothingSpare(t, ex)
    ensures NothingSpare(Recycle(t, ex, true), size)
  {
    EveryZone(t, Some(ex));
    GetRecycled(t.zones, ex, true, size);
  }

  lemma RestHasNothingSpare(u: State, size: int, other: int)
    requires InvBut(u, Some(size)) && Get(u.zones, size).Some? && NothingSpare(u, other) && NothingSpare(u, size)
    ensures NothingSpare(Join(u, size), other) && NothingSpare(GiveUp(u, size), other)
  {
    var i := IndexOf(u.zones, size);
    GetUpdated(u.zones, i, Joined(u.zones[i], u.next), other);
    GetWithout(u.zones, i, other);
  }

  /** When the driver refuses at first, all memory is given up that no caller holds, whatever the second try gives. */
  lemma RefusalReleasesAllSpare(s: State, size: int, a: Answers)
    requires Inv(s) && NeedsMemory(s, size, a) && Recycles(a)
    ensures var t := New(s, size, a, true).0; forall b :: b in t.owner <==> b in t.held
  {
    var zs := RoundUp(size);
    var t := s.(ready := true, zones := FindOrCreate(s.zones, zs));
    var v := New(s, size, a, true).0;
    FindOrCreateKeeps(s, size);
    FindOrCreateSpare(s, zs);
    RecycleKeeps(t, zs);
    NewKeeps(s, size, a);
    var u := Recycle(t, zs, true);
    forall b ensures b in v.owner <==> b in v.held {
      assert BufferOk(v, b);
      if b in v.owner {
        RecycledHasNothingSpare(t, zs, v.owner[b]);
        RecycledHasNothingSpare(t, zs, zs);
        RestHasNothingSpare(u, zs, v.owner[b]);
        assert NothingSpare(v, v.owner[b]);
      }
    }
  }

  /** When the driver does not refuse at first, no memory is given up; a buffer that is new is added to its zone. */
  lemma NothingReleasedOtherwise(s: State, size: int, a: Answers)
    requires Inv(s) && (s.ready || a.open) && (HasSpare(s, RoundUp(size)) || a.alloc)
    ensures var (t, b) := New(s, size, a, true);
            t.owner == if b.Some? && !HasSpare(s, RoundUp(size)) then s.owner[s.next := RoundUp(size)] else s.owner
  {
    FindOrCreateSpare(s, RoundUp(size));
    FindOrCreateKeeps(s, size);
    assert s.owner - {} == s.owner;
  }

  /** Giving back at once what came from a free list undoes the call. */
  lemma FreeUndoesNew(s: State, size: int, a: Answers)
    requires Inv(s) && s.ready && !NeedsMemory(s, size, a)
    ensures var (t, b) := New(s, size, a, true);
            && b.Some? && b.value in t.owner && IndexOf(t.zones, t.owner[b.value]) < |t.zones|
            && Free(t, b.value) == s
  {
    var zs := RoundUp(size);
    var i := IndexOf(s.zones, zs);
    var z := s.zones[i];
    assert SizeOk(s, zs, None);
    PopKeeps(s, zs);
    var y := z.(free := z.free[1..], freecnt := z.freecnt - 1);
    GetUpdated(s.zones, i, y, zs);
    var (t, b) := New(s, size, a, true);
    assert t.zones == s.zones[i := y];
    assert [z.free[0]] + y.free == z.free;
    assert Free(t, b.value).zones == s.zones;
    assert Free(t, b.value).held == s.held;
  }

  // ---------- The free list as the source leaves it ----------

  /** Recycling does no harm as written only to zones that have nothing to recycle. */
  ghost predicate NothingToRecycle(s: State, size: int) {
    forall other :: other != RoundUp(size) && Get(s.zones, other).Some? ==> Get(s.zones, other).value.free == []
  }

  lemma {:induction false} SameRecycled(zones: seq<Zone>, ex: int)
    requires forall i :: 0 <= i < |zones| && zones[i].size != ex ==> zones[i].free == []
    ensures RecycleZones(zones, ex, false) == RecycleZones(zones, ex, true)
  {
    if zones == [] {
    } else {
      SameRecycled(zones[1..], ex);
    }
  }

  /**
    Without the reset, a request keeps the invariant exactly if it does not recycle or finds nothing to recycle:
    otherwise some free list is left naming buffers whose memory is gone.
   */
  lemma AsWrittenExactly(s: State, size: int, a: Answers)
    requires Inv(s)
    ensures Inv(New(s, size, a, false).0) <==> !NeedsMemory(s, size, a) || !Recycles(a) || NothingToRecycle(s, size)
  {
    if NeedsMemory(s, size, a) && Recycles(a) {
      var zs := RoundUp(size);
      var t := s.(ready := true, zones := FindOrCreate(s.zones, zs));
      FindOrCreateKeeps(s, size);
      if NothingToRecycle(s, size) {
        forall i | 0 <= i < |t.zones| && t.zones[i].size != zs ensures t.zones[i].free == [] {
          IndexIs(t.zones, i);
          OthersStay(s.zones, zs, t.zones[i].size);
        }
        SameRecycled(t.zones, zs);
        NewKeeps(s, size, a);
      } else {
        var other :| other != zs && Get(s.zones, other).Some? && Get(s.zones, other).value.free != [];
        StaleList(s, size, a, other);
      }
    } else {
      NewKeeps(s, size, a);
    }
  }

  lemma OthersStay(zones: seq<Zone>, size: int, other: int)
    requires other != size
    ensures Get(FindOrCreate(zones, size), other) == Get(zones, other)
  {
    GetFirst(Zone(size, 0, 0, [], []), zones, other);
  }

  lemma StaleRecycled(t: State, ex: int, other: int)
    requires InvBut(t, Some(ex)) && other != ex && Get(t.zones, other).Some?
    ensures var u := Recycle(t, ex, false);
            && DistinctSizes(u.zones) && Get(u.zones, ex) == Get(t.zones, ex)
            && Get(u.zones, other) == Some(Recycled(Get(t.zones, other).value, false))
  {
    EveryZone(t, Some(ex));
    GetRecycled(t.zones, ex, false, other);
    GetRecycled(t.zones, ex, false, ex);
  }

  /** What a call does after recycling leaves the other zones alone. */
  lemma RestStays(u: State, size: int, other: int)
    requires DistinctSizes(u.zones) && Get(u.zones, size).Some? && other != size
    ensures Get(Join(u, size).zones, other) == Get(u.zones, other)
    ensures Get(GiveUp(u, size).zones, other) == Get(u.zones, other)
  {
    var i := IndexOf(u.zones, size);
    var z := u.zones[i];
    GetUpdated(u.zones, i, Joined(z, u.next), other);
    GetWithout(u.zones, i, other);
  }

  /** The buffers on a stale list have no memory any more. */
  lemma StaleBuffersReleased(t: State, ex: int, other: int, b: nat)
    requires InvBut(t, Some(ex)) && other != ex && OnFreeList(t.zones, b, other)
    ensures var u := Recycle(t, ex, false);
            && b !in u.owner && b < u.next
            && b !in Join(u, ex).owner && b !in GiveUp(u, ex).owner
  {
    assert SizeOk(t, other, Some(ex));
    assert BufferOk(t, b);
    ReleasedAreFree(t, ex, b);
  }

  lemma StaleList(s: State, size: int, a: Answers, other: int)
    requires Inv(s) && NeedsMemory(s, size, a) && Recycles(a)
    requires other != RoundUp(size) && Get(s.zones, other).Some? && Get(s.zones, other).value.free != []
    ensures var t := New(s, size, a, false).0;
            && Get(t.zones, other).Some?
            && Get(t.zones, other).value.free == Get(s.zones, other).value.free
            && Get(t.zones, other).value.freecnt == 0
            && (forall b :: b in Get(t.zones, other).value.free ==> b !in t.owner)
            && t.ready && !Inv(t)
  {
    var zs := RoundUp(size);
    var t := s.(ready := true, zones := FindOrCreate(s.zones, zs));
    FindOrCreateKeeps(s, size);
    OthersStay(s.zones, zs, other);
    StaleRecycled(t, zs, other);
    RestStays(Recycle(t, zs, false), zs, other);
    assert SizeOk(t, other, Some(zs));
    var v := New(s, size, a, false).0;
    assert Get(v.zones, other) == Some(Recycled(Get(s.zones, other).value, false));
    forall b | b in Get(v.zones, other).value.free ensures b !in v.owner {
      StaleBuffersReleased(t, zs, other, b);
    }
    assert !SizeOk(v, other, None);
  }

  lemma FreeBufferIsTaken(t: State, size: int, a: Answers)
    requires t.ready && size % UNIT == 0 && Get(t.zones, size).Some? && Get(t.zones, size).value.free != []
    ensures var (u, b) := New(t, size, a, false);
            b == Some(Get(t.zones, size).value.free[0]) && b.value in u.held && u.owner == t.owner
  {
    RoundUpIsLeast(size, size);
  }

  /** The next request for that size is then given a buffer without memory, whatever the driver answers. */
  lemma StaleBufferIsHandedOut(s: State, size: int, a: Answers, other: int, c: Answers)
    requires Inv(s) && NeedsMemory(s, size, a) && Recycles(a)
    requires other != RoundUp(size) && Get(s.zones, other).Some? && Get(s.zones, other).value.free != []
    ensures var (t, b) := New(New(s, size, a, false).0, other, c, false);
            b == Some(Get(s.zones, other).value.free[0]) && b.value in t.held && b.value !in t.owner
  {
    var t := New(s, size, a, false).0;
    StaleList(s, size, a, other);
    assert SizeOk(s, other, None);
    assert Get(t.zones, other).value.free[0] in Get(t.zones, other).value.free;
    FreeBufferIsTaken(t, other, c);
  }

  /** A request for one unit that the driver grants, where the zone has no free buffer. */
  lemma UnitGranted(s: State, ok: Answers, emptied: bool)
    requires ok.open && ok.alloc && ok.mapped && |s.zones| <= 1
    requires s.zones != [] ==> s.zones[0].size == UNIT && s.zones[0].free == []
    ensures var z := if s.zones == [] then Zone(UNIT, 0, 0, [], []) else s.zones[0];
            New(s, UNIT, ok, emptied)
            == (State(true, [Joined(z, s.next)], s.owner[s.next := UNIT], s.next + 1,
                      s.held + {s.next}), Some(s.next))
  {
    RoundUpIsLeast(UNIT, UNIT);
    var z := if s.zones == [] then Zone(UNIT, 0, 0, [], []) else s.zones[0];
    assert FindOrCreate(s.zones, UNIT) == [z] && IndexOf([z], UNIT) == 0;
    assert [z][0 := Joined(z, s.next)] == [Joined(z, s.next)];
  }

  const ONE_HELD := State(true, [Zone(UNIT, 1, 0, [], [0])], map[0 := UNIT], 1, {0})
  const TWO_HELD := State(true, [Zone(UNIT, 2, 0, [], [1, 0])], map[0 := UNIT, 1 := UNIT], 2, {0, 1})
  const ONE_BACK := State(true, [Zone(UNIT, 2, 1, [0], [1, 0])], map[0 := UNIT, 1 := UNIT], 2, {1})

  lemma FirstGranted(ok: Answers, emptied: bool)
    requires ok.open && ok.alloc && ok.mapped
    ensures New(START, UNIT, ok, emptied).0 == ONE_HELD
  {
    UnitGranted(START, ok, emptied);
    assert [0] + [] == [0] && {} + {0} == {0} && map[][0 := UNIT] == ONE_HELD.owner;
  }

  lemma SecondGranted(ok: Answers, emptied: bool)
    requires ok.open && ok.alloc && ok.mapped
    ensures New(ONE_HELD, UNIT, ok, emptied).0 == TWO_HELD
  {
    UnitGranted(ONE_HELD, ok, emptied);
    assert [1] + [0] == [1, 0] && {0} + {1} == {0, 1} && ONE_HELD.owner[1 := UNIT] == TWO_HELD.owner;
  }

  lemma FirstComesBack()
    ensures 0 in TWO_HELD.owner && IndexOf(TWO_HELD.zones, UNIT) == 0 && 0 in TWO_HELD.held
    ensures Free(TWO_HELD, 0) == ONE_BACK
  {
    assert TWO_HELD.zones[0 := ONE_BACK.zones[0]] == ONE_BACK.zones && [0] + [] == [0] && {0, 1} - {0} == {1};
  }

  lemma ThreeCalls(s: State, c: Call, d: Call, e: Call)
    ensures After(s, [c, d, e]) == Step(Step(Step(s, c), d), e)
  {
    assert [c, d, e][..2] == [c, d] && [c, d][..1] == [c] && [c][..0] == [];
    assert After(s, [c]) == Step(s, c);
  }

  /** Two units are requested and granted, and the first comes back. */
  lemma OneBackIsReached(ok: Answers)
    requires ok.open && ok.alloc && ok.mapped
    ensures After(START, [NewBuffer(UNIT, ok), NewBuffer(UNIT, ok), FreeBuffer(0)]) == ONE_BACK && Inv(ONE_BACK)
  {
    var c, d := NewBuffer(UNIT, ok), FreeBuffer(0);
    FirstGranted(ok, true);
    SecondGranted(ok, true);
    FirstComesBack();
    ThreeCalls(START, c, c, d);
    assert Step(START, c) == ONE_HELD && Step(ONE_HELD, c) == TWO_HELD && Step(TWO_HELD, d) == ONE_BACK;
    RunsKeepInv([c, c, d]);
  }

  /**
    Such a run from the start, as written: two units are requested and granted, the first comes back, two units at once
    are refused, and the next request for one unit gets the first buffer, which was released meanwhile.
   */
  lemma StaleRun(ok: Answers, refused: Answers, next: Answers)
    requires ok.open && ok.alloc && ok.mapped && Recycles(refused)
    ensures var s := New(New(START, UNIT, ok, false).0, UNIT, ok, false).0;
            && 0 in s.owner && IndexOf(s.zones, s.owner[0]) < |s.zones|
            && var (t, b) := New(New(Free(s, 0), 2 * UNIT, refused, false).0, UNIT, next, false);
               b == Some(0) && 0 in t.held && 0 !in t.owner
  {
    FirstGranted(ok, false);
    SecondGranted(ok, false);
    FirstComesBack();
    OneBackIsReached(ok);
    RoundUpIsLeast(2 * UNIT, 2 * UNIT);
    assert Get(ONE_BACK.zones, UNIT) == Some(ONE_BACK.zones[0]) && Get(ONE_BACK.zones, 2 * UNIT) == None;
    StaleBufferIsHandedOut(ONE_BACK, 2 * UNIT, refused, UNIT, next);
  }

  lemma Associate(a: seq<Zone>, b: seq<Zone>, c: seq<Zone>)
    ensures (a + b) + c == a + (b + c)
  {
  }

  lemma MinusUnion(o: map<nat, int>, a: set<nat>, b: set<nat>)
    ensures o - a - b == o - (a + b)
  {
  }

  // ---------- The object ----------

  class Allocator {
    const emptied: bool   // whether recycling resets a free list; the source does not
    var ready: bool
    var zones: seq<Zone>
    var owner: map<nat, int>
    var next: nat
    ghost var held: set<nat>

    ghost function View(): State
      reads this
    {
      State(ready, zones, owner, next, held)
    }

    constructor (emptied: bool)
      ensures View() == START && this.emptied == emptied
    {
      this.emptied := emptied;
      ready, zones, owner, next, held := false, [], map[], 0, {};
    }

    method FindOrCreateZone(size: int) returns (i: nat)
      modifies this`zones
      ensures zones == FindOrCreate(old(zones), size) && i == IndexOf(zones, size) < |zones|
    {
      i := 0;
      while i < |zones|
        invariant i <= |zones| && IndexOf(zones, size) == i + IndexOf(zones[i..], size)
      {
        if zones[i].size == size {
          return;
        }
        assert zones[i..][1..] == zones[i + 1..];
        i := i + 1;
      }
      zones := [Zone(size, 0, 0, [], [])] + zones;
      i := 0;
    }

    method DestroyZone(i: nat)
      requires i < |zones|
      modifies this`zones, this`owner
      ensures View() == Destroy(old(View()), i)
    {
      var all := zones[i].all;
      assert owner - Elements(all[..0]) == owner;
      for k := 0 to |all|
        invariant zones == old(zones) && owner == old(owner) - Elements(all[..k])
      {
        assert all[..k + 1] == all[..k] + [all[k]];
        owner := owner - {all[k]};
      }
      assert all[..|all|] == all;
      zones := Without(zones, i);
    }

    method RecycleZone(i: nat)
      requires i < |zones|
      modifies this`zones, this`owner
      ensures zones == old(zones)[i := Recycled(old(zones)[i], emptied)]
      ensures owner == old(owner) - Elements(old(zones)[i].free)
    {
      var z := zones[i];
      var list := z.free;
      assert owner - Elements([]) == owner;
      while list != []
        invariant zones == old(zones)
        invariant RemoveAll(z.all, list) == RemoveAll(zones[i].all, zones[i].free)
        invariant owner - Elements(list) == old(owner) - Elements(zones[i].free)
        invariant z == zones[i].(all := z.all, cnt := zones[i].cnt - |zones[i].free| + |list|,
                                 freecnt := zones[i].freecnt - |zones[i].free| + |list|)
        decreases |list|
      {
        assert Elements(list) == {list[0]} + Elements(list[1..]);
        owner := owner - {list[0]};
        z := z.(all := Remove(z.all, list[0]), cnt := z.cnt - 1, freecnt := z.freecnt - 1);
        list := list[1..];
      }
      if emptied {
        z := z.(free := []);
      }
      zones := zones[i := z];
    }

    /** One round of the loop in recycle_exclude; a zone that is left without buffers goes. */
    method RecycleOther(k: nat, ex: int) returns (next: nat)
      requires k < |zones|
      modifies this`zones, this`owner
      ensures next == k + |Kept(old(zones)[k], ex, emptied)|
      ensures zones == old(zones)[..k] + Kept(old(zones)[k], ex, emptied) + old(zones)[k + 1..]
      ensures owner == old(owner) - if old(zones)[k].size == ex then {} else Elements(old(zones)[k].free)
    {
      next := k;
      if zones[k].size == ex {
        next := k + 1;
      } else {
        RecycleZone(k);
        if zones[k].all == [] {
          zones := Without(zones, k);
        } else {
          next := k + 1;
        }
      }
    }

    /** The same, seen from what is still to come: the zones behind position k are as good as recycled. */
    method RecycleNext(k: nat, ex: int) returns (next: nat)
      requires k < |zones|
      modifies this`zones, this`owner
      ensures next <= |zones| && |zones| - next < |old(zones)| - k
      ensures zones[..next] + RecycleZones(zones[next..], ex, emptied)
           == old(zones)[..k] + RecycleZones(old(zones)[k..], ex, emptied)
      ensures owner - Released(zones[next..], ex) == old(owner) - Released(old(zones)[k..], ex)
    {
      ghost var done, rest, kept, before := zones[..k], zones[k..], Kept(zones[k], ex, emptied), owner;
      assert rest[1..] == zones[k + 1..];
      next := RecycleOther(k, ex);
      assert zones[..next] == done + kept && zones[next..] == rest[1..];
      Associate(done, kept, RecycleZones(rest[1..], ex, emptied));
      MinusUnion(before, if rest[0].size == ex then {} else Elements(rest[0].free), Released(rest[1..], ex));
    }

    method RecycleExclude(ex: int)
      modifies this`zones, this`owner
      ensures View() == Recycle(old(View()), ex, emptied)
    {
      var k: nat := 0;
      assert zones[0..] == zones && zones[..0] == [];
      while k < |zones|
        invariant k <= |zones|
        invariant zones[..k] + RecycleZones(zones[k..], ex, emptied) == RecycleZones(old(zones), ex, emptied)
        invariant owner - Released(zones[k..], ex) == old(owner) - Released(old(zones), ex)
        decreases |zones| - k
      {
        k := RecycleNext(k, ex);
      }
      assert zones[..k] == zones;
    }

    /** create_hwbuf; the zone is looked up again, for recycling may have moved it */
    method CreateBuffer(size: int, a: Answers) returns (b: Option<nat>)
      modifies this`zones, this`owner, this`next
      ensures (View(), b) == Create(old(View()), size, a, emptied)
    {
      var granted := a.alloc;
      if !granted {
        RecycleExclude(size);
        granted := a.again;
      }
      if !granted || !a.mapped {
        return None;
      }
      b := Some(next);
      var i := IndexOf(zones, size);
      if i < |zones| {
        var z := zones[i];
        zones := zones[i := z.(all := [next] + z.all, cnt := z.cnt + 1)];
        owner := owner[next := size];
        next := next + 1;
      }
    }

    /** mfw_new_hw_buffer */
    method NewBuffer(size: int, a: Answers) returns (b: Option<nat>)
      modifies this
      ensures (View(), b) == New(old(View()), size, a, emptied)
    {
      if !ready {
        ready := a.open;
        if !ready {
          return None;
        }
      }
      var i := FindOrCreateZone(RoundUp(size));
      var z := zones[i];
      if z.free != [] {
        b := Some(z.free[0]);
        zones := zones[i := z.(free := z.free[1..], freecnt := z.freecnt - 1)];
      } else {
        b := CreateBuffer(RoundUp(size), a);
        if b.None? {
          i := IndexOf(zones, RoundUp(size));
          if i < |zones| && zones[i].all == [] {
            DestroyZone(i);
          }
        }
      }
      if b.Some? {
        held := held + {b.value};
      }
    }

    /** mfw_free_hw_buffer */
    method GiveBack(b: nat)
      requires b in owner && IndexOf(zones, owner[b]) < |zones|
      modifies this
      ensures View() == Free(old(View()), b)
    {
      var i := IndexOf(zones, owner[b]);
      var z := zones[i];
      z := z.(free := [b] + z.free, freecnt := z.freecnt + 1);
      zones := zones[i := z];
      held := held - {b};
      if z.freecnt == z.cnt {
        DestroyZone(i);
      }
    }

    /** hwbuffer_deconstructor: all memory is released, held or not */
    method Deconstruct()
      requires Inv(View())
      modifies this`zones, this`owner
      ensures zones == [] && owner == map[]
    {
      forall b | b in owner ensures InZone(zones, b, owner[b]) {
        assert BufferOk(View(), b);
      }
      while zones != []
        invariant DistinctSizes(zones)
        invariant forall b :: b in owner ==> InZone(zones, b, owner[b])
        decreases |zones|
      {
        ghost var was := zones;
        IndexIs(zones, 0);
        StillDistinct(zones, 0);
        DestroyZone(0);
        forall b | b in owner ensures InZone(zones, b, owner[b]) {
          GetWithout(was, 0, owner[b]);
        }
      }
    }
  }
}
