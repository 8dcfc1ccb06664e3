/**
  The shared control block of the video surface service (VideoSurfacesControl): a fixed pool of surfaces,
  linked per device through 1-based ids, and the calls of mfw_gst_video_surface.c that work on it.  Each
  call is proved to act on its device's list as the operation of the same name in VssRepaint.dfy does, and
  on no other device.
*/
module VssControl {
  import opened Helpers
  import opened VssGeometry
  import opened VssFrames
  import opened VssRepaint

  const VS_MAX: nat := 8
  const VD_MAX: nat := 6

  /** A pool slot: its links, its formats, and what the painting needs of it (`shown`). */
  datatype VideoSurface = VideoSurface(
    nextId: nat, vdId: nat, idle: bool, src: Rect, des: Rect, rot: int, outside: Outside, shown: Surface)

  datatype VideoDevice = VideoDevice(
    headId: nat, cnt: int, vsMax: int, init: bool, resX: int, resY: int,
    clean: set<nat>, render: nat, buffers: seq<seq<Op>>)

  // ---------- Lists linked by ids ----------

  function IdAt(list: seq<nat>, k: nat): nat {
    if k < |list| then list[k] else 0
  }

  ghost predicate LinkOk(pool: seq<VideoSurface>, list: seq<nat>, k: nat, vdId: nat)
    requires k < |list|
  {
    && 1 <= list[k] <= |pool|
    && pool[list[k] - 1].nextId == IdAt(list, k + 1)
    && pool[list[k] - 1].vdId == vdId
    && !pool[list[k] - 1].idle
  }

  /** Following the links from `head` visits exactly the ids of `list`, each once, and then ends. */
  ghost predicate Chain(pool: seq<VideoSurface>, head: nat, list: seq<nat>, vdId: nat) {
    && head == IdAt(list, 0)
    && (forall k :: 0 <= k < |list| ==> LinkOk(pool, list, k, vdId))
    && Distinct(list)
  }

  lemma ChainKept(pool: seq<VideoSurface>, after: seq<VideoSurface>, head: nat, list: seq<nat>, vdId: nat)
    requires Chain(pool, head, list, vdId) && |after| == |pool|
    requires forall k :: 0 <= k < |list| ==>
               LinkOk(pool, list, k, vdId) ==>
                 && after[list[k] - 1].nextId == pool[list[k] - 1].nextId
                 && after[list[k] - 1].vdId == vdId && !after[list[k] - 1].idle
    ensures Chain(after, head, list, vdId)
  {
    forall k | 0 <= k < |list|
      ensures LinkOk(after, list, k, vdId)
    {
      assert LinkOk(pool, list, k, vdId);
    }
  }

  /** Linking a loose surface in behind the last one. */
  lemma ChainAppend(pool: seq<VideoSurface>, after: seq<VideoSurface>, list: seq<nat>, vdId: nat, id: nat)
    requires Chain(pool, IdAt(list, 0), list, vdId) && 1 <= id <= |pool| && id !in list
    requires pool[id - 1].nextId == 0 && pool[id - 1].vdId == vdId && !pool[id - 1].idle
    requires if list == [] then after == pool
             else
               var last := list[|list| - 1];
               1 <= last <= |pool| && after == pool[last - 1 := pool[last - 1].(nextId := id)]
    ensures Chain(after, IdAt(list + [id], 0), list + [id], vdId)
  {
    var longer := list + [id];
    forall k | 0 <= k < |longer|
      ensures LinkOk(after, longer, k, vdId)
    {
      if k < |list| {
        assert LinkOk(pool, list, k, vdId);
        assert k < |list| - 1 ==> list[k] != list[|list| - 1];
      }
    }
  }

  /** Unlinking position j: its predecessor, if there is one, now points to its successor. */
  lemma ChainRemove(pool: seq<VideoSurface>, after: seq<VideoSurface>, list: seq<nat>, vdId: nat, j: nat)
    requires Chain(pool, IdAt(list, 0), list, vdId) && |after| == |pool| && j < |list|
    requires if j == 0 then after == pool
             else
               var p := list[j - 1];
               1 <= p <= |pool| && after == pool[p - 1 := pool[p - 1].(nextId := IdAt(list, j + 1))]
    ensures var rest := list[..j] + list[j + 1..];
            Chain(after, IdAt(rest, 0), rest, vdId)
  {
    var rest := list[..j] + list[j + 1..];
    forall k | 0 <= k < |rest|
      ensures LinkOk(after, rest, k, vdId)
    {
      var o := if k < j then k else k + 1;
      assert rest[k] == list[o] && LinkOk(pool, list, o, vdId);
      assert IdAt(rest, k + 1) == if k + 1 < j then list[k + 1] else IdAt(list, k + 2);
      assert j > 0 && o != j - 1 ==> list[o] != list[j - 1];
    }
    forall i, k | 0 <= i < k < |rest|
      ensures rest[i] != rest[k]
    {
      assert rest[i] == list[if i < j then i else i + 1] && rest[k] == list[if k < j then k else k + 1];
    }
  }

  // ---------- The state as a value ----------

  ghost predicate ValidState(pool: seq<VideoSurface>, devs: seq<VideoDevice>, lists: seq<seq<nat>>) {
    && |pool| == VS_MAX && |devs| == VD_MAX && |lists| == VD_MAX
    && forall d :: 0 <= d < VD_MAX ==> Chain(pool, devs[d].headId, lists[d], d + 1)
  }

  /** A device counts its surfaces, and is open exactly while it has any. */
  ghost predicate Booked(dev: VideoDevice, list: seq<nat>) {
    && dev.cnt == |list| && dev.init == (list != [])
    && dev.render < |dev.buffers| == BUFFERS
  }

  ghost predicate SameButPainted(before: VideoDevice, after: VideoDevice) {
    after == before.(clean := after.clean, render := after.render, buffers := after.buffers)
  }

  /** No surface is on the lists of two devices: its vdId says which list it is on. */
  lemma ListsDisjoint(pool: seq<VideoSurface>, devs: seq<VideoDevice>, lists: seq<seq<nat>>, d: nat, e: nat)
    requires ValidState(pool, devs, lists) && d < VD_MAX && e < VD_MAX && d != e
    ensures forall id :: id in lists[d] ==> id !in lists[e]
  {
    forall i, j | 0 <= i < |lists[d]| && 0 <= j < |lists[e]|
      ensures lists[d][i] != lists[e][j]
    {
      assert LinkOk(pool, lists[d], i, d + 1) && LinkOk(pool, lists[e], j, e + 1);
    }
  }

  const NOWHERE := Surface(Rect(0, 0, 0, 0), Task(Crop(0, 0, 0, 0), Crop(0, 0, 0, 0), 0), NO_FRAME, false, {})

  function ShownOf(pool: seq<VideoSurface>, id: nat): Surface {
    if 1 <= id <= |pool| then pool[id - 1].shown else NOWHERE
  }

  function ShownList(pool: seq<VideoSurface>, list: seq<nat>): seq<Surface> {
    seq(|list|, k requires 0 <= k < |list| => ShownOf(pool, list[k]))
  }

  function ViewOf(pool: seq<VideoSurface>, dev: VideoDevice, list: seq<nat>): Device {
    Device(ShownList(pool, list), dev.clean, dev.render, dev.buffers, Min(dev.vsMax, VS_MAX), dev.resX, dev.resY)
  }

  /** A device has room exactly if its count is below its own limit and some slot of the pool is not on its list. */
  lemma RoomExactly(pool: seq<VideoSurface>, dev: VideoDevice, list: seq<nat>)
    requires Booked(dev, list)
    ensures Room(ViewOf(pool, dev, list)) <==> dev.cnt < dev.vsMax && |list| < 8
  {
    assert |ShownList(pool, list)| == |list|;
  }

  /** Changing what is shown of the surface at position k changes the view there, and no list. */
  lemma ShownUpdate(pool: seq<VideoSurface>, head: nat, list: seq<nat>, vdId: nat, k: nat, s: VideoSurface)
    requires Chain(pool, head, list, vdId) && k < |list| && 1 <= list[k] <= |pool|
    requires s.nextId == pool[list[k] - 1].nextId && s.vdId == vdId && !s.idle
    ensures Chain(pool[list[k] - 1 := s], head, list, vdId)
    ensures ShownList(pool[list[k] - 1 := s], list) == ShownList(pool, list)[k := s.shown]
  {
    var after := pool[list[k] - 1 := s];
    ChainKept(pool, after, head, list, vdId);
    forall j | 0 <= j < |list|
      ensures ShownOf(after, list[j]) == if j == k then s.shown else ShownOf(pool, list[j])
    {
      assert LinkOk(pool, list, j, vdId);
      assert j != k ==> list[j] != list[k];
    }
  }

  lemma ShownElsewhere(pool: seq<VideoSurface>, head: nat, list: seq<nat>, vdId: nat, id: nat, s: VideoSurface)
    requires Chain(pool, head, list, vdId) && 1 <= id <= |pool| && id !in list
    ensures Chain(pool[id - 1 := s], head, list, vdId)
    ensures ShownList(pool[id - 1 := s], list) == ShownList(pool, list)
  {
    var after := pool[id - 1 := s];
    forall k | 0 <= k < |list|
      ensures LinkOk(after, list, k, vdId)
      ensures ShownOf(after, list[k]) == ShownOf(pool, list[k])
    {
      assert LinkOk(pool, list, k, vdId);
    }
  }

  lemma RemovedIsUnlisted(pool: seq<VideoSurface>, devs: seq<VideoDevice>, lists: seq<seq<nat>>, d: nat, k: nat)
    requires ValidState(pool, devs, lists) && d < VD_MAX && k < |lists[d]|
    ensures var after := lists[d := lists[d][..k] + lists[d][k + 1..]];
            forall e :: 0 <= e < VD_MAX ==> lists[d][k] !in after[e]
  {
    assert Chain(pool, devs[d].headId, lists[d], d + 1);
    forall e | 0 <= e < VD_MAX && e != d
      ensures lists[d][k] !in lists[e]
    {
      ListsDisjoint(pool, devs, lists, d, e);
    }
  }

  // ---------- The object ----------

  /** What one device may not notice of a call on another. */
  ghost predicate SameElsewhere(pool: seq<VideoSurface>, devs: seq<VideoDevice>, lists: seq<seq<nat>>,
                                pool': seq<VideoSurface>, devs': seq<VideoDevice>, lists': seq<seq<nat>>, d: nat)
    requires |devs| == |devs'| == |lists| == |lists'|
  {
    forall e :: 0 <= e < |lists| && e != d ==> SameDevice(pool, devs, lists, pool', devs', lists', e)
  }

  ghost predicate SameDevice(pool: seq<VideoSurface>, devs: seq<VideoDevice>, lists: seq<seq<nat>>,
                             pool': seq<VideoSurface>, devs': seq<VideoDevice>, lists': seq<seq<nat>>, e: nat)
    requires e < |devs| == |devs'| == |lists| == |lists'|
  {
    && lists'[e] == lists[e] && devs'[e] == devs[e]
    && ViewOf(pool', devs'[e], lists'[e]) == ViewOf(pool, devs[e], lists[e])
  }

  /** Repainting one listed surface and updating its device is seen by that device alone. */
  lemma UpdateIsLocal(pool: seq<VideoSurface>, devs: seq<VideoDevice>, lists: seq<seq<nat>>,
                      d: nat, k: nat, s: VideoSurface, dev: VideoDevice)
    requires ValidState(pool, devs, lists) && d < VD_MAX && k < |lists[d]| && 1 <= lists[d][k] <= |pool|
    requires s.nextId == pool[lists[d][k] - 1].nextId && s.vdId == d + 1 && !s.idle && dev.headId == devs[d].headId
    ensures var p, ds := pool[lists[d][k] - 1 := s], devs[d := dev];
            && ValidState(p, ds, lists)
            && ViewOf(p, ds[d], lists[d])
               == ViewOf(pool, dev, lists[d]).(list := ShownList(pool, lists[d])[k := s.shown])
            && SameElsewhere(pool, devs, lists, p, ds, lists, d)
  {
    var id := lists[d][k];
    var p, ds := pool[id - 1 := s], devs[d := dev];
    ShownUpdate(pool, devs[d].headId, lists[d], d + 1, k, s);
    forall e | 0 <= e < VD_MAX && e != d
      ensures Chain(p, ds[e].headId, lists[e], e + 1)
      ensures SameDevice(pool, devs, lists, p, ds, lists, e)
    {
      ListsDisjoint(pool, devs, lists, d, e);
      ShownElsewhere(pool, devs[e].headId, lists[e], e + 1, id, s);
    }
    assert Chain(p, ds[d].headId, lists[d], d + 1);
  }

  /** Links alone changed: what is shown, and where surfaces belong, did not. */
  ghost predicate Relinked(pool: seq<VideoSurface>, after: seq<VideoSurface>) {
    |after| == |pool|
    && forall i :: 0 <= i < |pool| ==> after[i] == pool[i].(nextId := after[i].nextId)
  }

  /** A new link in one device's list leaves every other list as it was. */
  lemma RelinkElsewhere(pool: seq<VideoSurface>, devs: seq<VideoDevice>, lists: seq<seq<nat>>, d: nat,
                        list: seq<nat>, after: seq<VideoSurface>, dev: VideoDevice)
    requires ValidState(pool, devs, lists) && d < VD_MAX && Relinked(pool, after)
    requires Chain(after, dev.headId, list, d + 1)
    requires forall i :: 0 <= i < |pool| && pool[i].vdId != d + 1 ==> after[i] == pool[i]
    ensures ValidState(after, devs[d := dev], lists[d := list])
    ensures SameElsewhere(pool, devs, lists, after, devs[d := dev], lists[d := list], d)
  {
    var ds, ls := devs[d := dev], lists[d := list];
    forall e | 0 <= e < VD_MAX && e != d
      ensures Chain(after, ds[e].headId, ls[e], e + 1)
      ensures SameDevice(pool, devs, lists, after, ds, ls, e)
    {
      forall k | 0 <= k < |lists[e]|
        ensures LinkOk(after, lists[e], k, e + 1)
        ensures ShownOf(after, lists[e][k]) == ShownOf(pool, lists[e][k])
      {
        assert LinkOk(pool, lists[e], k, e + 1);
      }
      assert ShownList(after, ls[e]) == ShownList(pool, lists[e]);
    }
    assert Chain(after, ds[d].headId, ls[d], d + 1);
  }

  lemma SameElsewhereTrans(p0: seq<VideoSurface>, d0: seq<VideoDevice>, l0: seq<seq<nat>>,
                           p1: seq<VideoSurface>, d1: seq<VideoDevice>, l1: seq<seq<nat>>,
                           p2: seq<VideoSurface>, d2: seq<VideoDevice>, l2: seq<seq<nat>>, d: nat)
    requires |d0| == |d1| == |d2| == |l0| == |l1| == |l2|
    requires SameElsewhere(p0, d0, l0, p1, d1, l1, d) && SameElsewhere(p1, d1, l1, p2, d2, l2, d)
    ensures SameElsewhere(p0, d0, l0, p2, d2, l2, d)
  {
    forall e | 0 <= e < |l0| && e != d
      ensures SameDevice(p0, d0, l0, p2, d2, l2, e)
    {
      assert SameDevice(p0, d0, l0, p1, d1, l1, e) && SameDevice(p1, d1, l1, p2, d2, l2, e);
    }
  }

  const NO_TASK := Task(Crop(0, 0, 0, 0), Crop(0, 0, 0, 0), 0)

  const EMPTY_SLOT := VideoSurface(0, 0, true, Rect(0, 0, 0, 0), Rect(0, 0, 0, 0), 0, ON_SCREEN, NOWHERE)

  lemma IdleIsUnlisted(pool: seq<VideoSurface>, devs: seq<VideoDevice>, lists: seq<seq<nat>>, id: nat)
    requires ValidState(pool, devs, lists) && 1 <= id <= VS_MAX && pool[id - 1].idle
    ensures forall e :: 0 <= e < VD_MAX ==> id !in lists[e]
  {
    forall e, k | 0 <= e < VD_MAX && 0 <= k < |lists[e]|
      ensures lists[e][k] != id
    {
      assert Chain(pool, devs[e].headId, lists[e], e + 1);
      assert LinkOk(pool, lists[e], k, e + 1);
    }
  }

  function Ids(n: nat): (ids: set<nat>)
    ensures |ids| == n && forall i :: i in ids <==> 1 <= i <= n
  {
    if n == 0 then {} else Ids(n - 1) + {n}
  }

  /** While a slot is idle, no list has as many surfaces as there are slots. */
  lemma IdleLeavesRoom(pool: seq<VideoSurface>, devs: seq<VideoDevice>, lists: seq<seq<nat>>, id: nat, d: nat)
    requires ValidState(pool, devs, lists) && 1 <= id <= VS_MAX && pool[id - 1].idle && d < VD_MAX
    ensures |lists[d]| < VS_MAX
  {
    IdleIsUnlisted(pool, devs, lists, id);
    assert Chain(pool, devs[d].headId, lists[d], d + 1);
    forall k | 0 <= k < |lists[d]| ensures 1 <= lists[d][k] <= VS_MAX {
      assert LinkOk(pool, lists[d], k, d + 1);
    }
    var ids := Ids(VS_MAX);
    var used := DistinctCount(lists[d]);
    assert used <= ids - {id};
    SubsetCount(used, ids - {id});
  }

  lemma {:induction false} DistinctCount(list: seq<nat>) returns (used: set<nat>)
    requires Distinct(list)
    ensures |used| == |list| && forall i :: i in used <==> i in list
  {
    if list == [] {
      used := {};
    } else {
      var front, last := list[..|list| - 1], list[|list| - 1];
      var rest := DistinctCount(front);
      used := rest + {last};
      assert list == front + [last];
    }
  }

  lemma {:induction false} SubsetCount(a: set<nat>, b: set<nat>)
    requires a <= b
    ensures |a| <= |b|
  {
    if a == {} {
    } else {
      var x :| x in a;
      SubsetCount(a - {x}, b - {x});
    }
  }

  /** What no device notices, none but d notices. */
  lemma SameElsewhereWeaken(p0: seq<VideoSurface>, d0: seq<VideoDevice>, l0: seq<seq<nat>>,
                            p1: seq<VideoSurface>, d1: seq<VideoDevice>, l1: seq<seq<nat>>, d: nat)
    requires |d0| == |d1| == |l0| == |l1| == VD_MAX && SameElsewhere(p0, d0, l0, p1, d1, l1, VD_MAX)
    ensures SameElsewhere(p0, d0, l0, p1, d1, l1, d)
    ensures d < VD_MAX ==> SameDevice(p0, d0, l0, p1, d1, l1, d)
  {
    assert d < VD_MAX ==> SameDevice(p0, d0, l0, p1, d1, l1, d);
  }

  /** A surface wholly off the screen keeps its old task. */
  function NewTask(s: VideoSurface, des: Rect, rot: int, resX: int, resY: int): Task
    requires 0 <= rot < 8
  {
    if OutsideOf(des, resX, resY).invisible then s.shown.task else TaskFor(s.src, des, rot, resX, resY)
  }

  function Reconfigured(d: Device, k: nat, rect: Rect, task: Task, visible: bool): Device
    requires k < |d.list|
  {
    var list := d.list[k := d.list[k].(rect := rect, task := task, visible := visible)];
    d.(list := if k < |list| - 1 then MovedLast(list, k) else list, clean := ALL_BUFFERS)
  }

  /** The window is placed and the surface moved to the end. */
  function Placed(d: Device, k: nat, rect: Rect): (p: Device)
    requires k < |d.list|
    ensures |p.list| == |d.list|
  {
    var placed := d.list[k := d.list[k].(rect := rect)];
    d.(list := if k < |placed| - 1 then MovedLast(placed, k) else placed)
  }

  /** A surface is replaced by s, and all buffers are marked for clearing. */
  function Retasked(d: Device, k: nat, s: Surface): Device
    requires k < |d.list|
  {
    d.(clean := ALL_BUFFERS, list := d.list[k := s])
  }

  function PlacedAndRetasked(d: Device, k: nat, rect: Rect, s: Surface): Device
    requires k < |d.list|
  {
    Retasked(Placed(d, k, rect), |d.list| - 1, s)
  }

  /** Placing the window, moving to the end and setting the IPU task, one after the other. */
  lemma ReconfiguredInSteps(d: Device, k: nat, rect: Rect, task: Task, visible: bool)
    requires k < |d.list|
    ensures Reconfigured(d, k, rect, task, visible)
         == PlacedAndRetasked(d, k, rect, d.list[k].(rect := rect, task := task, visible := visible))
  {
    assert Reconfigured(d, k, rect, task, visible).list
        == PlacedAndRetasked(d, k, rect, d.list[k].(rect := rect, task := task, visible := visible)).list;
  }

  /** The slots of all surfaces but those on a list are the same. */
  ghost predicate SlotsKept(before: seq<VideoSurface>, after: seq<VideoSurface>, list: seq<nat>) {
    |before| == |after| && forall id :: 1 <= id <= |before| && id !in list ==> SlotKept(before, after, id)
  }

  predicate SlotKept(before: seq<VideoSurface>, after: seq<VideoSurface>, id: nat)
    requires 1 <= id <= |before| == |after|
  {
    before[id - 1] == after[id - 1]
  }

  lemma SlotsKeptTrans(p0: seq<VideoSurface>, p1: seq<VideoSurface>, p2: seq<VideoSurface>, list: seq<nat>)
    requires SlotsKept(p0, p1, list) && SlotsKept(p1, p2, list)
    ensures SlotsKept(p0, p2, list)
  {
    forall id | 1 <= id <= |p0| && id !in list ensures SlotKept(p0, p2, id) {
      assert SlotKept(p0, p1, id) && SlotKept(p1, p2, id);
    }
  }

  class VideoSurfacesControl {
    const surfaces: array<VideoSurface>
    const devices: array<VideoDevice>
    ghost var lists: seq<seq<nat>>

    ghost predicate Valid()
      reads this, surfaces, devices
    {
      ValidState(surfaces[..], devices[..], lists)
    }

    ghost function View(d: nat): Device
      reads this, surfaces, devices
      requires d < devices.Length == |lists|
    {
      ViewOf(surfaces[..], devices[d], lists[d])
    }

    /** Nothing but device d and its surfaces has changed since. */
    twostate predicate OnlyDevice(d: nat)
      reads this, surfaces, devices
      requires devices.Length == |lists| == |old(lists)|
    {
      SameElsewhere(old(surfaces[..]), old(devices[..]), old(lists), surfaces[..], devices[..], lists, d)
    }

    /** No slot but those on device d's list has changed since. */
    twostate predicate OnlySlotsOf(d: nat)
      reads this, surfaces
      requires d < |lists|
    {
      SlotsKept(old(surfaces[..]), surfaces[..], lists[d])
    }

    /** _initVSControl: all slots idle, no device in use; its resolution and limit come from the configuration. */
    constructor (resX: seq<int>, resY: seq<int>, vsMax: seq<int>)
      requires |resX| == |resY| == |vsMax| == VD_MAX
      ensures Valid() && fresh(surfaces) && fresh(devices)
      ensures forall i :: 0 <= i < VS_MAX ==> surfaces[i].idle && surfaces[i].shown == NOWHERE
      ensures forall d :: 0 <= d < VD_MAX ==>
                && Booked(devices[d], lists[d]) && lists[d] == [] && devices[d].clean == {} && devices[d].render == 0
                && devices[d].resX == resX[d] && devices[d].resY == resY[d] && devices[d].vsMax == vsMax[d]
    {
      surfaces := new VideoSurface[VS_MAX](_ => EMPTY_SLOT);
      devices := new VideoDevice[VD_MAX](d requires 0 <= d < VD_MAX =>
        VideoDevice(0, 0, vsMax[d], false, resX[d], resY[d], {}, 0, [[], [], []]));
      lists := seq(VD_MAX, _ => []);
      new;
      forall d | 0 <= d < VD_MAX ensures Chain(surfaces[..], devices[..][d].headId, lists[d], d + 1) {
        assert lists[d] == [];
      }
    }

    /** _renderSuface */
    method RenderOne(d: nat, id: nat, u: Updated, ghost k: nat) returns (v: Updated)
      requires Valid() && d < VD_MAX && k < |lists[d]| && lists[d][k] == id
      requires devices[d].render < |devices[d].buffers|
      modifies surfaces, devices
      ensures Valid() && OnlyDevice(d) && OnlySlotsOf(d)
      ensures View(d) == RenderSurface(old(View(d)), k)
      ensures SameButPainted(old(devices[d]), devices[d])
      ensures v == Hull(u, old(View(d)).list[k].rect)
    {
      assert LinkOk(surfaces[..], lists[d], k, d + 1);
      var s := surfaces[id - 1].shown;
      v := Hull(u, s.rect);
      var dev := devices[d];
      ghost var buffer := dev.buffers[dev.render];
      if dev.render in dev.clean {
        dev := dev.(buffers := dev.buffers[dev.render := dev.buffers[dev.render] + [Clear]]);
        dev := dev.(clean := dev.clean - {dev.render});
      }
      dev := dev.(buffers := dev.buffers[dev.render := dev.buffers[dev.render] + [Paint(s.rect, s.task, s.frame)]]);
      assert buffer + [] == buffer;
      var t := surfaces[id - 1].(shown := s.(rendered := s.rendered + {dev.render}));
      UpdateIsLocal(surfaces[..], devices[..], lists, d, k, t, dev);
      surfaces[id - 1] := t;
      devices[d] := dev;
      assert surfaces[..] == old(surfaces[..])[id - 1 := t];
      assert devices[..] == old(devices[..])[d := dev];
    }

    /** Overwrites a listed slot, links and owner excepted. */
    method SetSlot(d: nat, id: nat, t: VideoSurface, ghost k: nat)
      requires Valid() && d < VD_MAX && k < |lists[d]| && lists[d][k] == id
      requires 1 <= id <= surfaces.Length
      requires t.nextId == surfaces[id - 1].nextId && t.vdId == d + 1 && !t.idle
      modifies surfaces
      ensures Valid() && OnlyDevice(d) && OnlySlotsOf(d)
      ensures View(d) == old(View(d)).(list := old(View(d)).list[k := t.shown])
      ensures surfaces[id - 1] == t
    {
      UpdateIsLocal(surfaces[..], devices[..], lists, d, k, t, devices[d]);
      surfaces[id - 1] := t;
      assert surfaces[..] == old(surfaces[..])[id - 1 := t];
      assert devices[..] == old(devices[..])[d := devices[d]];
    }

    method SetShown(d: nat, id: nat, s: Surface, ghost k: nat)
      requires Valid() && d < VD_MAX && k < |lists[d]| && lists[d][k] == id
      modifies surfaces
      ensures Valid() && OnlyDevice(d) && OnlySlotsOf(d)
      ensures View(d) == old(View(d)).(list := old(View(d)).list[k := s])
    {
      assert LinkOk(surfaces[..], lists[d], k, d + 1);
      SetSlot(d, id, surfaces[id - 1].(shown := s), k);
    }

    /** One round of the loop of _refreshOnDevice */
    method RefreshOne(d: nat, id: nat, ghost k: nat)
      requires Valid() && d < VD_MAX && k < |lists[d]| && lists[d][k] == id
      requires devices[d].render < |devices[d].buffers|
      modifies surfaces, devices
      ensures Valid() && OnlyDevice(d) && OnlySlotsOf(d) && SameButPainted(old(devices[d]), devices[d])
      ensures devices[d].render == old(devices[d].render) && |devices[d].buffers| == |old(devices[d].buffers)|
      ensures RefreshFrom(View(d), k + 1) == RefreshFrom(old(View(d)), k)
    {
      assert LinkOk(surfaces[..], lists[d], k, d + 1);
      assert View(d).list[k] == surfaces[id - 1].shown;
      SetShown(d, id, surfaces[id - 1].shown.(rendered := {}), k);
      label M:
      var _ := RenderOne(d, id, NOTHING_YET, k);
      SameElsewhereTrans(old(surfaces[..]), old(devices[..]), lists, old@M(surfaces[..]), old@M(devices[..]),
                         lists, surfaces[..], devices[..], lists, d);
      SlotsKeptTrans(old(surfaces[..]), old@M(surfaces[..]), surfaces[..], lists[d]);
    }

    /** _refreshOnDevice, before the flip */
    method RefreshAll(d: nat)
      requires Valid() && d < VD_MAX && devices[d].render < |devices[d].buffers|
      modifies surfaces, devices
      ensures Valid() && OnlyDevice(d) && OnlySlotsOf(d)
      ensures View(d) == RefreshFrom(old(View(d)), 0)
      ensures SameButPainted(old(devices[d]), devices[d])
    {
      var id := devices[d].headId;
      assert Chain(surfaces[..], devices[d].headId, lists[d], d + 1);
      ghost var k: nat := 0;
      if lists[d] != [] {
        assert LinkOk(surfaces[..], lists[d], 0, d + 1);
      }
      while id != 0
        invariant Valid() && OnlyDevice(d) && OnlySlotsOf(d) && k <= |lists[d]| && id == IdAt(lists[d], k)
        invariant k < |lists[d]| ==> id != 0
        invariant devices[d].render == old(devices[d].render) && |devices[d].buffers| == |old(devices[d].buffers)|
        invariant SameButPainted(old(devices[d]), devices[d])
        invariant RefreshFrom(View(d), k) == RefreshFrom(old(View(d)), 0)
        decreases |lists[d]| - k
      {
        assert LinkOk(surfaces[..], lists[d], k, d + 1);
        label L:
        RefreshOne(d, id, k);
        SameElsewhereTrans(old(surfaces[..]), old(devices[..]), lists, old@L(surfaces[..]), old@L(devices[..]),
                           lists, surfaces[..], devices[..], lists, d);
        SlotsKeptTrans(old(surfaces[..]), old@L(surfaces[..]), surfaces[..], lists[d]);
        assert LinkOk(surfaces[..], lists[d], k, d + 1);
        id := surfaces[id - 1].nextId;
        k := k + 1;
        if k < |lists[d]| {
          assert LinkOk(surfaces[..], lists[d], k, d + 1);
        }
      }
    }

    /** One round of that loop. */
    method RenderIfNeeded(d: nat, id: nat, u: Updated, ghost k: nat) returns (v: Updated)
      requires Valid() && d < VD_MAX && k < |lists[d]| && lists[d][k] == id
      requires devices[d].render < |devices[d].buffers|
      modifies surfaces, devices
      ensures Valid() && OnlyDevice(d) && OnlySlotsOf(d)
      ensures SameButPainted(old(devices[d]), devices[d])
      ensures devices[d].render == old(devices[d].render) && |devices[d].buffers| == |old(devices[d].buffers)|
      ensures Pass(View(d), k + 1, v) == Pass(old(View(d)), k, u)
    {
      assert LinkOk(surfaces[..], lists[d], k, d + 1);
      v := u;
      if NeedRender(surfaces[id - 1].shown, u, devices[d].render) {
        v := RenderOne(d, id, u, k);
      }
    }

    /** The loop of render2VideoSurface */
    method RenderPass(d: nat)
      requires Valid() && d < VD_MAX && devices[d].render < |devices[d].buffers|
      modifies surfaces, devices
      ensures Valid() && OnlyDevice(d) && OnlySlotsOf(d)
      ensures View(d) == Pass(old(View(d)), 0, NOTHING_YET)
      ensures SameButPainted(old(devices[d]), devices[d])
    {
      var id := devices[d].headId;
      assert Chain(surfaces[..], devices[d].headId, lists[d], d + 1);
      var u := NOTHING_YET;
      ghost var k: nat := 0;
      if lists[d] != [] {
        assert LinkOk(surfaces[..], lists[d], 0, d + 1);
      }
      while id != 0
        invariant Valid() && OnlyDevice(d) && OnlySlotsOf(d) && k <= |lists[d]| && id == IdAt(lists[d], k)
        invariant k < |lists[d]| ==> id != 0
        invariant devices[d].render == old(devices[d].render) && |devices[d].buffers| == |old(devices[d].buffers)|
        invariant SameButPainted(old(devices[d]), devices[d])
        invariant Pass(View(d), k, u) == Pass(old(View(d)), 0, NOTHING_YET)
        decreases |lists[d]| - k
      {
        label L:
        u := RenderIfNeeded(d, id, u, k);
        SameElsewhereTrans(old(surfaces[..]), old(devices[..]), lists, old@L(surfaces[..]), old@L(devices[..]),
                           lists, surfaces[..], devices[..], lists, d);
        SlotsKeptTrans(old(surfaces[..]), old@L(surfaces[..]), surfaces[..], lists[d]);
        assert LinkOk(surfaces[..], lists[d], k, d + 1);
        id := surfaces[id - 1].nextId;
        k := k + 1;
        if k < |lists[d]| {
          assert LinkOk(surfaces[..], lists[d], k, d + 1);
        }
      }
    }

    /** _FlipOnDevice; `ok` is whether the display takes the buffer. */
    method FlipOnDevice(d: nat, ok: bool)
      requires Valid() && d < VD_MAX
      modifies devices
      ensures Valid() && OnlyDevice(d)
      ensures View(d) == Flip(old(View(d)), ok)
      ensures SameButPainted(old(devices[d]), devices[d])
    {
      if ok {
        UpdateDevice(d, devices[d].(render := (devices[d].render + 1) % BUFFERS));
      }
    }

    method UpdateDevice(d: nat, dev: VideoDevice)
      requires Valid() && d < VD_MAX && dev.headId == devices[d].headId
      modifies devices
      ensures Valid() && OnlyDevice(d) && devices[d] == dev
    {
      devices[d] := dev;
      assert devices[..] == old(devices[..])[d := dev];
      forall e | 0 <= e < VD_MAX
        ensures Chain(surfaces[..], devices[e].headId, lists[e], e + 1)
        ensures e != d ==> SameDevice(surfaces[..], old(devices[..]), lists, surfaces[..], devices[..], lists, e)
      {
        assert Chain(old(surfaces[..]), old(devices[..])[e].headId, lists[e], e + 1);
      }
    }

    // ---------- List surgery ----------

    /** The walk to the surface's predecessor, and the new link past the surface. */
    method UnlinkAt(d: nat, id: nat, ghost k: nat)
      requires Valid() && d < VD_MAX && k < |lists[d]| && lists[d][k] == id
      modifies surfaces, devices
      ensures Relinked(old(surfaces[..]), surfaces[..])
      ensures forall i :: 0 <= i < VS_MAX && surfaces[i].vdId != d + 1 ==> surfaces[i] == old(surfaces[i])
      ensures Chain(surfaces[..], devices[d].headId, lists[d][..k] + lists[d][k + 1..], d + 1)
      ensures devices[d] == old(devices[d]).(headId := devices[d].headId)
      ensures devices[..] == old(devices[..])[d := devices[d]]
      ensures 1 <= id <= VS_MAX && surfaces[id - 1] == old(surfaces[id - 1])
    {
      ghost var list := lists[d];
      ghost var rest := list[..k] + list[k + 1..];
      assert Chain(surfaces[..], devices[d].headId, list, d + 1);
      assert LinkOk(surfaces[..], list, k, d + 1) && LinkOk(surfaces[..], list, 0, d + 1);
      if devices[d].headId == id {
        assert k == 0;
        devices[d] := devices[d].(headId := surfaces[id - 1].nextId);
        assert IdAt(rest, 0) == IdAt(list, 1);
      } else {
        var p := devices[d].headId;
        ghost var j: nat := 0;
        while surfaces[p - 1].nextId != id
          invariant j < k && p == list[j] && 1 <= p <= VS_MAX
          invariant LinkOk(surfaces[..], list, j, d + 1)
          decreases k - j
        {
          assert j + 1 < k;
          assert LinkOk(surfaces[..], list, j + 1, d + 1);
          p := surfaces[p - 1].nextId;
          j := j + 1;
        }
        assert j + 1 == k;
        surfaces[p - 1] := surfaces[p - 1].(nextId := surfaces[id - 1].nextId);
        assert surfaces[..] == old(surfaces[..])[p - 1 := surfaces[p - 1]];
        assert IdAt(rest, 0) == list[0];
      }
      ChainRemove(old(surfaces[..]), surfaces[..], list, d + 1, k);
    }

    /** _removeVideoSurfaceFromDevice */
    method RemoveFromDevice(d: nat, id: nat, ghost k: nat)
      requires Valid() && d < VD_MAX && k < |lists[d]| && lists[d][k] == id
      modifies this`lists, surfaces, devices
      ensures Valid() && |lists| == |old(lists)| && OnlyDevice(d)
      ensures lists[d] == old(lists[d])[..k] + old(lists[d])[k + 1..]
      ensures View(d) == old(View(d)).(list := Without(old(View(d)).list, k))
      ensures devices[d] == old(devices[d]).(headId := devices[d].headId)
      ensures 1 <= id <= VS_MAX && surfaces[id - 1] == old(surfaces[id - 1]) && Unlisted(id)
      ensures Relinked(old(surfaces[..]), surfaces[..])
    {
      ghost var rest := lists[d][..k] + lists[d][k + 1..];
      UnlinkAt(d, id, k);
      RelinkElsewhere(old(surfaces[..]), old(devices[..]), old(lists), d, rest, surfaces[..], devices[d]);
      RemovedIsUnlisted(old(surfaces[..]), old(devices[..]), old(lists), d, k);
      lists := lists[d := rest];
      assert ShownList(surfaces[..], rest) == Without(ShownList(old(surfaces[..]), old(lists[d])), k);
    }

    /** Overwrites a slot that is on no list. */
    method SetLoose(id: nat, t: VideoSurface)
      requires Valid() && 1 <= id <= surfaces.Length && Unlisted(id)
      modifies surfaces
      ensures Valid() && OnlyDevice(VD_MAX) && Unlisted(id)
      ensures surfaces[..] == old(surfaces[..])[id - 1 := t]
    {
      surfaces[id - 1] := t;
      assert surfaces[..] == old(surfaces[..])[id - 1 := t];
      forall e | 0 <= e < VD_MAX
        ensures Chain(surfaces[..], devices[e].headId, lists[e], e + 1)
        ensures SameDevice(old(surfaces[..]), old(devices[..]), lists, surfaces[..], devices[..], lists, e)
      {
        assert Chain(old(surfaces[..]), devices[..][e].headId, lists[e], e + 1);
        ShownElsewhere(old(surfaces[..]), devices[e].headId, lists[e], e + 1, id, t);
      }
    }

    ghost predicate Unlisted(id: nat)
      reads this
    {
      forall e :: 0 <= e < |lists| ==> id !in lists[e]
    }

    /** _addVideoSurface2Device */
    method AddToDevice(d: nat, id: nat)
      requires Valid() && d < VD_MAX && 1 <= id <= VS_MAX && Unlisted(id)
      requires surfaces[id - 1].vdId == d + 1 && !surfaces[id - 1].idle
      modifies this`lists, surfaces, devices
      ensures Valid() && |lists| == |old(lists)| && OnlyDevice(d)
      ensures lists[d] == old(lists[d]) + [id]
      ensures View(d) == old(View(d)).(list := old(View(d)).list + [old(surfaces[id - 1].shown)])
      ensures devices[d] == old(devices[d]).(headId := devices[d].headId)
      ensures Relinked(old(surfaces[..]), surfaces[..])
    {
      ghost var list := lists[d];
      SetLoose(id, surfaces[id - 1].(nextId := 0));
      label L:
      ghost var dev := LinkLast(d, id);
      RelinkElsewhere(old@L(surfaces[..]), old@L(devices[..]), old@L(lists), d, list + [id], surfaces[..], dev);
      lists := lists[d := list + [id]];
      assert devices[..] == old(devices[..])[d := dev];
      SameElsewhereTrans(old(surfaces[..]), old(devices[..]), old(lists), old@L(surfaces[..]), old@L(devices[..]),
                         old@L(lists), surfaces[..], devices[..], lists, d);
      assert ShownList(surfaces[..], list + [id]) == ShownList(old(surfaces[..]), list) + [old(surfaces[id - 1].shown)];
    }

    /** The walk to the last surface of the device, and the new link behind it. */
    method LinkLast(d: nat, id: nat) returns (ghost dev: VideoDevice)
      requires Valid() && d < VD_MAX && 1 <= id <= VS_MAX && Unlisted(id)
      requires surfaces[id - 1].vdId == d + 1 && !surfaces[id - 1].idle && surfaces[id - 1].nextId == 0
      modifies surfaces, devices
      ensures Relinked(old(surfaces[..]), surfaces[..])
      ensures forall i :: 0 <= i < VS_MAX && surfaces[i].vdId != d + 1 ==> surfaces[i] == old(surfaces[i])
      ensures Chain(surfaces[..], dev.headId, lists[d] + [id], d + 1)
      ensures dev == old(devices[d]).(headId := dev.headId) && devices[..] == old(devices[..])[d := dev]
    {
      ghost var list := lists[d];
      assert Chain(surfaces[..], devices[d].headId, list, d + 1);
      if list != [] {
        assert LinkOk(surfaces[..], list, 0, d + 1);
      }
      if devices[d].headId != 0 {
        var p := devices[d].headId;
        ghost var j: nat := 0;
        while surfaces[p - 1].nextId != 0
          invariant j < |list| && p == list[j] && 1 <= p <= VS_MAX
          invariant LinkOk(surfaces[..], list, j, d + 1)
          invariant j + 1 < |list| ==> LinkOk(surfaces[..], list, j + 1, d + 1)
          decreases |list| - j
        {
          p := surfaces[p - 1].nextId;
          j := j + 1;
        }
        assert p == list[|list| - 1];
        surfaces[p - 1] := surfaces[p - 1].(nextId := id);
        assert surfaces[..] == old(surfaces[..])[p - 1 := surfaces[p - 1]];
      } else {
        assert list == [];
        devices[d] := devices[d].(headId := id);
      }
      dev := devices[d];
      ChainAppend(old(surfaces[..]), surfaces[..], list, d + 1, id);
      assert IdAt(list + [id], 0) == dev.headId;
    }

    // ---------- The calls ----------

    /** Unlinks a surface and links it in again behind all others: it is painted last, on top. */
    method MoveToEnd(d: nat, id: nat, ghost k: nat)
      requires Valid() && d < VD_MAX && k < |lists[d]| && lists[d][k] == id
      modifies this`lists, surfaces, devices
      ensures Valid() && |lists| == |old(lists)| && OnlyDevice(d)
      ensures View(d) == old(View(d)).(list := MovedLast(old(View(d)).list, k))
      ensures devices[d] == old(devices[d]).(headId := devices[d].headId)
      ensures |lists[d]| == |old(lists[d])| && lists[d][|lists[d]| - 1] == id
      ensures Relinked(old(surfaces[..]), surfaces[..])
    {
      assert LinkOk(surfaces[..], lists[d], k, d + 1);
      assert ShownList(surfaces[..], lists[d])[k] == surfaces[id - 1].shown;
      RemoveFromDevice(d, id, k);
      label L:
      AddToDevice(d, id);
      SameElsewhereTrans(old(surfaces[..]), old(devices[..]), old(lists), old@L(surfaces[..]), old@L(devices[..]),
                         old@L(lists), surfaces[..], devices[..], lists, d);
    }

    /** The device a surface belongs to (SURFACE2DEVICE), and its place in that device's list. */
    ghost predicate Listed(id: nat, k: nat)
      reads this, surfaces, devices
    {
      && 1 <= id <= surfaces.Length && 1 <= surfaces[id - 1].vdId <= |lists|
      && var d := surfaces[id - 1].vdId - 1; k < |lists[d]| && lists[d][k] == id
    }

    /** render2VideoSurface, for a surface with a handle and a frame */
    method Render2(id: nat, frame: int, flips: bool, ghost k: nat)
      requires Valid() && Listed(id, k)
      requires var d := surfaces[id - 1].vdId - 1; Booked(devices[d], lists[d])
      modifies surfaces, devices
      ensures var d := old(surfaces[id - 1].vdId) - 1;
              && Valid() && OnlyDevice(d) && Booked(devices[d], lists[d])
              && View(d) == Step(old(View(d)), Render(k, frame, flips))
      ensures surfaces[id - 1].shown.frame == frame
    {
      var d := surfaces[id - 1].vdId - 1;
      RenderGivesFrame(View(d), k, frame, flips);
      assert LinkOk(surfaces[..], lists[d], k, d + 1);
      SetShown(d, id, surfaces[id - 1].shown.(frame := frame, rendered := {}), k);
      assert LinkOk(surfaces[..], lists[d], k, d + 1);
      assert View(d).list[k] == surfaces[id - 1].shown;
      if !surfaces[id - 1].shown.visible {
        return;
      }
      label L:
      RenderPass(d);
      label M:
      FlipOnDevice(d, flips);
      SameElsewhereTrans(old(surfaces[..]), old(devices[..]), lists, old@L(surfaces[..]), old@L(devices[..]), lists,
                         old@M(surfaces[..]), old@M(devices[..]), lists, d);
      SameElsewhereTrans(old(surfaces[..]), old(devices[..]), lists, old@M(surfaces[..]), old@M(devices[..]), lists,
                         surfaces[..], devices[..], lists, d);
      assert LinkOk(surfaces[..], lists[d], k, d + 1);
      assert View(d).list[k] == surfaces[id - 1].shown;
    }

    /** _refreshOnDevice */
    method Refresh(d: nat, flips: bool)
      requires Valid() && d < VD_MAX && devices[d].render < |devices[d].buffers|
      modifies surfaces, devices
      ensures Valid() && OnlyDevice(d) && OnlySlotsOf(d)
      ensures View(d) == Flip(RefreshFrom(old(View(d)), 0), flips)
      ensures SameButPainted(old(devices[d]), devices[d])
    {
      RefreshAll(d);
      label L:
      FlipOnDevice(d, flips);
      SameElsewhereTrans(old(surfaces[..]), old(devices[..]), lists, old@L(surfaces[..]), old@L(devices[..]), lists,
                         surfaces[..], devices[..], lists, d);
    }

    /** _configMasterVideoLayer: the surface moves behind all others, and everything is painted. */
    method Relayer(id: nat, flips: bool, ghost k: nat)
      requires Valid() && Listed(id, k)
      requires var d := surfaces[id - 1].vdId - 1; Booked(devices[d], lists[d])
      modifies this`lists, surfaces, devices
      ensures var d := old(surfaces[id - 1].vdId) - 1;
              && Valid() && |lists| == |old(lists)| && OnlyDevice(d) && Booked(devices[d], lists[d])
              && View(d) == Step(old(View(d)), VssRepaint.Relayer(k, flips))
    {
      var d := surfaces[id - 1].vdId - 1;
      assert LinkOk(surfaces[..], lists[d], k, d + 1);
      if k + 1 < |lists[d]| {
        assert LinkOk(surfaces[..], lists[d], k + 1, d + 1);
      }
      if surfaces[id - 1].nextId == 0 {
        return;
      }
      MoveToEnd(d, id, k);
      label L:
      Refresh(d, flips);
      SameElsewhereTrans(old(surfaces[..]), old(devices[..]), old(lists), old@L(surfaces[..]), old@L(devices[..]),
                         lists, surfaces[..], devices[..], lists, d);
    }

    /** The first half of _configMasterVideoSurface: the new window, and the move to the end if others follow. */
    method Place(d: nat, id: nat, des: Rect, rot: int, ghost k: nat)
      requires Valid() && d < VD_MAX && k < |lists[d]| && lists[d][k] == id && 0 <= rot < 8
      modifies this`lists, surfaces, devices
      ensures Valid() && |lists| == |old(lists)| && OnlyDevice(d)
      ensures var dev := old(devices[d]);
              View(d) == Placed(old(View(d)), k, Adjusted(des, dev.resX, dev.resY))
      ensures devices[d] == old(devices[d]).(headId := devices[d].headId)
      ensures |lists[d]| == |old(lists[d])| && lists[d][|lists[d]| - 1] == id && 1 <= id <= VS_MAX
      ensures var s, o := surfaces[id - 1], OutsideOf(des, devices[d].resX, devices[d].resY);
              s == old(surfaces[id - 1]).(nextId := s.nextId, des := des, rot := rot, outside := o,
                     shown := old(surfaces[id - 1]).shown.(rect := Adjusted(des, devices[d].resX, devices[d].resY)))
    {
      assert LinkOk(surfaces[..], lists[d], k, d + 1);
      assert View(d).list[k] == surfaces[id - 1].shown;
      var rect, outside := AdjustDestRect(des, devices[d].resX, devices[d].resY);
      var s := surfaces[id - 1];
      SetSlot(d, id, s.(des := des, rot := rot, outside := outside, shown := s.shown.(rect := rect)), k);
      assert LinkOk(surfaces[..], lists[d], k, d + 1);
      if k + 1 < |lists[d]| {
        assert LinkOk(surfaces[..], lists[d], k + 1, d + 1);
      }
      if surfaces[id - 1].nextId != 0 {
        label L:
        MoveToEnd(d, id, k);
        SameElsewhereTrans(old(surfaces[..]), old(devices[..]), old(lists), old@L(surfaces[..]), old@L(devices[..]),
                           old(lists), surfaces[..], devices[..], lists, d);
      }
    }

    /** The second half of _configMasterVideoSurface: every buffer is to be cleared, and the IPU task is set anew. */
    method Retask(d: nat, id: nat, ghost k: nat)
      requires Valid() && d < VD_MAX && k < |lists[d]| && lists[d][k] == id && 1 <= id <= surfaces.Length
      requires var s := surfaces[id - 1];
               && 0 <= s.rot < 8 && s.outside == OutsideOf(s.des, devices[d].resX, devices[d].resY)
               && s.shown.rect == Adjusted(s.des, devices[d].resX, devices[d].resY)
      modifies surfaces, devices
      ensures Valid() && OnlyDevice(d) && SameButPainted(old(devices[d]), devices[d])
      ensures var s, dev := old(surfaces[id - 1]), old(devices[d]);
              var visible := Visible(s.src, s.des, s.rot, dev.resX, dev.resY);
              var task := if s.outside.invisible then s.shown.task
                          else TaskFor(s.src, s.des, s.rot, dev.resX, dev.resY);
              View(d) == Retasked(old(View(d)), k, s.shown.(task := task, visible := visible))
    {
      assert LinkOk(surfaces[..], lists[d], k, d + 1);
      UpdateDevice(d, devices[d].(clean := ALL_BUFFERS));
      label L:
      var s := surfaces[id - 1];
      var task, visible := InitTask(s.src, s.des, s.rot, devices[d].resX, devices[d].resY, s.outside, s.shown.rect,
                                    s.shown.task);
      SetSlot(d, id, s.(shown := s.shown.(task := task, visible := visible)), k);
      SameElsewhereTrans(old(surfaces[..]), old(devices[..]), lists, old@L(surfaces[..]), old@L(devices[..]), lists,
                         surfaces[..], devices[..], lists, d);
    }

    /** _configMasterVideoSurface up to the refresh. */
    method PlaceAndRetask(d: nat, id: nat, des: Rect, rot: int, ghost k: nat)
      requires Valid() && d < VD_MAX && k < |lists[d]| && lists[d][k] == id && 0 <= rot < 8
      requires 1 <= id <= surfaces.Length && surfaces[id - 1].vdId == d + 1
      modifies this`lists, surfaces, devices
      ensures Valid() && |lists| == |old(lists)| && OnlyDevice(d) && |lists[d]| == |old(lists[d])|
      ensures devices[d] == old(devices[d]).(headId := devices[d].headId, clean := ALL_BUFFERS)
      ensures var s, v, dev := old(surfaces[id - 1]), old(View(d)), devices[d];
              View(d) == PlacedAndRetasked(v, k, Adjusted(des, dev.resX, dev.resY),
                                           s.shown.(rect := Adjusted(des, dev.resX, dev.resY),
                                                    task := NewTask(s, des, rot, dev.resX, dev.resY),
                                                    visible := Visible(s.src, des, rot, dev.resX, dev.resY)))
    {
      Place(d, id, des, rot, k);
      label L:
      Retask(d, id, |lists[d]| - 1);
      SameElsewhereTrans(old(surfaces[..]), old(devices[..]), old(lists), old@L(surfaces[..]), old@L(devices[..]),
                         lists, surfaces[..], devices[..], lists, d);
    }

    /** The same, at once. */
    method Reconfigure(d: nat, id: nat, des: Rect, rot: int, ghost k: nat)
      requires Valid() && d < VD_MAX && k < |lists[d]| && lists[d][k] == id && 0 <= rot < 8
      requires 1 <= id <= surfaces.Length && surfaces[id - 1].vdId == d + 1
      modifies this`lists, surfaces, devices
      ensures Valid() && |lists| == |old(lists)| && OnlyDevice(d) && |lists[d]| == |old(lists[d])|
      ensures devices[d] == old(devices[d]).(headId := devices[d].headId, clean := ALL_BUFFERS)
      ensures var s, dev := old(surfaces[id - 1]), devices[d];
              View(d) == Reconfigured(old(View(d)), k, Adjusted(des, dev.resX, dev.resY),
                                      NewTask(s, des, rot, dev.resX, dev.resY),
                                      Visible(s.src, des, rot, dev.resX, dev.resY))
    {
      assert View(d).list[k] == surfaces[id - 1].shown;
      ReconfiguredInSteps(View(d), k, Adjusted(des, devices[d].resX, devices[d].resY),
                          NewTask(surfaces[id - 1], des, rot, devices[d].resX, devices[d].resY),
                          Visible(surfaces[id - 1].src, des, rot, devices[d].resX, devices[d].resY));
      PlaceAndRetask(d, id, des, rot, k);
    }

    /** _configMasterVideoSurface: a new window and rotation for a surface. */
    method Configure(id: nat, des: Rect, rot: int, flips: bool, ghost k: nat)
      requires Valid() && Listed(id, k) && 0 <= rot < 8
      requires var d := surfaces[id - 1].vdId - 1; Booked(devices[d], lists[d])
      modifies this`lists, surfaces, devices
      ensures var s := old(surfaces[id - 1]);
              var d := s.vdId - 1;
              var resX, resY := old(devices[d].resX), old(devices[d].resY);
              && Valid() && |lists| == |old(lists)| && OnlyDevice(d) && Booked(devices[d], lists[d])
              && View(d) == Step(old(View(d)), VssRepaint.Configure(k, Adjusted(des, resX, resY),
                                                                    NewTask(s, des, rot, resX, resY),
                                                                    Visible(s.src, des, rot, resX, resY), flips))
    {
      var d := surfaces[id - 1].vdId - 1;
      Reconfigure(d, id, des, rot, k);
      label L:
      Refresh(d, flips);
      SameElsewhereTrans(old(surfaces[..]), old(devices[..]), old(lists), old@L(surfaces[..]), old@L(devices[..]),
                         lists, surfaces[..], devices[..], lists, d);
    }

    /** _destroyVideoSurface: its slot becomes idle; what is left on the device is painted afresh. */
    method Destroy(id: nat, flips: bool, ghost k: nat)
      requires Valid() && Listed(id, k)
      requires var d := surfaces[id - 1].vdId - 1; Booked(devices[d], lists[d])
      modifies this`lists, surfaces, devices
      ensures var d := old(surfaces[id - 1].vdId) - 1;
              && Valid() && |lists| == |old(lists)| && OnlyDevice(d) && Booked(devices[d], lists[d])
              && View(d) == Step(old(View(d)), VssRepaint.Destroy(k, flips))
              && surfaces[id - 1] == old(surfaces[id - 1]).(idle := true) && Unlisted(id)
    {
      var d := surfaces[id - 1].vdId - 1;
      RemoveFromDevice(d, id, k);
      label L:
      var dev := devices[d];
      dev := dev.(clean := ALL_BUFFERS, cnt := dev.cnt - 1);
      assert Chain(surfaces[..], devices[d].headId, lists[d], d + 1);
      if lists[d] != [] {
        assert LinkOk(surfaces[..], lists[d], 0, d + 1);
      }
      if dev.headId == 0 {
        UpdateDevice(d, dev.(init := false));
      } else {
        UpdateAndRefresh(d, dev, flips);
      }
      assert SlotKept(old@L(surfaces[..]), surfaces[..], id);
      label M:
      SetLoose(id, surfaces[id - 1].(idle := true));
      SameElsewhereWeaken(old@M(surfaces[..]), old@M(devices[..]), lists, surfaces[..], devices[..], lists, d);
      SameElsewhereTrans(old(surfaces[..]), old(devices[..]), old(lists), old@L(surfaces[..]), old@L(devices[..]),
                         lists, old@M(surfaces[..]), old@M(devices[..]), lists, d);
      SameElsewhereTrans(old(surfaces[..]), old(devices[..]), old(lists), old@M(surfaces[..]), old@M(devices[..]),
                         lists, surfaces[..], devices[..], lists, d);
    }

    method UpdateAndRefresh(d: nat, dev: VideoDevice, flips: bool)
      requires Valid() && d < VD_MAX && dev.headId == devices[d].headId && dev.render < |dev.buffers|
      modifies surfaces, devices
      ensures Valid() && OnlyDevice(d) && OnlySlotsOf(d)
      ensures View(d) == Flip(RefreshFrom(ViewOf(old(surfaces[..]), dev, lists[d]), 0), flips)
      ensures SameButPainted(dev, devices[d])
    {
      UpdateDevice(d, dev);
      label L:
      Refresh(d, flips);
      SameElsewhereTrans(old(surfaces[..]), old(devices[..]), lists, old@L(surfaces[..]), old@L(devices[..]), lists,
                         surfaces[..], devices[..], lists, d);
    }

    /** The first idle slot, as an id; 0 when there is none. */
    method FindIdle() returns (id: nat)
      requires Valid()
      ensures id <= VS_MAX
      ensures id == 0 ==> forall i :: 0 <= i < VS_MAX ==> !surfaces[i].idle
      ensures id > 0 ==> surfaces[id - 1].idle && Unlisted(id) && forall j :: 0 <= j < id - 1 ==> !surfaces[j].idle
    {
      var i: nat := 0;
      while i < VS_MAX
        invariant i <= VS_MAX && forall j :: 0 <= j < i ==> !surfaces[j].idle
      {
        if surfaces[i].idle {
          IdleIsUnlisted(surfaces[..], devices[..], lists, i + 1);
          return i + 1;
        }
        i := i + 1;
      }
      return 0;
    }

    /** Puts a prepared slot on the device's list; the first surface opens the device. */
    method Attach(d: nat, id: nat, contents: seq<seq<Op>>)
      requires Valid() && d < VD_MAX && 1 <= id <= VS_MAX && Unlisted(id)
      requires surfaces[id - 1].vdId == d + 1 && !surfaces[id - 1].idle
      modifies this`lists, surfaces, devices
      ensures Valid() && |lists| == |old(lists)| && OnlyDevice(d)
      ensures lists[d] == old(lists[d]) + [id]
      ensures var dev := old(devices[d]);
              devices[d] == dev.(headId := devices[d].headId, cnt := dev.cnt + 1, init := true,
                                 buffers := if dev.init then dev.buffers else contents)
      ensures View(d) == old(View(d)).(list := old(View(d)).list + [old(surfaces[id - 1].shown)],
                                       buffers := devices[d].buffers)
      ensures surfaces[id - 1] == old(surfaces[id - 1]).(nextId := surfaces[id - 1].nextId)
    {
      UpdateDevice(d, devices[d].(cnt := devices[d].cnt + 1));
      label L:
      AddToDevice(d, id);
      SameElsewhereTrans(old(surfaces[..]), old(devices[..]), old(lists), old@L(surfaces[..]), old@L(devices[..]),
                         old@L(lists), surfaces[..], devices[..], lists, d);
      label M:
      var dev := devices[d];
      UpdateDevice(d, dev.(init := true, buffers := if dev.init then dev.buffers else contents));
      SameElsewhereTrans(old(surfaces[..]), old(devices[..]), old(lists), old@M(surfaces[..]), old@M(devices[..]),
                         lists, surfaces[..], devices[..], lists, d);
    }

    /** Fills an idle slot and puts it on the list, up to working out its task. */
    method Install(d: nat, id: nat, src: Rect, des: Rect, rot: int, contents: seq<seq<Op>>)
      requires Valid() && d < VD_MAX && 1 <= id <= VS_MAX && Unlisted(id)
      modifies this`lists, surfaces, devices
      ensures Valid() && |lists| == |old(lists)| && OnlyDevice(d)
      ensures lists[d] == old(lists[d]) + [id]
      ensures var dev, s, o := old(devices[d]), surfaces[id - 1], OutsideOf(des, devices[d].resX, devices[d].resY);
              && devices[d] == dev.(headId := devices[d].headId, cnt := dev.cnt + 1, init := true,
                                    buffers := if dev.init then dev.buffers else contents)
              && s == VideoSurface(s.nextId, d + 1, false, src, des, rot, o,
                                   old(surfaces[id - 1].shown).(visible := true, task := NO_TASK,
                                                                rect := Adjusted(des, dev.resX, dev.resY)))
              && View(d) == old(View(d)).(list := old(View(d)).list + [s.shown], buffers := devices[d].buffers)
    {
      var rect, outside := AdjustDestRect(des, devices[d].resX, devices[d].resY);
      var s := surfaces[id - 1];
      SetLoose(id, VideoSurface(s.nextId, d + 1, false, src, des, rot, outside,
                                s.shown.(visible := true, task := NO_TASK, rect := rect)));
      SameElsewhereWeaken(old(surfaces[..]), old(devices[..]), lists, surfaces[..], devices[..], lists, d);
      label L:
      Attach(d, id, contents);
      SameElsewhereTrans(old(surfaces[..]), old(devices[..]), old(lists), old@L(surfaces[..]), old@L(devices[..]),
                         old@L(lists), surfaces[..], devices[..], lists, d);
    }

    /** The second half of createVideoSurface, with an idle slot; the slot keeps the frame and mask of its last use. */
    method Establish(d: nat, id: nat, src: Rect, des: Rect, rot: int, contents: seq<seq<Op>>)
      requires Valid() && d < VD_MAX && Booked(devices[d], lists[d]) && 0 <= rot < 8 && |contents| == BUFFERS
      requires 1 <= id <= VS_MAX && Unlisted(id)
      modifies this`lists, surfaces, devices
      ensures Valid() && |lists| == |old(lists)| && OnlyDevice(d) && Booked(devices[d], lists[d])
      ensures lists[d] == old(lists[d]) + [id]
      ensures var dev, shown := old(devices[d]), old(surfaces[..])[id - 1].shown;
              var task := if OutsideOf(des, dev.resX, dev.resY).invisible then NO_TASK
                          else TaskFor(src, des, rot, dev.resX, dev.resY);
              View(d) == Step(old(View(d)), VssRepaint.Create(
                Surface(Adjusted(des, dev.resX, dev.resY), task, shown.frame,
                        Visible(src, des, rot, dev.resX, dev.resY), shown.rendered), contents))
    {
      Install(d, id, src, des, rot, contents);
      label L:
      var s := surfaces[id - 1];
      var task, visible := InitTask(s.src, s.des, s.rot, devices[d].resX, devices[d].resY, s.outside, s.shown.rect,
                                    s.shown.task);
      SetSlot(d, id, s.(shown := s.shown.(task := task, visible := visible)), |lists[d]| - 1);
      SameElsewhereTrans(old(surfaces[..]), old(devices[..]), old(lists), old@L(surfaces[..]), old@L(devices[..]),
                         lists, surfaces[..], devices[..], lists, d);
    }

    /**
      createVideoSurface on device d, which already has its resolution; 0 stands for the error returns.  There is no
      device from VD_MAX on, and `starts` says whether a device that is not in use yet can be initialised.
     */
    method Create(d: nat, source: Source, des: Rect, rot: int, contents: seq<seq<Op>>, starts: bool) returns (id: nat)
      requires Valid() && (d < VD_MAX ==> Booked(devices[d], lists[d])) && 0 <= rot < 8 && |contents| == BUFFERS
      modifies this`lists, surfaces, devices
      ensures Valid() && |lists| == |old(lists)| && OnlyDevice(d) && (d < VD_MAX ==> Booked(devices[d], lists[d]))
      ensures id == 0 <==> || source.width % 8 != 0 || source.height % 8 != 0
                           || d >= VD_MAX || old(devices[d].cnt) >= old(devices[d].vsMax)
                           || (forall i :: 0 <= i < VS_MAX ==> !old(surfaces[..])[i].idle)
                           || (!old(devices[d].init) && !starts)
      ensures id == 0 ==> lists == old(lists) && (d < VD_MAX ==> View(d) == old(View(d)))
      ensures id != 0 ==>
                && id <= VS_MAX && old(surfaces[..])[id - 1].idle && lists[d] == old(lists[d]) + [id]
                && (forall j :: 0 <= j < id - 1 ==> !old(surfaces[..])[j].idle) && Room(old(View(d)))
                && var dev, shown := old(devices[d]), old(surfaces[..])[id - 1].shown;
                   var src := CheckedSource(source).win;
                   var task := if OutsideOf(des, dev.resX, dev.resY).invisible then NO_TASK
                               else TaskFor(src, des, rot, dev.resX, dev.resY);
                   View(d) == Step(old(View(d)), VssRepaint.Create(
                     Surface(Adjusted(des, dev.resX, dev.resY), task, shown.frame,
                             Visible(src, des, rot, dev.resX, dev.resY), shown.rendered), contents))
    {
      id := 0;
      if SourceRejected(source) || d >= VD_MAX || devices[d].cnt >= devices[d].vsMax {
        return;
      }
      id := FindIdle();
      if id == 0 {
        return;
      }
      if !devices[d].init && !starts {
        // The slot has been filled in by then, but goes back to idle.
        var s := surfaces[id - 1];
        SetLoose(id, s.(vdId := d + 1, src := CheckedSource(source).win, des := des, rot := rot, idle := true,
                        shown := s.shown.(visible := true, task := NO_TASK)));
        SameElsewhereWeaken(old(surfaces[..]), old(devices[..]), lists, surfaces[..], devices[..], lists, d);
        return 0;
      }
      IdleLeavesRoom(surfaces[..], devices[..], lists, id, d);
      Establish(d, id, CheckedSource(source).win, des, rot, contents);
    }
  }

  // ---------- How a mask becomes stale ----------

  lemma FirstRendering(d: Device, frame: int)
    requires |d.list| == 1 && d.list[0].visible && d.render < |d.buffers| && frame != NO_FRAME
    ensures var e := Step(d, Render(0, frame, true));
            e.list == [d.list[0].(frame := frame, rendered := {d.render})]
            && e.limit == d.limit && e.resX == d.resX && e.resY == d.resY
  {
    var f := WithFrame(d, 0, frame);
    assert {} + {d.render} == {d.render};
    var g := RenderSurface(f, 0);
    assert Pass(f, 0, NOTHING_YET) == Pass(g, 1, Hull(NOTHING_YET, f.list[0].rect)) == g;
  }

  /** What counts as visible has a proper window. */
  lemma VisibleIsWindow(src: Rect, des: Rect, rot: int, resX: int, resY: int)
    requires 0 <= rot < 8 && Visible(src, des, rot, resX, resY)
    ensures IsWindow(Adjusted(des, resX, resY), resX, resY)
  {
    VisibleCropInside(src, des, rot, resX, resY);
  }

  /** A surface is created in the first slot and rendered once. */
  method CreateAndRender(c: VideoSurfacesControl, source: Source, des: Rect, rot: int, frame: int,
                         contents: seq<seq<Op>>)
    requires c.Valid() && Booked(c.devices[0], c.lists[0]) && c.lists[0] == [] && c.surfaces[0].idle
    requires c.devices[0].render == 0 && c.devices[0].vsMax > 0 && !SourceRejected(source) && frame != NO_FRAME
    requires 0 <= rot < 8 && Visible(CheckedSource(source).win, des, rot, c.devices[0].resX, c.devices[0].resY)
    requires |contents| == BUFFERS
    modifies c, c.surfaces, c.devices
    ensures c.Valid() && |c.lists| == VD_MAX && c.lists[0] == [1] && Booked(c.devices[0], c.lists[0])
    ensures c.View(0).limit == old(c.View(0)).limit
    ensures c.View(0).resX == old(c.View(0)).resX && c.View(0).resY == old(c.View(0)).resY
    ensures c.surfaces[0].shown.frame == frame && c.surfaces[0].shown.rendered == {0} && c.surfaces[0].vdId == 1
  {
    var id := c.Create(0, source, des, rot, contents, true);
    assert LinkOk(c.surfaces[..], c.lists[0], 0, 1);
    ghost var created := c.View(0);
    c.Render2(1, frame, true, 0);
    FirstRendering(created, frame);
    assert LinkOk(c.surfaces[..], c.lists[0], 0, 1);
    assert c.View(0).list[0] == c.surfaces[0].shown;
  }

  /** A surface is created, rendered and destroyed, and another one created in its slot: its mask is stale. */
  method ReuseSlot(c: VideoSurfacesControl, source: Source, des: Rect, rot: int, frame: int,
                   contents: seq<seq<Op>>, later: seq<seq<Op>>)
    requires c.Valid() && Booked(c.devices[0], c.lists[0]) && c.lists[0] == [] && c.surfaces[0].idle
    requires c.devices[0].render == 0 && c.devices[0].vsMax > 0 && !SourceRejected(source) && frame != NO_FRAME
    requires 0 <= rot < 8 && Visible(CheckedSource(source).win, des, rot, c.devices[0].resX, c.devices[0].resY)
    requires |contents| == |later| == BUFFERS
    modifies c, c.surfaces, c.devices
    ensures c.Valid() && |c.lists| == VD_MAX && c.lists[0] == [1] && c.View(0).buffers == later
    ensures var s := c.View(0).list[0]; Eligible(s) && s.frame == frame && s.rendered == {0} && !Fresh(s)
  {
    VisibleIsWindow(CheckedSource(source).win, des, rot, c.devices[0].resX, c.devices[0].resY);
    assert 0 in {0} * ALL_BUFFERS;
    CreateAndRender(c, source, des, rot, frame, contents);
    c.Destroy(1, true, 0);
    assert c.View(0).list == [];
    var id := c.Create(0, source, des, rot, later, true);
  }
}
