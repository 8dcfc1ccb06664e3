/**
  Incremental repainting of a video device (libs/vss/mfw_gst_vss_common.c, mfw_gst_video_surface.c).

  A device cycles through three framebuffers.  A pass repaints only those surfaces that `_needRender`
  picks: a surface whose frame this buffer does not show yet, or one that overlaps what the pass has
  painted so far.  The main result: the buffer a pass leaves behind shows the same picture as painting
  the latest frame of every surface, in list order, over a clear background.

  A framebuffer is the list of what was painted into it; its picture is, at each point, the operation
  that covers the point last.  What a frame looks like is left open: a point shows (frame, task).
*/
module VssRepaint {
  import opened VssGeometry

  const BUFFERS: nat := 3
  const NO_FRAME: int := 0

  datatype Surface = Surface(rect: Rect, task: Task, frame: int, visible: bool, rendered: set<nat>)

  datatype Op = Clear | Paint(rect: Rect, task: Task, frame: int)

  /**
    `clean` holds the buffers that must be cleared before the next painting (cleanmask), `limit` is how many surfaces
    the device may have, resX by resY its screen.
   */
  datatype Device = Device(
    list: seq<Surface>, clean: set<nat>, render: nat, buffers: seq<seq<Op>>, limit: int, resX: int, resY: int)

  datatype Updated = Updated(any: bool, rect: Rect)

  const ALL_BUFFERS: set<nat> := {0, 1, 2}
  const NOTHING_YET := Updated(false, Rect(0, 0, 0, 0))

  // ---------- One pass ----------

  /** OVERLAPED_RECT, which holds as soon as one of the four comparisons does. */
  predicate Overlaped(r: Rect, s: Rect) {
    r.top < s.bottom || s.top < r.bottom || r.left < s.right || s.left < r.right
  }

  predicate Eligible(s: Surface) {
    s.frame != NO_FRAME && s.visible
  }

  /** A surface that shows at some point. */
  predicate Shown(s: Surface) {
    Eligible(s) && Width(s.rect) > 0 && Height(s.rect) > 0
  }

  /** No buffer counts as showing a surface that has not been painted yet. */
  predicate Fresh(s: Surface) {
    Shown(s) ==> s.rendered * ALL_BUFFERS == {}
  }

  /** The windows of visible surfaces, which _adjustDestRect and _initVSIPUTask see to. */
  predicate IsWindow(r: Rect, resX: int, resY: int) {
    AlignedRect(r) && Width(r) >= MIN_EXTENT && Height(r) >= MIN_EXTENT && Inside(r, Screen(resX, resY))
  }

  predicate InWindow(d: Device, s: Surface) {
    s.visible ==> IsWindow(s.rect, d.resX, d.resY)
  }

  /** createVideoSurface accepts another surface. */
  predicate Room(d: Device) {
    |d.list| < d.limit
  }

  /** _needRender */
  predicate NeedRender(s: Surface, u: Updated, render: nat) {
    Eligible(s) && (render !in s.rendered || (u.any && Overlaped(s.rect, u.rect)))
  }

  function Hull(u: Updated, r: Rect): Updated {
    if !u.any then Updated(true, r)
    else Updated(true, Rect(Min(r.left, u.rect.left), Max(r.right, u.rect.right),
                            Min(r.top, u.rect.top), Max(r.bottom, u.rect.bottom)))
  }

  /** _renderSuface, for the surface at position i of the list. */
  function RenderSurface(d: Device, i: nat): Device
    requires i < |d.list| && d.render < |d.buffers|
  {
    var s := d.list[i];
    var cleared := if d.render in d.clean then [Clear] else [];
    d.(list := d.list[i := s.(rendered := s.rendered + {d.render})],
       clean := d.clean - {d.render},
       buffers := d.buffers[d.render := d.buffers[d.render] + cleared + [Paint(s.rect, s.task, s.frame)]])
  }

  /** The loop of render2VideoSurface, from position i on. */
  function Pass(d: Device, i: nat, u: Updated): (e: Device)
    requires d.render < |d.buffers|
    ensures e.limit == d.limit && e.resX == d.resX && e.resY == d.resY
    ensures |e.buffers| == |d.buffers| && e.render == d.render && |e.list| == |d.list|
    decreases |d.list| - i
  {
    if i >= |d.list| then d
    else if NeedRender(d.list[i], u, d.render) then Pass(RenderSurface(d, i), i + 1, Hull(u, d.list[i].rect))
    else Pass(d, i + 1, u)
  }

  /** The loop of _refreshOnDevice: every surface is painted, and no other buffer counts as up to date. */
  function RefreshFrom(d: Device, i: nat): (e: Device)
    requires d.render < |d.buffers|
    ensures e.limit == d.limit && e.resX == d.resX && e.resY == d.resY
    ensures |e.buffers| == |d.buffers| && e.render == d.render && |e.list| == |d.list|
    decreases |d.list| - i
  {
    if i >= |d.list| then d
    else RefreshFrom(RenderSurface(d.(list := d.list[i := d.list[i].(rendered := {})]), i), i + 1)
  }

  /** _FlipOnDevice; the display may refuse. */
  function Flip(d: Device, ok: bool): Device {
    if ok then d.(render := (d.render + 1) % BUFFERS) else d
  }

  // ---------- Pictures ----------

  datatype Pixel = Unknown | Black | Shows(task: Task, frame: int)

  predicate Covers(r: Rect, x: int, y: int) {
    r.left <= x < r.right && r.top <= y < r.bottom
  }

  function PixelAt(ops: seq<Op>, x: int, y: int): Pixel {
    if ops == [] then Unknown
    else
      var op := ops[|ops| - 1];
      if op.Clear? then Black
      else if Covers(op.rect, x, y) then Shows(op.task, op.frame)
      else PixelAt(ops[..|ops| - 1], x, y)
  }

  /** Painting everything, from a clear background. */
  function Everything(list: seq<Surface>): seq<Op> {
    if list == [] then [Clear]
    else
      var s := list[|list| - 1];
      Everything(list[..|list| - 1]) + if Eligible(s) then [Paint(s.rect, s.task, s.frame)] else []
  }

  ghost predicate SamePicture(a: seq<Op>, b: seq<Op>) {
    forall x: int, y: int :: PixelAt(a, x, y) == PixelAt(b, x, y)
  }

  /** The topmost of the first n surfaces that covers a point, or -1. */
  function Top(list: seq<Surface>, n: nat, x: int, y: int): (t: int)
    requires n <= |list|
    ensures -1 <= t < n
    ensures t >= 0 ==> Eligible(list[t]) && Covers(list[t].rect, x, y)
  {
    if n == 0 then -1
    else if Eligible(list[n - 1]) && Covers(list[n - 1].rect, x, y) then n - 1
    else Top(list, n - 1, x, y)
  }

  function PixelOf(list: seq<Surface>, t: int): Pixel
    requires -1 <= t < |list|
  {
    if t == -1 then Black else Shows(list[t].task, list[t].frame)
  }

  lemma {:induction false} TopPrefix(list: seq<Surface>, n: nat, m: nat, x: int, y: int)
    requires n <= m <= |list|
    ensures Top(list[..m], n, x, y) == Top(list, n, x, y)
  {
    if n == 0 {
    } else {
      TopPrefix(list, n - 1, m, x, y);
    }
  }

  lemma {:induction false} EverythingShowsTop(list: seq<Surface>, x: int, y: int)
    ensures PixelAt(Everything(list), x, y) == PixelOf(list, Top(list, |list|, x, y))
  {
    if list == [] {
    } else {
      var n := |list| - 1;
      var rest := list[..n];
      EverythingShowsTop(rest, x, y);
      TopPrefix(list, n, n, x, y);
      var ops := Everything(rest);
      if Eligible(list[n]) {
        assert (ops + [Paint(list[n].rect, list[n].task, list[n].frame)])[..|ops|] == ops;
      } else {
        assert ops + [] == ops;
      }
    }
  }

  lemma PixelAfterPaint(ops: seq<Op>, s: Surface, x: int, y: int)
    ensures PixelAt(ops + [Paint(s.rect, s.task, s.frame)], x, y)
         == if Covers(s.rect, x, y) then Shows(s.task, s.frame) else PixelAt(ops, x, y)
  {
    assert (ops + [Paint(s.rect, s.task, s.frame)])[..|ops|] == ops;
  }

  // ---------- The invariant ----------

  /** Buffer b shows nothing wrong: a point is out of date only where its topmost surface still has to be painted. */
  ghost predicate BufferOk(d: Device, b: nat)
    requires b < |d.buffers|
  {
    if b in d.clean then forall i :: 0 <= i < |d.list| && Shown(d.list[i]) ==> b !in d.list[i].rendered
    else forall x: int, y: int :: PointOk(d, b, x, y)
  }

  ghost predicate PointOk(d: Device, b: nat, x: int, y: int)
    requires b < |d.buffers|
  {
    var t := Top(d.list, |d.list|, x, y);
    (t == -1 || b in d.list[t].rendered) ==> PixelAt(d.buffers[b], x, y) == PixelOf(d.list, t)
  }

  ghost predicate Inv(d: Device) {
    && |d.buffers| == BUFFERS && d.render < BUFFERS
    && (forall b :: 0 <= b < BUFFERS ==> BufferOk(d, b))
    && (forall b :: b in d.clean ==> b < BUFFERS)
  }

  // ---------- A pass brings the current buffer up to date ----------

  /** What the current buffer shows at a point before anything is painted in this pass. */
  function Base(d: Device, x: int, y: int): Pixel
    requires d.render < |d.buffers|
  {
    if d.render in d.clean then Black else PixelAt(d.buffers[d.render], x, y)
  }

  predicate PaintedOver(list: seq<Surface>, painted: set<nat>, x: int, y: int) {
    exists j :: j in painted && j < |list| && Covers(list[j].rect, x, y)
  }

  /** Nothing but `rendered` of painted surfaces, `clean` and the current buffer has changed. */
  ghost predicate Touched(d0: Device, d: Device, painted: set<nat>, i: nat) {
    && d.render == d0.render && |d.buffers| == |d0.buffers| && d.render < |d.buffers|
    && |d.list| == |d0.list| && i <= |d.list|
    && (forall j :: j in painted ==> j < i)
    && (forall j :: 0 <= j < |d.list| ==>
          d.list[j] == if j in painted then d0.list[j].(rendered := d0.list[j].rendered + {d.render}) else d0.list[j])
    && (forall b :: 0 <= b < |d.buffers| && b != d.render ==> d.buffers[b] == d0.buffers[b])
    && d.clean == (if painted == {} then d0.clean else d0.clean - {d.render})
    && (painted == {} ==> d.buffers[d.render] == d0.buffers[d.render])
  }

  ghost predicate PixelsSoFar(d0: Device, d: Device, painted: set<nat>, i: nat)
    requires Touched(d0, d, painted, i)
  {
    painted != {} ==> forall x: int, y: int :: PixelSoFar(d0, d, painted, i, x, y)
  }

  ghost predicate PixelSoFar(d0: Device, d: Device, painted: set<nat>, i: nat, x: int, y: int)
    requires Touched(d0, d, painted, i)
  {
    PixelAt(d.buffers[d.render], x, y)
    == if PaintedOver(d0.list, painted, x, y) then PixelOf(d0.list, Top(d0.list, i, x, y)) else Base(d0, x, y)
  }

  /** The hull covers all that was painted. */
  ghost predicate HullOk(list: seq<Surface>, painted: set<nat>, u: Updated) {
    && u.any == (painted != {})
    && forall j :: j in painted && j < |list| ==> Inside(list[j].rect, u.rect)
  }

  /** What was passed over did not need painting, and still does not. */
  ghost predicate SkippedOk(d0: Device, painted: set<nat>, i: nat) {
    forall j ::
      0 <= j < i && j < |d0.list| && j !in painted && Eligible(d0.list[j]) ==> d0.render in d0.list[j].rendered
  }

  lemma TopSame(a: seq<Surface>, b: seq<Surface>, n: nat, x: int, y: int)
    requires n <= |a| && |a| == |b|
    requires forall j :: 0 <= j < |a| ==> a[j].(rendered := {}) == b[j].(rendered := {})
    ensures Top(a, n, x, y) == Top(b, n, x, y)
  {
    if n > 0 {
      assert a[n - 1].(rendered := {}) == b[n - 1].(rendered := {});
      TopSame(a, b, n - 1, x, y);
    }
  }

  /** A surface that is passed over shows at no point that was painted in this pass. */
  lemma SkippedIsElsewhere(d0: Device, i: nat, u: Updated, painted: set<nat>, x: int, y: int)
    requires i < |d0.list| && HullOk(d0.list, painted, u) && !NeedRender(d0.list[i], u, d0.render)
    requires PaintedOver(d0.list, painted, x, y)
    ensures Top(d0.list, i + 1, x, y) == Top(d0.list, i, x, y)
  {
    var j :| j in painted && j < |d0.list| && Covers(d0.list[j].rect, x, y);
    assert Inside(d0.list[j].rect, u.rect);
  }

  lemma PaintPixel(d0: Device, d: Device, i: nat, painted: set<nat>, x: int, y: int)
    requires i < |d0.list| && Touched(d0, d, painted, i) && PixelsSoFar(d0, d, painted, i) && Eligible(d0.list[i])
    requires Touched(d0, RenderSurface(d, i), painted + {i}, i + 1)
    ensures PixelSoFar(d0, RenderSurface(d, i), painted + {i}, i + 1, x, y)
  {
    var e := RenderSurface(d, i);
    var s := d0.list[i];
    var before := d.buffers[d.render] + if d.render in d.clean then [Clear] else [];
    assert d.list[i].rect == s.rect && d.list[i].task == s.task && d.list[i].frame == s.frame;
    assert e.buffers[d.render] == before + [Paint(s.rect, s.task, s.frame)];
    PixelAfterPaint(before, s, x, y);
    if Covers(s.rect, x, y) {
      assert i in painted + {i};
    } else {
      assert PaintedOver(d0.list, painted + {i}, x, y) <==> PaintedOver(d0.list, painted, x, y);
      if painted == {} {
        assert d.render !in d.clean ==> before == d.buffers[d.render];
      } else {
        assert before == d.buffers[d.render];
        assert PixelSoFar(d0, d, painted, i, x, y);
      }
    }
  }

  lemma SkipKeepsPixels(d0: Device, d: Device, i: nat, u: Updated, painted: set<nat>)
    requires i < |d0.list| && Touched(d0, d, painted, i) && PixelsSoFar(d0, d, painted, i)
    requires HullOk(d0.list, painted, u) && !NeedRender(d.list[i], u, d.render)
    ensures Touched(d0, d, painted, i + 1) && PixelsSoFar(d0, d, painted, i + 1)
  {
    var next := i + 1;
    forall x: int, y: int | painted != {}
      ensures PixelSoFar(d0, d, painted, next, x, y)
    {
      assert PixelSoFar(d0, d, painted, i, x, y);
      if PaintedOver(d0.list, painted, x, y) {
        SkippedIsElsewhere(d0, i, u, painted, x, y);
      }
    }
  }

  lemma PaintKeepsPixels(d0: Device, d: Device, i: nat, u: Updated, painted: set<nat>)
    requires i < |d0.list| && Touched(d0, d, painted, i) && PixelsSoFar(d0, d, painted, i)
    requires NeedRender(d.list[i], u, d.render)
    ensures var e, more := RenderSurface(d, i), painted + {i};
            Touched(d0, e, more, i + 1) && PixelsSoFar(d0, e, more, i + 1)
  {
    var e := RenderSurface(d, i);
    var more := painted + {i};
    var next := i + 1;
    assert Touched(d0, e, more, next);
    forall x: int, y: int
      ensures PixelSoFar(d0, e, more, next, x, y)
    {
      PaintPixel(d0, d, i, painted, x, y);
    }
  }

  lemma PassPaints(d0: Device, d: Device, i: nat, u: Updated, painted: set<nat>) returns (all: set<nat>)
    requires Touched(d0, d, painted, i) && PixelsSoFar(d0, d, painted, i)
    requires HullOk(d0.list, painted, u) && SkippedOk(d0, painted, i)
    ensures painted <= all
    ensures forall j :: i <= j < |d0.list| && Eligible(d0.list[j]) && d0.render !in d0.list[j].rendered ==> j in all
    ensures forall j :: j in all ==> j in painted || j >= i
    ensures var e := Pass(d, i, u);
            Touched(d0, e, all, |d0.list|) && PixelsSoFar(d0, e, all, |d0.list|) && SkippedOk(d0, all, |d0.list|)
    decreases |d0.list| - i
  {
    if i == |d0.list| {
      all := painted;
    } else if NeedRender(d.list[i], u, d.render) {
      var e := RenderSurface(d, i);
      var more := painted + {i};
      PaintKeepsPixels(d0, d, i, u, painted);
      all := PassPaints(d0, e, i + 1, Hull(u, d.list[i].rect), more);
      assert i in all;
    } else {
      SkipKeepsPixels(d0, d, i, u, painted);
      all := PassPaints(d0, d, i + 1, u, painted);
    }
  }

  /** The picture a finished pass leaves in the current buffer, if it painted anything. */
  lemma PassShowsTop(d0: Device, e: Device, painted: set<nat>, x: int, y: int)
    requires Inv(d0) && painted != {}
    requires Touched(d0, e, painted, |d0.list|) && PixelsSoFar(d0, e, painted, |d0.list|)
    requires SkippedOk(d0, painted, |d0.list|)
    ensures PixelAt(e.buffers[d0.render], x, y) == PixelOf(d0.list, Top(d0.list, |d0.list|, x, y))
  {
    var t := Top(d0.list, |d0.list|, x, y);
    assert PixelSoFar(d0, e, painted, |d0.list|, x, y);
    assert BufferOk(d0, d0.render);
    if !PaintedOver(d0.list, painted, x, y) {
      if t >= 0 {
        assert t !in painted;
        assert d0.render in d0.list[t].rendered;
      }
      assert d0.render !in d0.clean ==> PointOk(d0, d0.render, x, y);
    }
  }

  /** Painting keeps the other buffers as right as they were. */
  lemma OtherBuffersKept(d0: Device, e: Device, painted: set<nat>, b: nat)
    requires Inv(d0) && Touched(d0, e, painted, |d0.list|) && b < BUFFERS && b != d0.render
    ensures BufferOk(e, b)
  {
    assert BufferOk(d0, b);
    if b !in e.clean {
      forall x: int, y: int
        ensures PointOk(e, b, x, y)
      {
        assert PointOk(d0, b, x, y);
        TopSame(d0.list, e.list, |d0.list|, x, y);
      }
    }
  }

  /**
    Any pass that paints something keeps the invariant and leaves the current buffer with the picture of
    painting everything.
   */
  lemma PassRepaints(d: Device)
    requires Inv(d)
    requires exists i :: 0 <= i < |d.list| && Eligible(d.list[i]) && d.render !in d.list[i].rendered
    ensures var e := Pass(d, 0, NOTHING_YET);
            Inv(e) && e.render == d.render && SamePicture(e.buffers[d.render], Everything(e.list))
  {
    var e := Pass(d, 0, NOTHING_YET);
    var painted := PassPaints(d, d, 0, NOTHING_YET, {});
    var i :| 0 <= i < |d.list| && Eligible(d.list[i]) && d.render !in d.list[i].rendered;
    assert i in painted;
    forall x: int, y: int
      ensures PixelAt(e.buffers[d.render], x, y) == PixelAt(Everything(e.list), x, y)
      ensures PointOk(e, d.render, x, y)
    {
      PassShowsTop(d, e, painted, x, y);
      TopSame(d.list, e.list, |d.list|, x, y);
      EverythingShowsTop(e.list, x, y);
    }
    forall b | 0 <= b < BUFFERS
      ensures BufferOk(e, b)
    {
      if b != d.render {
        OtherBuffersKept(d, e, painted, b);
      }
    }
  }

  // ---------- A refresh is a pass that has everything to paint ----------

  function Unrendered(list: seq<Surface>, from: nat): seq<Surface>
    requires from <= |list|
  {
    seq(|list|, i requires 0 <= i < |list| => if i < from then list[i] else list[i].(rendered := {}))
  }

  /** Resetting the masks one by one, as the refresh goes along, comes to the same as resetting them all first. */
  lemma {:induction false} RefreshIsPass(d: Device, i: nat, u: Updated)
    requires d.render < |d.buffers| && i <= |d.list|
    requires forall j :: i <= j < |d.list| ==> Eligible(d.list[j])
    ensures RefreshFrom(d, i) == Pass(d.(list := Unrendered(d.list, i)), i, u)
    decreases |d.list| - i
  {
    var p := d.(list := Unrendered(d.list, i));
    if i == |d.list| {
      assert p.list == d.list;
    } else {
      var reset := d.(list := d.list[i := d.list[i].(rendered := {})]);
      var e := RenderSurface(reset, i);
      assert RenderSurface(p, i).list == Unrendered(e.list, i + 1);
      assert RenderSurface(p, i) == e.(list := Unrendered(e.list, i + 1));
      RefreshIsPass(e, i + 1, Hull(u, p.list[i].rect));
    }
  }

  ghost predicate AllEligible(list: seq<Surface>) {
    forall i :: 0 <= i < |list| ==> Eligible(list[i])
  }

  /** Where no surface is, buffer b is black, or will be cleared first. */
  ghost predicate ClearAround(d: Device, b: nat)
    requires b < |d.buffers|
  {
    b in d.clean || forall x: int, y: int :: Top(d.list, |d.list|, x, y) == -1 ==> PixelAt(d.buffers[b], x, y) == Black
  }

  ghost predicate ReadyToRefresh(d: Device) {
    && |d.buffers| == BUFFERS && d.render < BUFFERS
    && (forall b :: b in d.clean ==> b < BUFFERS)
    && (forall b :: 0 <= b < BUFFERS ==> ClearAround(d, b))
  }

  lemma RefreshRepaints(d: Device)
    requires ReadyToRefresh(d) && d.list != [] && AllEligible(d.list)
    ensures var e := RefreshFrom(d, 0);
            Inv(e) && e.render == d.render && SamePicture(e.buffers[d.render], Everything(e.list))
  {
    var p := d.(list := Unrendered(d.list, 0));
    RefreshIsPass(d, 0, NOTHING_YET);
    forall b | 0 <= b < BUFFERS
      ensures BufferOk(p, b)
    {
      assert ClearAround(d, b);
      forall x: int, y: int | b !in p.clean
        ensures PointOk(p, b, x, y)
      {
        TopSame(d.list, p.list, |d.list|, x, y);
      }
    }
    assert Eligible(p.list[0]) && p.render !in p.list[0].rendered;
    PassRepaints(p);
  }

  // ---------- The operations ----------

  datatype Event =
    | Create(surface: Surface, contents: seq<seq<Op>>)
    | Render(i: nat, frame: int, flips: bool)
    | Configure(i: nat, rect: Rect, task: Task, visible: bool, flips: bool)
    | Relayer(i: nat, flips: bool)
    | Destroy(i: nat, flips: bool)

  function Without(list: seq<Surface>, i: nat): seq<Surface>
    requires i < |list|
  {
    list[..i] + list[i + 1..]
  }

  function MovedLast(list: seq<Surface>, i: nat): seq<Surface>
    requires i < |list|
  {
    Without(list, i) + [list[i]]
  }

  function WithFrame(d: Device, i: nat, frame: int): Device
    requires i < |d.list|
  {
    d.(list := d.list[i := d.list[i].(frame := frame, rendered := {})])
  }

  predicate InRange(d: Device, e: Event) {
    d.render < |d.buffers| && (!e.Create? ==> e.i < |d.list|)
  }

  /** One call of the service on this device. */
  function Step(d: Device, e: Event): Device
    requires InRange(d, e)
  {
    match e
    case Create(s, contents) =>
      // The first surface opens the device, whose buffers then hold whatever they hold.
      d.(list := d.list + [s], buffers := if d.list == [] then contents else d.buffers)
    case Render(i, frame, flips) =>
      var f := WithFrame(d, i, frame);
      if !f.list[i].visible then f else Flip(Pass(f, 0, NOTHING_YET), flips)
    case Configure(i, rect, task, visible, flips) =>
      var list := d.list[i := d.list[i].(rect := rect, task := task, visible := visible)];
      var moved := if i < |list| - 1 then MovedLast(list, i) else list;
      Flip(RefreshFrom(d.(list := moved, clean := ALL_BUFFERS), 0), flips)
    case Relayer(i, flips) =>
      if i == |d.list| - 1 then d else Flip(RefreshFrom(d.(list := MovedLast(d.list, i)), 0), flips)
    case Destroy(i, flips) =>
      var left := d.(list := Without(d.list, i), clean := ALL_BUFFERS);
      if left.list == [] then left else Flip(RefreshFrom(left, 0), flips)
  }

  /** Whether the call paints a buffer, which is then flipped. */
  predicate Paints(d: Device, e: Event)
    requires InRange(d, e)
  {
    match e
    case Create(_, _) => false
    case Render(i, _, _) => d.list[i].visible
    case Configure(_, _, _, _, _) => true
    case Relayer(i, _) => i < |d.list| - 1
    case Destroy(i, _) => |d.list| > 1
  }

  /**
    When a first surface opens the device: a buffer that is not going to be cleared is black wherever the surface will
    not be painted.
   */
  ghost predicate Opens(d: Device, s: Surface, contents: seq<seq<Op>>) {
    d.list == [] ==>
      && |contents| == BUFFERS
      && forall b :: 0 <= b < BUFFERS && b !in d.clean ==>
           forall x: int, y: int :: !(Eligible(s) && Covers(s.rect, x, y)) ==> PixelAt(contents[b], x, y) == Black
  }

  /**
    The calls the result is about: the device has room for a new surface, visible surfaces have proper windows, all
    surfaces start fresh, frames exist, and a refresh only meets visible surfaces with a frame.
   */
  ghost predicate Allowed(d: Device, e: Event)
    requires InRange(d, e)
  {
    match e
    case Create(s, contents) =>
      Room(d) && InWindow(d, s) && Fresh(s) && Opens(d, s, contents)
    case Render(_, frame, _) => frame != NO_FRAME
    case Configure(i, rect, task, visible, _) =>
      && IsWindow(rect, d.resX, d.resY)
      && AllEligible(d.list[i := d.list[i].(rect := rect, task := task, visible := visible)])
    case Relayer(_, _) => AllEligible(d.list)
    case Destroy(i, _) => AllEligible(Without(d.list, i))
  }

  lemma {:induction false} TopIsNone(list: seq<Surface>, n: nat, x: int, y: int)
    requires n <= |list|
    ensures Top(list, n, x, y) == -1 <==> forall j :: 0 <= j < n ==> !(Eligible(list[j]) && Covers(list[j].rect, x, y))
  {
    if n == 0 {
    } else {
      TopIsNone(list, n - 1, x, y);
    }
  }

  lemma {:induction false} TopAppend(list: seq<Surface>, s: Surface, n: nat, x: int, y: int)
    requires n <= |list|
    ensures Top(list + [s], n, x, y) == Top(list, n, x, y)
  {
    if n == 0 {
    } else {
      TopAppend(list, s, n - 1, x, y);
    }
  }

  /** Changing one surface only matters at the points where it then is on top, or was. */
  lemma {:induction false} TopUpdate(list: seq<Surface>, i: nat, s: Surface, n: nat, x: int, y: int)
    requires i < |list| && n <= |list| && Eligible(s) && s.rect == list[i].rect && s.visible == list[i].visible
    ensures var t := Top(list[i := s], n, x, y); t == i || t == Top(list, n, x, y)
  {
    if n == 0 {
    } else {
      TopUpdate(list, i, s, n - 1, x, y);
    }
  }

  lemma NewFrameKeepsInv(d: Device, i: nat, frame: int)
    requires Inv(d) && i < |d.list| && frame != NO_FRAME
    ensures Inv(WithFrame(d, i, frame))
  {
    var f := WithFrame(d, i, frame);
    forall b | 0 <= b < BUFFERS
      ensures BufferOk(f, b)
    {
      assert BufferOk(d, b);
      forall x: int, y: int | b !in f.clean
        ensures PointOk(f, b, x, y)
      {
        assert PointOk(d, b, x, y);
        if d.list[i].visible {
          TopUpdate(d.list, i, f.list[i], |d.list|, x, y);
        } else {
          TopInvisible(d.list, i, f.list[i], |d.list|, x, y);
        }
      }
    }
  }

  lemma {:induction false} TopInvisible(list: seq<Surface>, i: nat, s: Surface, n: nat, x: int, y: int)
    requires i < |list| && n <= |list| && !s.visible && !list[i].visible
    ensures Top(list[i := s], n, x, y) == Top(list, n, x, y) != i
  {
    if n == 0 {
    } else {
      TopInvisible(list, i, s, n - 1, x, y);
    }
  }

  /** A device without surfaces, in any state of its buffers and marks. */
  ghost predicate Empty(d: Device) {
    d.list == [] && |d.buffers| == BUFFERS && d.render < BUFFERS && d.clean <= ALL_BUFFERS
  }

  lemma FreshBits(s: Surface, b: nat, x: int, y: int)
    requires Fresh(s) && b < BUFFERS
    ensures Shown(s) ==> b !in s.rendered
    ensures Eligible(s) && Covers(s.rect, x, y) ==> Shown(s)
  {
    assert b in s.rendered ==> b in s.rendered * ALL_BUFFERS;
  }

  /** The first surface makes the invariant hold, whatever the buffers held before the device was opened. */
  lemma FirstCreateGivesInv(d: Device, s: Surface, contents: seq<seq<Op>>)
    requires Empty(d) && Fresh(s) && Opens(d, s, contents)
    ensures Inv(Step(d, Create(s, contents)))
  {
    var e := Step(d, Create(s, contents));
    assert e.list == [s];
    forall b | 0 <= b < BUFFERS
      ensures BufferOk(e, b)
    {
      FreshBits(s, b, 0, 0);
      forall x: int, y: int | b !in e.clean
        ensures PointOk(e, b, x, y)
      {
        FreshBits(s, b, x, y);
        assert Top(e.list, 0, x, y) == -1;
        assert !(Eligible(s) && Covers(s.rect, x, y)) ==> PixelAt(contents[b], x, y) == Black;
      }
    }
  }

  lemma CreateKeepsInv(d: Device, s: Surface, contents: seq<seq<Op>>)
    requires Inv(d) && Fresh(s) && Opens(d, s, contents)
    ensures Inv(Step(d, Create(s, contents)))
  {
    if d.list == [] {
      FirstCreateGivesInv(d, s, contents);
    } else {
      var e := Step(d, Create(s, contents));
      forall b | 0 <= b < BUFFERS
        ensures BufferOk(e, b)
      {
        assert BufferOk(d, b);
        FreshBits(s, b, 0, 0);
        forall x: int, y: int | b !in e.clean
          ensures PointOk(e, b, x, y)
        {
          FreshBits(s, b, x, y);
          assert PointOk(d, b, x, y);
          TopAppend(d.list, s, |d.list|, x, y);
        }
      }
    }
  }

  lemma MovedLastIsReady(d: Device, i: nat)
    requires Inv(d) && i < |d.list|
    ensures ReadyToRefresh(d.(list := MovedLast(d.list, i)))
  {
    var m := MovedLast(d.list, i);
    var e := d.(list := m);
    assert forall j :: 0 <= j < |d.list| ==> d.list[j] == m[if j < i then j else if j == i then |m| - 1 else j - 1];
    forall b | 0 <= b < BUFFERS
      ensures ClearAround(e, b)
    {
      assert BufferOk(d, b);
      forall x: int, y: int | b !in d.clean && Top(m, |m|, x, y) == -1
        ensures PixelAt(d.buffers[b], x, y) == Black
      {
        TopIsNone(m, |m|, x, y);
        TopIsNone(d.list, |d.list|, x, y);
        assert PointOk(d, b, x, y);
      }
    }
  }

  lemma FlipKeepsInv(d: Device, ok: bool)
    requires Inv(d)
    ensures Inv(Flip(d, ok))
  {
    var e := Flip(d, ok);
    forall b | 0 <= b < BUFFERS
      ensures BufferOk(e, b)
    {
      assert BufferOk(d, b);
      forall x: int, y: int | b !in e.clean
        ensures PointOk(e, b, x, y)
      {
        assert PointOk(d, b, x, y);
      }
    }
  }

  lemma RefreshAndFlip(d: Device, ok: bool)
    requires ReadyToRefresh(d) && d.list != [] && AllEligible(d.list)
    ensures var e := Flip(RefreshFrom(d, 0), ok);
            Inv(e) && SamePicture(e.buffers[d.render], Everything(e.list))
  {
    RefreshRepaints(d);
    FlipKeepsInv(RefreshFrom(d, 0), ok);
  }

  /** The call keeps the invariant, and if it paints, the buffer it flips is left equal to a full repaint. */
  ghost predicate Repaints(d: Device, e: Event)
    requires InRange(d, e)
  {
    && Inv(Step(d, e))
    && (Paints(d, e) ==> SamePicture(Step(d, e).buffers[d.render], Everything(Step(d, e).list)))
  }

  lemma RenderRepaints(d: Device, i: nat, frame: int, ok: bool)
    requires Inv(d) && i < |d.list| && frame != NO_FRAME
    ensures Repaints(d, Render(i, frame, ok))
  {
    NewFrameKeepsInv(d, i, frame);
    var f := WithFrame(d, i, frame);
    if f.list[i].visible {
      assert Eligible(f.list[i]) && f.render !in f.list[i].rendered;
      PassRepaints(f);
      FlipKeepsInv(Pass(f, 0, NOTHING_YET), ok);
    }
  }

  lemma ConfigureRepaints(d: Device, i: nat, rect: Rect, task: Task, visible: bool, ok: bool)
    requires Inv(d) && i < |d.list| && Allowed(d, Configure(i, rect, task, visible, ok))
    ensures Repaints(d, Configure(i, rect, task, visible, ok))
  {
    var list := d.list[i := d.list[i].(rect := rect, task := task, visible := visible)];
    RefreshAndFlip(d.(list := if i < |list| - 1 then MovedLast(list, i) else list, clean := ALL_BUFFERS), ok);
  }

  lemma RelayerRepaints(d: Device, i: nat, ok: bool)
    requires Inv(d) && i < |d.list| && Allowed(d, Relayer(i, ok))
    ensures Repaints(d, Relayer(i, ok))
  {
    if i < |d.list| - 1 {
      MovedLastIsReady(d, i);
      RefreshAndFlip(d.(list := MovedLast(d.list, i)), ok);
    }
  }

  lemma DestroyRepaints(d: Device, i: nat, ok: bool)
    requires Inv(d) && i < |d.list| && Allowed(d, Destroy(i, ok))
    ensures Repaints(d, Destroy(i, ok))
  {
    var p := d.(list := Without(d.list, i), clean := ALL_BUFFERS);
    if p.list != [] {
      RefreshAndFlip(p, ok);
    }
  }

  lemma StepRepaints(d: Device, e: Event)
    requires Inv(d) && InRange(d, e) && Allowed(d, e)
    ensures Repaints(d, e)
  {
    match e
    case Create(s, contents) => CreateKeepsInv(d, s, contents);
    case Render(i, frame, flips) => RenderRepaints(d, i, frame, flips);
    case Configure(i, rect, task, visible, flips) => ConfigureRepaints(d, i, rect, task, visible, flips);
    case Relayer(i, flips) => RelayerRepaints(d, i, flips);
    case Destroy(i, flips) => DestroyRepaints(d, i, flips);
  }

  // ---------- Whole runs ----------

  ghost predicate AllowedRun(d: Device, events: seq<Event>)
    decreases |events|
  {
    events != [] ==>
      InRange(d, events[0]) && Allowed(d, events[0]) && AllowedRun(Step(d, events[0]), events[1..])
  }

  /** Each time a buffer is flipped, it shows what painting everything would show. */
  ghost predicate AlwaysRepainted(d: Device, events: seq<Event>)
    requires AllowedRun(d, events)
    decreases |events|
  {
    events != [] ==>
      var e := Step(d, events[0]);
      && (Paints(d, events[0]) ==> SamePicture(e.buffers[d.render], Everything(e.list)))
      && AlwaysRepainted(e, events[1..])
  }

  /** Incremental repainting refines full repainting, over every run that goes on from a device in order. */
  lemma {:induction false} RunsKeepRepainting(d: Device, events: seq<Event>)
    requires Inv(d) && AllowedRun(d, events)
    ensures AlwaysRepainted(d, events)
    decreases |events|
  {
    if events == [] {
    } else {
      StepRepaints(d, events[0]);
      RunsKeepRepainting(Step(d, events[0]), events[1..]);
    }
  }

  /** Incremental repainting refines full repainting, over every run from an empty device. */
  lemma RunsRepaint(d: Device, events: seq<Event>)
    requires Empty(d) && AllowedRun(d, events)
    ensures AlwaysRepainted(d, events)
  {
    if events == [] {
    } else {
      FirstCreateGivesInv(d, events[0].surface, events[0].contents);
      RunsKeepRepainting(Step(d, events[0]), events[1..]);
    }
  }

  // ---------- The overlap test ----------

  /** For rectangles of any extent the overlap test always holds: once a pass paints, it paints all that follows. */
  lemma OverlapAlwaysHolds(s: Surface, u: Updated, render: nat)
    requires Width(s.rect) > 0 && Height(s.rect) > 0 && Width(u.rect) > 0 && Height(u.rect) > 0
    ensures Overlaped(s.rect, u.rect)
    ensures u.any ==> NeedRender(s, u, render) == Eligible(s)
  {
  }
}
