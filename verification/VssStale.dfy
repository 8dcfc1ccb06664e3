/**
  Surfaces with a stale mask.  A pool slot keeps the mask of its last use (createVideoSurface, _destroyVideoSurface in
  libs/vss/mfw_gst_video_surface.c), so a new surface can count as painted into buffers that do not show it.

  The main result says exactly when that does harm.  Bits for which a surface below still has to be painted do none,
  since painting that one paints the new one too; this is shown by comparing the device with one without those bits.
 */
module VssStale {
  import opened VssGeometry
  import opened VssRepaint

  // ---------- Surfaces with a stale mask ----------

  lemma {:induction false} SkipsRendered(d: Device, i: nat, n: nat)
    requires i <= n <= |d.list| && d.render < |d.buffers|
    requires forall k :: i <= k < n ==> !NeedRender(d.list[k], NOTHING_YET, d.render)
    ensures Pass(d, i, NOTHING_YET) == Pass(d, n, NOTHING_YET)
    decreases n - i
  {
    if i == n {
    } else {
      SkipsRendered(d, i + 1, n);
    }
  }

  lemma {:induction false} TopStays(list: seq<Surface>, i: nat, n: nat, x: int, y: int)
    requires i < n <= |list| && Eligible(list[i]) && Covers(list[i].rect, x, y)
    requires forall k :: i < k < n ==> !Covers(list[k].rect, x, y)
    ensures VssRepaint.Top(list, n, x, y) == i
  {
    if n == i + 1 {
    } else {
      TopStays(list, i, n - 1, x, y);
    }
  }

  /**
    Neither create nor destroy resets a surface's mask.  A surface that comes back with the bit of the current buffer
    set is passed over when a later one is rendered and nothing below it needs painting; where it should be on top
    and the buffer shows something else, the buffer that is flipped goes on showing that.
   */
  lemma StaleMaskIsMissed(d: Device, i: nat, j: nat, frame: int, flips: bool, x: int, y: int)
    requires d.render < |d.buffers| && i < j < |d.list| && frame != NO_FRAME && d.list[j].visible
    requires Eligible(d.list[i]) && Covers(d.list[i].rect, x, y)
    requires forall k :: 0 <= k <= i && Eligible(d.list[k]) ==> d.render in d.list[k].rendered
    requires forall k :: i < k < |d.list| ==> !Covers(d.list[k].rect, x, y)
    requires Base(d, x, y) != Shows(d.list[i].task, d.list[i].frame)
    ensures var e := Step(d, Render(j, frame, flips));
            PixelAt(e.buffers[d.render], x, y) == Base(d, x, y) && !SamePicture(e.buffers[d.render], Everything(e.list))
  {
    var f := WithFrame(d, j, frame);
    var next := i + 1;
    SkipsRendered(f, 0, next);
    var painted := PassPaints(f, f, next, NOTHING_YET, {});
    var e := Pass(f, 0, NOTHING_YET);
    assert j in painted;
    assert !PaintedOver(f.list, painted, x, y);
    assert PixelSoFar(f, e, painted, |f.list|, x, y);
    TopSame(f.list, e.list, |f.list|, x, y);
    TopStays(f.list, i, |f.list|, x, y);
    EverythingShowsTop(e.list, x, y);
    assert PixelAt(e.buffers[d.render], x, y) != PixelAt(Everything(e.list), x, y);
  }

  /**
    The next to last surface is stale: buffer b does not show it at (x, y) although b is in its mask and in those of
    all below, and the last one leaves that point to it.
   */
  ghost predicate StaleBelow(d: Device, b: nat, x: int, y: int) {
    && |d.list| >= 2 && |d.buffers| == BUFFERS && d.render < BUFFERS && b < BUFFERS
    && var i := |d.list| - 2;
       && Eligible(d.list[i]) && Covers(d.list[i].rect, x, y)
       && (forall k :: 0 <= k <= i && Eligible(d.list[k]) ==> b in d.list[k].rendered)
       && d.list[i + 1].visible && !Covers(d.list[i + 1].rect, x, y)
       && (b in d.clean || PixelAt(d.buffers[b], x, y) != Shows(d.list[i].task, d.list[i].frame))
  }

  /** A pass has nothing to do with the other buffers. */
  lemma PassLeavesOthers(d: Device, b: nat)
    requires d.render < |d.buffers| && b < |d.buffers| && b != d.render
    ensures var e := Pass(d, 0, NOTHING_YET);
            && e.buffers[b] == d.buffers[b] && (b in e.clean <==> b in d.clean)
            && forall k :: 0 <= k < |d.list| ==>
                 && e.list[k].(rendered := {}) == d.list[k].(rendered := {})
                 && (b in e.list[k].rendered <==> b in d.list[k].rendered)
  {
    var painted := PassPaints(d, d, 0, NOTHING_YET, {});
  }

  lemma StaleStays(d: Device, b: nat, frame: int, x: int, y: int)
    requires StaleBelow(d, b, x, y) && d.render != b && frame != NO_FRAME
    ensures var e := Step(d, Render(|d.list| - 1, frame, true));
            StaleBelow(e, b, x, y) && e.render == (d.render + 1) % BUFFERS
  {
    PassLeavesOthers(WithFrame(d, |d.list| - 1, frame), b);
  }

  /** Rendering the last surface until the current buffer is b flips a buffer without the stale one, if not earlier. */
  lemma {:induction false} StaleRun(d: Device, b: nat, frame: int, x: int, y: int) returns (events: seq<Event>)
    requires StaleBelow(d, b, x, y) && frame != NO_FRAME
    ensures AllowedRun(d, events) && !AlwaysRepainted(d, events)
    decreases (b + BUFFERS - d.render) % BUFFERS
  {
    var event := Render(|d.list| - 1, frame, true);
    if d.render == b {
      StaleMaskIsMissed(d, |d.list| - 2, |d.list| - 1, frame, true, x, y);
      events := [event];
      assert events[1..] == [];
    } else {
      StaleStays(d, b, frame, x, y);
      var rest := StaleRun(Step(d, event), b, frame, x, y);
      events := [event] + rest;
      assert events[1..] == rest;
    }
  }

  // ---------- Stale bits that do no harm ----------

  /** Some surface below position m shows and still has to be painted into buffer b. */
  ghost predicate HasLower(list: seq<Surface>, m: nat, b: nat) {
    exists i :: 0 <= i < m && i < |list| && Shown(list[i]) && b !in list[i].rendered
  }

  /** The device with some bits of one surface's mask taken out. */
  function Cured(d: Device, m: nat, bits: set<nat>): Device
    requires m < |d.list|
  {
    d.(list := d.list[m := d.list[m].(rendered := d.list[m].rendered - bits)])
  }

  /** The bits do no harm, because painting a surface below will have this one painted as well. */
  ghost predicate Deferred(d: Device, m: nat, bits: set<nat>) {
    m < |d.list| && Shown(d.list[m]) && forall b :: b in bits ==> HasLower(d.list, m, b)
  }

  /** c is d, or d without such bits. */
  ghost predicate Like(d: Device, c: Device) {
    c == d || exists m, bits :: Deferred(d, m, bits) && c == Cured(d, m, bits)
  }

  lemma RenderedKeeps(d: Device, i: nat, m: nat, bits: set<nat>)
    requires i < |d.list| && m < |d.list| && d.render < |d.buffers| && d.render !in bits
    ensures RenderSurface(Cured(d, m, bits), i) == Cured(RenderSurface(d, i), m, bits)
  {
    var c := Cured(d, m, bits);
    assert (d.list[m].rendered - bits) + {d.render} == (d.list[m].rendered + {d.render}) - bits;
    assert RenderSurface(c, i).list == Cured(RenderSurface(d, i), m, bits).list;
  }

  /** While another buffer is painted, the bits make no difference. */
  lemma {:induction false} PassElsewhere(d: Device, i: nat, u: Updated, m: nat, bits: set<nat>)
    requires m < |d.list| && d.render < |d.buffers| && d.render !in bits
    ensures Pass(Cured(d, m, bits), i, u) == Cured(Pass(d, i, u), m, bits)
    decreases |d.list| - i
  {
    if i >= |d.list| {
    } else if NeedRender(d.list[i], u, d.render) {
      RenderedKeeps(d, i, m, bits);
      PassElsewhere(RenderSurface(d, i), i + 1, Hull(u, d.list[i].rect), m, bits);
    } else {
      PassElsewhere(d, i + 1, u, m, bits);
    }
  }

  predicate HasExtent(u: Updated) {
    u.any && Width(u.rect) > 0 && Height(u.rect) > 0
  }

  /** While buffer b is painted, the surface is painted with or without bit b, and then has it. */
  lemma {:induction false} PassCatchesUp(d: Device, i: nat, u: Updated, m: nat, bits: set<nat>)
    requires i <= m < |d.list| && d.render < |d.buffers| && d.render in bits && Shown(d.list[m])
    requires HasExtent(u) || exists k :: i <= k < m && Shown(d.list[k]) && d.render !in d.list[k].rendered
    ensures Pass(Cured(d, m, bits), i, u) == Cured(Pass(d, i, u), m, bits - {d.render})
    decreases m - i
  {
    var c := Cured(d, m, bits);
    if i == m {
      OverlapAlwaysHolds(d.list[m], u, d.render);
      var fewer := bits - {d.render};
      assert (d.list[m].rendered - bits) + {d.render} == (d.list[m].rendered + {d.render}) - fewer;
      assert RenderSurface(c, m).list == Cured(RenderSurface(d, m), m, fewer).list;
      PassElsewhere(RenderSurface(d, m), m + 1, Hull(u, d.list[m].rect), m, fewer);
    } else if NeedRender(d.list[i], u, d.render) {
      var e := RenderSurface(d, i);
      assert RenderSurface(c, i).list == Cured(e, m, bits).list;
      if !HasExtent(u) {
        var k :| i <= k < m && Shown(d.list[k]) && d.render !in d.list[k].rendered;
        assert k > i ==> Shown(e.list[k]) && e.render !in e.list[k].rendered;
      }
      PassCatchesUp(e, i + 1, Hull(u, d.list[i].rect), m, bits);
    } else {
      PassCatchesUp(d, i + 1, u, m, bits);
    }
  }

  /** A pass keeps two such devices alike, and paints the same in both. */
  lemma PassKeepsLike(d: Device, m: nat, bits: set<nat>)
    requires Deferred(d, m, bits) && d.render < |d.buffers|
    ensures var e, g := Pass(d, 0, NOTHING_YET), Pass(Cured(d, m, bits), 0, NOTHING_YET);
            Deferred(e, m, bits - {d.render}) && g == Cured(e, m, bits - {d.render})
  {
    var painted := PassPaints(d, d, 0, NOTHING_YET, {});
    var e := Pass(d, 0, NOTHING_YET);
    var fewer := bits - {d.render};
    forall b | b in fewer
      ensures HasLower(e.list, m, b)
    {
      assert HasLower(d.list, m, b);
      var i :| 0 <= i < m && i < |d.list| && Shown(d.list[i]) && b !in d.list[i].rendered;
      assert Shown(e.list[i]) && b !in e.list[i].rendered;
    }
    if d.render in bits {
      assert HasLower(d.list, m, d.render);
      PassCatchesUp(d, 0, NOTHING_YET, m, bits);
    } else {
      assert fewer == bits;
      PassElsewhere(d, 0, NOTHING_YET, m, bits);
    }
  }

  /** The same surfaces, but for the masks. */
  ghost predicate SameButMasks(a: seq<Surface>, b: seq<Surface>) {
    |a| == |b| && forall i :: 0 <= i < |a| ==> a[i].(rendered := {}) == b[i].(rendered := {})
  }

  /** A refresh forgets the masks. */
  lemma RefreshForgets(d: Device, c: Device)
    requires d.render < |d.buffers| && AllEligible(d.list) && SameButMasks(d.list, c.list) && c == d.(list := c.list)
    ensures RefreshFrom(c, 0) == RefreshFrom(d, 0)
  {
    forall i | 0 <= i < |c.list| ensures Eligible(c.list[i]) {
      assert c.list[i].(rendered := {}) == d.list[i].(rendered := {});
    }
    RefreshIsPass(d, 0, NOTHING_YET);
    RefreshIsPass(c, 0, NOTHING_YET);
    assert Unrendered(c.list, 0) == Unrendered(d.list, 0);
  }

  lemma LikeByCure(d: Device, c: Device, m: nat, bits: set<nat>)
    requires Deferred(d, m, bits) && c == Cured(d, m, bits)
    ensures Like(d, c)
  {
  }

  lemma RenderKeepsLike(d: Device, m: nat, bits: set<nat>, j: nat, frame: int, flips: bool)
    requires Deferred(d, m, bits) && d.render < |d.buffers| && j < |d.list| && frame != NO_FRAME
    ensures Like(Step(d, Render(j, frame, flips)), Step(Cured(d, m, bits), Render(j, frame, flips)))
  {
    var c := Cured(d, m, bits);
    var f, g := WithFrame(d, j, frame), WithFrame(c, j, frame);
    if j == m {
      assert g.list == f.list;
    } else {
      assert g.list == Cured(f, m, bits).list;
      forall b | b in bits
        ensures HasLower(f.list, m, b)
      {
        assert HasLower(d.list, m, b);
        var i :| 0 <= i < m && i < |d.list| && Shown(d.list[i]) && b !in d.list[i].rendered;
        assert Shown(f.list[i]) && b !in f.list[i].rendered;
      }
      LikeByCure(f, g, m, bits);
      if f.list[j].visible {
        PassKeepsLike(f, m, bits);
        LikeByCure(Flip(Pass(f, 0, NOTHING_YET), flips), Flip(Pass(g, 0, NOTHING_YET), flips), m, bits - {d.render});
      }
    }
  }

  lemma CreateKeepsLike(d: Device, m: nat, bits: set<nat>, s: Surface, contents: seq<seq<Op>>)
    requires Deferred(d, m, bits) && d.render < |d.buffers|
    ensures Like(Step(d, Create(s, contents)), Step(Cured(d, m, bits), Create(s, contents)))
  {
    var e, g := Step(d, Create(s, contents)), Step(Cured(d, m, bits), Create(s, contents));
    assert g.list == Cured(e, m, bits).list;
    forall b | b in bits
      ensures HasLower(e.list, m, b)
    {
      assert HasLower(d.list, m, b);
      var i :| 0 <= i < m && i < |d.list| && Shown(d.list[i]) && b !in d.list[i].rendered;
      assert e.list[i] == d.list[i];
    }
    LikeByCure(e, g, m, bits);
  }

  lemma PlacedAlike(a: seq<Surface>, b: seq<Surface>, i: nat, rect: Rect, task: Task, visible: bool)
    requires SameButMasks(a, b) && i < |a|
    ensures var p := a[i := a[i].(rect := rect, task := task, visible := visible)];
            var q := b[i := b[i].(rect := rect, task := task, visible := visible)];
            && (AllEligible(p) ==> AllEligible(q) && AllEligible(MovedLast(p, i)))
            && SameButMasks(p, q) && SameButMasks(MovedLast(p, i), MovedLast(q, i))
  {
    var p := a[i := a[i].(rect := rect, task := task, visible := visible)];
    var q := b[i := b[i].(rect := rect, task := task, visible := visible)];
    assert a[i].(rendered := {}) == b[i].(rendered := {});
    assert SameButMasks(p, q);
    forall k | 0 <= k < |q| && AllEligible(p) ensures Eligible(q[k]) {
      assert p[k].(rendered := {}) == q[k].(rendered := {});
    }
  }

  lemma ConfigureForgets(d: Device, m: nat, bits: set<nat>, i: nat, rect: Rect, task: Task, visible: bool, flips: bool)
    requires m < |d.list| && d.render < |d.buffers| && i < |d.list|
    requires Allowed(d, Configure(i, rect, task, visible, flips))
    ensures var c, e := Cured(d, m, bits), Configure(i, rect, task, visible, flips);
            Allowed(c, e) && Step(c, e) == Step(d, e)
  {
    var c := Cured(d, m, bits);
    PlacedAlike(d.list, c.list, i, rect, task, visible);
    var list := d.list[i := d.list[i].(rect := rect, task := task, visible := visible)];
    var other := c.list[i := c.list[i].(rect := rect, task := task, visible := visible)];
    if i < |list| - 1 {
      RefreshForgets(d.(list := MovedLast(list, i), clean := ALL_BUFFERS),
                     c.(list := MovedLast(other, i), clean := ALL_BUFFERS));
    } else {
      RefreshForgets(d.(list := list, clean := ALL_BUFFERS), c.(list := other, clean := ALL_BUFFERS));
    }
  }

  lemma RelayerForgets(d: Device, m: nat, bits: set<nat>, i: nat, flips: bool)
    requires m < |d.list| && d.render < |d.buffers| && i < |d.list| - 1 && Allowed(d, Relayer(i, flips))
    ensures var c, e := Cured(d, m, bits), Relayer(i, flips);
            Allowed(c, e) && Step(c, e) == Step(d, e)
  {
    var c := Cured(d, m, bits);
    RefreshForgets(d.(list := MovedLast(d.list, i)), c.(list := MovedLast(c.list, i)));
  }

  lemma DestroyForgets(d: Device, m: nat, bits: set<nat>, i: nat, flips: bool)
    requires m < |d.list| && d.render < |d.buffers| && i < |d.list| && Allowed(d, Destroy(i, flips))
    ensures var c, e := Cured(d, m, bits), Destroy(i, flips);
            Allowed(c, e) && Step(c, e) == Step(d, e)
  {
    var c := Cured(d, m, bits);
    RefreshForgets(d.(list := Without(d.list, i), clean := ALL_BUFFERS),
                   c.(list := Without(c.list, i), clean := ALL_BUFFERS));
  }

  /** Every call keeps two such devices alike. */
  lemma StepKeepsLike(d: Device, m: nat, bits: set<nat>, e: Event)
    requires Deferred(d, m, bits) && InRange(d, e) && Allowed(d, e)
    ensures var c := Cured(d, m, bits);
            InRange(c, e) && Allowed(c, e) && Paints(c, e) == Paints(d, e) && Like(Step(d, e), Step(c, e))
  {
    match e
    case Create(s, contents) => CreateKeepsLike(d, m, bits, s, contents);
    case Render(j, frame, flips) => RenderKeepsLike(d, m, bits, j, frame, flips);
    case Configure(i, rect, task, visible, flips) => ConfigureForgets(d, m, bits, i, rect, task, visible, flips);
    case Relayer(i, flips) =>
      if i == |d.list| - 1 {
        LikeByCure(d, Cured(d, m, bits), m, bits);
        assert forall k :: 0 <= k < |d.list| ==> Eligible(Cured(d, m, bits).list[k]) == Eligible(d.list[k]);
      } else {
        RelayerForgets(d, m, bits, i, flips);
      }
    case Destroy(i, flips) => DestroyForgets(d, m, bits, i, flips);
  }

  lemma {:induction false} EverythingForgets(a: seq<Surface>, b: seq<Surface>)
    requires SameButMasks(a, b)
    ensures Everything(a) == Everything(b)
  {
    if a == [] {
    } else {
      var n := |a| - 1;
      assert a[n].(rendered := {}) == b[n].(rendered := {});
      EverythingForgets(a[..n], b[..n]);
    }
  }

  /** Devices that are alike show the same, now and in every run. */
  lemma {:induction false} LikeRepaints(d: Device, c: Device, events: seq<Event>)
    requires Like(d, c) && AllowedRun(d, events)
    ensures AllowedRun(c, events)
    ensures AlwaysRepainted(c, events) ==> AlwaysRepainted(d, events)
    decreases |events|
  {
    if events == [] || c == d {
    } else {
      var m, bits :| Deferred(d, m, bits) && c == Cured(d, m, bits);
      var e := events[0];
      StepKeepsLike(d, m, bits, e);
      LikeRepaints(Step(d, e), Step(c, e), events[1..]);
      SameShown(Step(d, e), Step(c, e));
    }
  }

  lemma SameShown(d: Device, c: Device)
    requires Like(d, c)
    ensures c.buffers == d.buffers && Everything(c.list) == Everything(d.list)
  {
    if c != d {
      var m, bits :| Deferred(d, m, bits) && c == Cured(d, m, bits);
      EverythingForgets(c.list, d.list);
    }
  }

  // ---------- Exactly when a create keeps repainting right ----------

  /** No run that is otherwise allowed goes wrong. */
  ghost predicate NeverMissed(d: Device) {
    forall events :: AllowedRun(d, events) ==> AlwaysRepainted(d, events)
  }

  /** Wherever the surface is, buffer b shows it already. */
  ghost predicate ShowsAlready(d: Device, b: nat, s: Surface)
    requires b < |d.buffers|
  {
    && b !in d.clean
    && forall x: int, y: int :: Covers(s.rect, x, y) ==> PixelAt(d.buffers[b], x, y) == Shows(s.task, s.frame)
  }

  /**
    The mask of the surface created last is harmless: for each buffer in it, a surface below still has to be painted
    there, or the buffer shows the surface already.
   */
  ghost predicate Harmless(d: Device)
    requires d.list != [] && |d.buffers| == BUFFERS
  {
    var m := |d.list| - 1;
    Shown(d.list[m]) ==>
      forall b :: 0 <= b < BUFFERS && b in d.list[m].rendered ==>
                    HasLower(d.list, m, b) || ShowsAlready(d, b, d.list[m])
  }

  /** A device on which s can be created; what is visible has a proper window, and some screen is beside any point. */
  ghost predicate Ready(d: Device, s: Surface, contents: seq<seq<Op>>) {
    && (if d.list == [] then Empty(d) && Opens(d, s, contents) else Inv(d))
    && InWindow(d, s) && (forall i :: 0 <= i < |d.list| ==> InWindow(d, d.list[i]))
    && d.resX >= 2 * MIN_EXTENT
  }

  /** The buffers whose bits in the last surface's mask wait for a surface below. */
  ghost function Waiting(d: Device): (bits: set<nat>)
    requires d.list != []
    ensures Shown(d.list[|d.list| - 1]) ==> Deferred(d, |d.list| - 1, bits)
  {
    set b | b in ALL_BUFFERS && HasLower(d.list, |d.list| - 1, b)
  }

  /** With the waiting bits taken out, a device after a harmless create is in order. */
  lemma HarmlessIsCured(d: Device, s: Surface, contents: seq<seq<Op>>)
    requires Ready(d, s, contents) && Shown(s) && Harmless(Step(d, Create(s, contents)))
    ensures var e := Step(d, Create(s, contents)); Inv(Cured(e, |d.list|, Waiting(e)))
  {
    var e := Step(d, Create(s, contents));
    var m := |d.list|;
    var c := Cured(e, m, Waiting(e));
    assert c.list == d.list + [c.list[m]];
    forall b | 0 <= b < BUFFERS
      ensures BufferOk(c, b)
    {
      assert b in ALL_BUFFERS;
      forall x: int, y: int | b !in c.clean
        ensures PointOk(c, b, x, y)
      {
        TopAppend(d.list, c.list[m], m, x, y);
        if d.list != [] {
          assert BufferOk(d, b) && PointOk(d, b, x, y);
        } else {
          assert !Covers(s.rect, x, y) ==> PixelAt(contents[b], x, y) == Black;
        }
      }
      assert d.list != [] ==> BufferOk(d, b);
    }
  }

  /** A mask that is not harmless gives itself away at some point. */
  lemma HarmShows(d: Device, s: Surface, contents: seq<seq<Op>>) returns (b: nat, x: int, y: int)
    requires Ready(d, s, contents) && !Harmless(Step(d, Create(s, contents)))
    ensures var e := Step(d, Create(s, contents));
            && b < BUFFERS && Covers(s.rect, x, y)
            && (b in e.clean || PixelAt(e.buffers[b], x, y) != Shows(s.task, s.frame))
            && forall k :: 0 <= k < |e.list| && Eligible(e.list[k]) ==> b in e.list[k].rendered
  {
    var e := Step(d, Create(s, contents));
    var m := |d.list|;
    b :| 0 <= b < BUFFERS && b in s.rendered && !HasLower(e.list, m, b) && !ShowsAlready(e, b, s);
    if b in e.clean {
      x, y := s.rect.left, s.rect.top;
    } else {
      x, y :| Covers(s.rect, x, y) && PixelAt(e.buffers[b], x, y) != Shows(s.task, s.frame);
    }
    forall k | 0 <= k < |e.list| && Eligible(e.list[k]) ensures b in e.list[k].rendered {
      if k < m {
        assert e.list[k] == d.list[k] && InWindow(d, d.list[k]);
      }
    }
  }

  /** A window that leaves every point of column x alone. */
  function Beside(x: int): Rect {
    if x < MIN_EXTENT then Rect(MIN_EXTENT, 2 * MIN_EXTENT, 0, MIN_EXTENT) else Rect(0, MIN_EXTENT, 0, MIN_EXTENT)
  }

  lemma BesideIsWindow(x: int, y: int, resX: int, resY: int)
    requires resX >= 2 * MIN_EXTENT && resY >= MIN_EXTENT
    ensures IsWindow(Beside(x), resX, resY) && !Covers(Beside(x), x, y)
  {
  }

  /** A harmful create, another surface beside the point, and some renderings of that: the picture is wrong. */
  lemma HarmIsMissed(d: Device, s: Surface, contents: seq<seq<Op>>) returns (events: seq<Event>)
    requires Ready(d, s, contents)
    requires !Harmless(Step(d, Create(s, contents))) && Room(Step(d, Create(s, contents)))
    ensures var e := Step(d, Create(s, contents)); AllowedRun(e, events) && !AlwaysRepainted(e, events)
  {
    var e := Step(d, Create(s, contents));
    var b, x, y := HarmShows(d, s, contents);
    BesideIsWindow(x, y, d.resX, d.resY);
    var other := Surface(Beside(x), s.task, NO_FRAME, true, {});
    var event := Create(other, contents);
    var two := Step(e, event);
    assert forall k :: 0 <= k < |e.list| ==> two.list[k] == e.list[k];
    var rest := StaleRun(two, b, NO_FRAME + 1, x, y);
    events := [event] + rest;
    assert events[1..] == rest;
  }

  // ---------- Without room for another surface ----------

  /** The last surface may be stale, nothing has been painted since it was created, and no other can be created. */
  ghost predicate StaleLast(d: Device) {
    && d.list != [] && !Room(d) && (forall i :: 0 <= i < |d.list| ==> InWindow(d, d.list[i]))
    && Shown(d.list[|d.list| - 1]) && Inv(Cured(d, |d.list| - 1, ALL_BUFFERS))
  }

  /** From here on, all is right. */
  ghost predicate Settled(d: Device) {
    exists c :: Like(d, c) && Inv(c)
  }

  /** The first rendering of a visible surface paints the stale one too, or is of that one. */
  lemma FirstPaintingSettles(d: Device, j: nat, frame: int, flips: bool)
    requires StaleLast(d) && j < |d.list| && d.list[j].visible && frame != NO_FRAME
    ensures var c := Cured(d, |d.list| - 1, ALL_BUFFERS);
            Like(Step(d, Render(j, frame, flips)), Step(c, Render(j, frame, flips)))
  {
    var m := |d.list| - 1;
    var f, g := WithFrame(d, j, frame), WithFrame(Cured(d, m, ALL_BUFFERS), j, frame);
    if j == m {
      assert g.list == f.list;
    } else {
      assert g.list == Cured(f, m, ALL_BUFFERS).list;
      assert InWindow(d, d.list[j]) && Shown(f.list[j]);
      PassKeepsLike(f, m, ALL_BUFFERS);
      LikeByCure(Flip(Pass(f, 0, NOTHING_YET), flips), Flip(Pass(g, 0, NOTHING_YET), flips), m,
                 ALL_BUFFERS - {d.render});
    }
  }

  lemma UnseenRenderingStays(d: Device, j: nat, frame: int, flips: bool)
    requires StaleLast(d) && j < |d.list| && !d.list[j].visible && frame != NO_FRAME
    ensures StaleLast(Step(d, Render(j, frame, flips)))
  {
    var m := |d.list| - 1;
    var e, c := Step(d, Render(j, frame, flips)), Cured(d, m, ALL_BUFFERS);
    StepRepaints(c, Render(j, frame, flips));
    assert Step(c, Render(j, frame, flips)).list == Cured(e, m, ALL_BUFFERS).list;
    forall i | 0 <= i < |e.list| ensures InWindow(e, e.list[i]) {
      assert InWindow(d, d.list[i]);
    }
  }

  /** Whatever comes first besides leaves no trace of the mask. */
  lemma OtherCallsForget(d: Device, e: Event)
    requires StaleLast(d) && InRange(d, e) && Allowed(d, e)
    requires !e.Render? && !(e.Relayer? && e.i == |d.list| - 1)
    ensures var c := Cured(d, |d.list| - 1, ALL_BUFFERS); InRange(c, e) && Allowed(c, e) && Step(c, e) == Step(d, e)
  {
    var m := |d.list| - 1;
    match e
    case Configure(i, rect, task, visible, flips) => ConfigureForgets(d, m, ALL_BUFFERS, i, rect, task, visible, flips);
    case Relayer(i, flips) => RelayerForgets(d, m, ALL_BUFFERS, i, flips);
    case Destroy(i, flips) => DestroyForgets(d, m, ALL_BUFFERS, i, flips);
    case _ =>
  }

  lemma StaleLastStep(d: Device, e: Event)
    requires StaleLast(d) && InRange(d, e) && Allowed(d, e)
    ensures Settled(Step(d, e)) || StaleLast(Step(d, e))
    ensures Paints(d, e) ==> SamePicture(Step(d, e).buffers[d.render], Everything(Step(d, e).list))
  {
    var c := Cured(d, |d.list| - 1, ALL_BUFFERS);
    if e.Relayer? && e.i == |d.list| - 1 {
    } else if e.Render? {
      if d.list[e.i].visible {
        FirstPaintingSettles(d, e.i, e.frame, e.flips);
        StepRepaints(c, e);
        SameShown(Step(d, e), Step(c, e));
      } else {
        UnseenRenderingStays(d, e.i, e.frame, e.flips);
      }
    } else {
      OtherCallsForget(d, e);
      StepRepaints(c, e);
      assert Like(Step(d, e), Step(c, e));
    }
  }

  lemma {:induction false} StaleLastRepaints(d: Device, events: seq<Event>)
    requires StaleLast(d) && AllowedRun(d, events)
    ensures AlwaysRepainted(d, events)
    decreases |events|
  {
    if events == [] {
    } else {
      var e := Step(d, events[0]);
      StaleLastStep(d, events[0]);
      if StaleLast(e) {
        StaleLastRepaints(e, events[1..]);
      } else {
        var c :| Like(e, c) && Inv(c);
        LikeRepaints(e, c, events[1..]);
        RunsKeepRepainting(c, events[1..]);
      }
    }
  }

  lemma FullIsStaleLast(d: Device, s: Surface, contents: seq<seq<Op>>)
    requires Ready(d, s, contents) && Shown(s) && !Room(Step(d, Create(s, contents)))
    ensures StaleLast(Step(d, Create(s, contents)))
  {
    var e := Step(d, Create(s, contents));
    var t := s.(rendered := s.rendered - ALL_BUFFERS);
    assert Cured(e, |d.list|, ALL_BUFFERS).list == d.list + [t];
    assert Cured(e, |d.list|, ALL_BUFFERS) == Step(d, Create(t, contents));
    if d.list == [] {
      FirstCreateGivesInv(d, t, contents);
    } else {
      CreateKeepsInv(d, t, contents);
    }
    forall i | 0 <= i < |e.list| ensures InWindow(e, e.list[i]) {
      assert i < |d.list| ==> InWindow(d, d.list[i]);
    }
  }

  // ---------- The exact condition ----------

  lemma HarmlessIsRight(d: Device, s: Surface, contents: seq<seq<Op>>, events: seq<Event>)
    requires Ready(d, s, contents) && Harmless(Step(d, Create(s, contents)))
    requires AllowedRun(Step(d, Create(s, contents)), events)
    ensures AlwaysRepainted(Step(d, Create(s, contents)), events)
  {
    var e := Step(d, Create(s, contents));
    if Shown(s) {
      var c := Cured(e, |d.list|, Waiting(e));
      HarmlessIsCured(d, s, contents);
      LikeByCure(e, c, |d.list|, Waiting(e));
      LikeRepaints(e, c, events);
      RunsKeepRepainting(c, events);
    } else {
      if d.list == [] {
        FirstCreateGivesInv(d, s, contents);
      } else {
        CreateKeepsInv(d, s, contents);
      }
      RunsKeepRepainting(e, events);
    }
  }

  /**
    After a create, all further runs are repainted right exactly if the mask of the new surface's slot is harmless, or
    the device has no room for another surface.
   */
  lemma CreateExactly(d: Device, s: Surface, contents: seq<seq<Op>>)
    requires Ready(d, s, contents)
    ensures var e := Step(d, Create(s, contents)); NeverMissed(e) <==> Harmless(e) || !Room(e)
  {
    var e := Step(d, Create(s, contents));
    if Harmless(e) {
      forall events | AllowedRun(e, events)
        ensures AlwaysRepainted(e, events)
      {
        HarmlessIsRight(d, s, contents, events);
      }
    } else if Room(e) {
      var events := HarmIsMissed(d, s, contents);
    } else {
      FullIsStaleLast(d, s, contents);
      forall events | AllowedRun(e, events)
        ensures AlwaysRepainted(e, events)
      {
        StaleLastRepaints(e, events);
      }
    }
  }

  /** On a device whose buffers start black that means fresh: the surface shows nowhere or its mask has no bit. */
  lemma FreshExactly(d: Device, s: Surface, contents: seq<seq<Op>>)
    requires Empty(d) && Ready(d, s, contents)
    requires forall b, x, y :: 0 <= b < BUFFERS && b !in d.clean ==> PixelAt(contents[b], x, y) == Black
    ensures var e := Step(d, Create(s, contents)); NeverMissed(e) <==> Fresh(s) || !Room(e)
  {
    var e := Step(d, Create(s, contents));
    CreateExactly(d, s, contents);
    assert e.list == [s];
    if Shown(s) {
      forall b | 0 <= b < BUFFERS
        ensures !HasLower(e.list, 0, b) && !ShowsAlready(e, b, s)
      {
        if b !in e.clean {
          assert PixelAt(contents[b], s.rect.left, s.rect.top) == Black;
          assert Covers(s.rect, s.rect.left, s.rect.top);
        }
      }
      assert forall b :: b in s.rendered && 0 <= b < BUFFERS ==> b in s.rendered * ALL_BUFFERS;
      assert forall b :: b in s.rendered * ALL_BUFFERS ==> b in s.rendered && 0 <= b < BUFFERS;
    }
  }
}
