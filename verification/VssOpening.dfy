/**
  What the framebuffers may hold when the first surface opens a device.  Only buffers marked in cleanmask are cleared
  before they are painted; with the mask 0 that the service starts with, that is none (_renderSuface in
  libs/vss/mfw_gst_vss_common.c).

  The main result says exactly what the others must hold for repainting to go right in all further runs.
 */
module VssOpening {
  import opened VssGeometry
  import opened VssRepaint
  import opened VssStale

  /** Whether point (x, y) of a fresh buffer can come to be seen behind the device's first surface. */
  predicate Matters(d: Device, s: Surface, x: int, y: int) {
    if Eligible(s) then !Covers(s.rect, x, y)
    else 1 < d.limit || (s.visible && !Covers(s.rect, x, y))
  }

  ghost predicate BlackWhereItMatters(d: Device, s: Surface, contents: seq<seq<Op>>)
    requires |contents| == BUFFERS
  {
    forall b :: 0 <= b < BUFFERS && b !in d.clean ==>
      forall x: int, y: int :: Matters(d, s, x, y) ==> PixelAt(contents[b], x, y) == Black
  }

  // ---------- What is behind the surfaces stays ----------

  lemma {:induction false} GroundStays(d: Device, i: nat, u: Updated, x: int, y: int)
    requires d.render < |d.buffers| && d.render !in d.clean
    requires forall k :: i <= k < |d.list| ==> !(Eligible(d.list[k]) && Covers(d.list[k].rect, x, y))
    ensures PixelAt(Pass(d, i, u).buffers[d.render], x, y) == PixelAt(d.buffers[d.render], x, y)
    decreases |d.list| - i
  {
    if i >= |d.list| {
    } else if NeedRender(d.list[i], u, d.render) {
      var e := RenderSurface(d, i);
      assert d.buffers[d.render] + [] == d.buffers[d.render];
      PixelAfterPaint(d.buffers[d.render], d.list[i], x, y);
      GroundStays(e, i + 1, Hull(u, d.list[i].rect), x, y);
    } else {
      GroundStays(d, i + 1, u, x, y);
    }
  }

  /** Buffer b will not be cleared and is not black at (x, y), where no surface is; surface j can be rendered. */
  ghost predicate WrongGround(d: Device, b: nat, j: nat, x: int, y: int) {
    && |d.buffers| == BUFFERS && d.render < BUFFERS && b < BUFFERS && j < |d.list| && d.list[j].visible
    && b !in d.clean && PixelAt(d.buffers[b], x, y) != Black && !Covers(d.list[j].rect, x, y)
    && forall k :: 0 <= k < |d.list| ==> !(Eligible(d.list[k]) && Covers(d.list[k].rect, x, y))
  }

  lemma WrongGroundStays(d: Device, b: nat, j: nat, frame: int, x: int, y: int)
    requires WrongGround(d, b, j, x, y) && d.render != b && frame != NO_FRAME
    ensures var e := Step(d, Render(j, frame, true));
            WrongGround(e, b, j, x, y) && e.render == (d.render + 1) % BUFFERS
  {
    PassLeavesOthers(WithFrame(d, j, frame), b);
  }

  lemma WrongGroundShows(d: Device, j: nat, frame: int, x: int, y: int)
    requires WrongGround(d, d.render, j, x, y) && frame != NO_FRAME
    ensures var e := Step(d, Render(j, frame, true)); !SamePicture(e.buffers[d.render], Everything(e.list))
  {
    var f := WithFrame(d, j, frame);
    var e := Pass(f, 0, NOTHING_YET);
    var painted := PassPaints(f, f, 0, NOTHING_YET, {});
    GroundStays(f, 0, NOTHING_YET, x, y);
    TopSame(f.list, e.list, |f.list|, x, y);
    TopIsNone(f.list, |f.list|, x, y);
    EverythingShowsTop(e.list, x, y);
    assert PixelAt(e.buffers[d.render], x, y) != PixelAt(Everything(e.list), x, y);
  }

  lemma {:induction false} WrongGroundRun(d: Device, b: nat, j: nat, frame: int, x: int, y: int)
    returns (events: seq<Event>)
    requires WrongGround(d, b, j, x, y) && frame != NO_FRAME
    ensures AllowedRun(d, events) && !AlwaysRepainted(d, events)
    decreases (b + BUFFERS - d.render) % BUFFERS
  {
    var event := Render(j, frame, true);
    if d.render == b {
      WrongGroundShows(d, j, frame, x, y);
      events := [event];
      assert events[1..] == [];
    } else {
      WrongGroundStays(d, b, j, frame, x, y);
      var rest := WrongGroundRun(Step(d, event), b, j, frame, x, y);
      events := [event] + rest;
      assert events[1..] == rest;
    }
  }

  // ---------- A single surface that is not painted yet ----------

  /** Only one surface fits, and it has no frame or is not visible. */
  ghost predicate Alone(d: Device) {
    && |d.list| == 1 && !Room(d) && !Eligible(d.list[0]) && Fresh(d.list[0])
    && |d.buffers| == BUFFERS && d.render < BUFFERS && d.clean <= ALL_BUFFERS
    && (d.list[0].visible ==>
          forall b :: 0 <= b < BUFFERS && b !in d.clean ==>
            forall x: int, y: int :: !Covers(d.list[0].rect, x, y) ==> PixelAt(d.buffers[b], x, y) == Black)
  }

  lemma AloneFramed(d: Device, frame: int)
    requires Alone(d) && frame != NO_FRAME && d.list[0].visible
    ensures Inv(WithFrame(d, 0, frame))
  {
    var f := WithFrame(d, 0, frame);
    forall b | 0 <= b < BUFFERS
      ensures BufferOk(f, b)
    {
      forall x: int, y: int | b !in f.clean
        ensures PointOk(f, b, x, y)
      {
        assert VssRepaint.Top(f.list, 0, x, y) == -1;
        assert !Covers(d.list[0].rect, x, y) ==> PixelAt(d.buffers[b], x, y) == Black;
      }
    }
  }

  lemma AloneConfigured(d: Device, rect: Rect, task: Task, visible: bool, flips: bool)
    requires Alone(d) && Allowed(d, Configure(0, rect, task, visible, flips))
    ensures var e := Step(d, Configure(0, rect, task, visible, flips));
            Inv(e) && SamePicture(e.buffers[d.render], Everything(e.list))
  {
    var list := d.list[0 := d.list[0].(rect := rect, task := task, visible := visible)];
    RefreshAndFlip(d.(list := list, clean := ALL_BUFFERS), flips);
  }

  lemma {:induction false} AloneRepaints(d: Device, events: seq<Event>)
    requires Alone(d) && AllowedRun(d, events)
    ensures AlwaysRepainted(d, events)
    decreases |events|
  {
    if events == [] {
    } else {
      var e := Step(d, events[0]);
      match events[0]
      case Create(_, _) =>
      case Render(i, frame, flips) =>
        if d.list[0].visible {
          AloneFramed(d, frame);
          var f := WithFrame(d, 0, frame);
          PassRepaints(f);
          FlipKeepsInv(Pass(f, 0, NOTHING_YET), flips);
          RunsKeepRepainting(e, events[1..]);
        } else {
          AloneRepaints(e, events[1..]);
        }
      case Configure(i, rect, task, visible, flips) =>
        AloneConfigured(d, rect, task, visible, flips);
        RunsKeepRepainting(e, events[1..]);
      case Relayer(_, _) =>
      case Destroy(i, flips) => RunsRepaint(e, events[1..]);
    }
  }

  // ---------- The exact condition ----------

  lemma WrongContentsShow(d: Device, s: Surface, contents: seq<seq<Op>>) returns (events: seq<Event>)
    requires Empty(d) && |contents| == BUFFERS && InWindow(d, s) && d.resX >= 2 * MIN_EXTENT && d.resY >= MIN_EXTENT
    requires !BlackWhereItMatters(d, s, contents)
    ensures var e := Step(d, Create(s, contents)); AllowedRun(e, events) && !AlwaysRepainted(e, events)
  {
    var e := Step(d, Create(s, contents));
    assert e.list == [s];
    var b :| 0 <= b < BUFFERS && b !in d.clean
             && !forall x: int, y: int :: Matters(d, s, x, y) ==> PixelAt(contents[b], x, y) == Black;
    var x: int, y: int :| Matters(d, s, x, y) && PixelAt(contents[b], x, y) != Black;
    if Eligible(s) || !Room(e) {
      events := WrongGroundRun(e, b, 0, NO_FRAME + 1, x, y);
    } else {
      BesideIsWindow(x, y, d.resX, d.resY);
      var other := Create(Surface(Beside(x), s.task, NO_FRAME, true, {}), contents);
      var two := Step(e, other);
      assert two.list == [s, other.surface];
      var rest := WrongGroundRun(two, b, 1, NO_FRAME + 1, x, y);
      events := [other] + rest;
      assert events[1..] == rest;
    }
  }

  /** When a fresh surface opens a device, all runs are repainted right exactly if the buffers start like this. */
  lemma ContentsExactly(d: Device, s: Surface, contents: seq<seq<Op>>)
    requires Empty(d) && |contents| == BUFFERS && InWindow(d, s) && d.resX >= 2 * MIN_EXTENT && d.resY >= MIN_EXTENT
    requires Fresh(s)
    ensures NeverMissed(Step(d, Create(s, contents))) <==> BlackWhereItMatters(d, s, contents)
  {
    var e := Step(d, Create(s, contents));
    if !BlackWhereItMatters(d, s, contents) {
      var events := WrongContentsShow(d, s, contents);
    } else if Eligible(s) || Room(e) {
      assert Opens(d, s, contents);
      FirstCreateGivesInv(d, s, contents);
      forall events | AllowedRun(e, events)
        ensures AlwaysRepainted(e, events)
      {
        RunsKeepRepainting(e, events);
      }
    } else {
      assert e.list == [s] && Alone(e);
      forall events | AllowedRun(e, events)
        ensures AlwaysRepainted(e, events)
      {
        AloneRepaints(e, events);
      }
    }
  }
}
