/**
  What the surfaces of a device carry over a whole run of calls (libs/vss/mfw_gst_video_surface.c).

  An account is kept of the calls from outside: which surfaces live, in which order they lie, which window and task
  each was given last, and which frame.  The main result: every buffer that is flipped shows what the account says.
*/
module VssFrames {
  import opened VssGeometry
  import opened VssRepaint

  datatype Content = Content(rect: Rect, task: Task, frame: int, visible: bool)

  /** Surfaces are numbered as they are created; `order` lists those that live, from the bottom to the top. */
  datatype Account = Account(order: seq<nat>, created: nat, contents: map<nat, Content>)

  const NOBODY := Account([], 0, map[])

  function ContentOf(s: Surface): Content {
    Content(s.rect, s.task, s.frame, s.visible)
  }

  ghost predicate Sound(a: Account) {
    && (forall k :: 0 <= k < |a.order| ==> a.order[k] in a.contents && a.order[k] < a.created)
    && (forall j, k :: 0 <= j < k < |a.order| ==> a.order[j] != a.order[k])
  }

  predicate Known(a: Account, e: Event) {
    !e.Create? ==> e.i < |a.order|
  }

  function Dropped(order: seq<nat>, i: nat): seq<nat>
    requires i < |order|
  {
    order[..i] + order[i + 1..]
  }

  /** The account after one more call. */
  function Noted(a: Account, e: Event): Account
    requires Sound(a) && Known(a, e)
  {
    match e
    case Create(s, _) => Account(a.order + [a.created], a.created + 1, a.contents[a.created := ContentOf(s)])
    case Render(i, frame, _) =>
      var n := a.order[i];
      a.(contents := a.contents[n := a.contents[n].(frame := frame)])
    case Configure(i, rect, task, visible, _) =>
      var n := a.order[i];
      Account(Dropped(a.order, i) + [n], a.created,
              a.contents[n := a.contents[n].(rect := rect, task := task, visible := visible)])
    case Relayer(i, _) => a.(order := Dropped(a.order, i) + [a.order[i]])
    case Destroy(i, _) => a.(order := Dropped(a.order, i))
  }

  ghost predicate CarriesAt(list: seq<Surface>, a: Account, k: nat)
    requires k < |list| == |a.order|
  {
    a.order[k] in a.contents && ContentOf(list[k]) == a.contents[a.order[k]]
  }

  /** The surfaces of the list carry what the account says, in its order. */
  ghost predicate Carries(list: seq<Surface>, a: Account) {
    |list| == |a.order| && forall k :: 0 <= k < |list| ==> CarriesAt(list, a, k)
  }

  // ---------- Painting leaves the contents alone ----------

  ghost predicate SameContents(a: seq<Surface>, b: seq<Surface>) {
    |a| == |b| && forall k :: 0 <= k < |a| ==> ContentOf(a[k]) == ContentOf(b[k])
  }

  lemma {:induction false} PassKeepsContents(d: Device, i: nat, u: Updated)
    requires d.render < |d.buffers|
    ensures SameContents(d.list, Pass(d, i, u).list)
    decreases |d.list| - i
  {
    if i >= |d.list| {
    } else if NeedRender(d.list[i], u, d.render) {
      PassKeepsContents(RenderSurface(d, i), i + 1, Hull(u, d.list[i].rect));
    } else {
      PassKeepsContents(d, i + 1, u);
    }
  }

  lemma {:induction false} RefreshKeepsContents(d: Device, i: nat)
    requires d.render < |d.buffers|
    ensures SameContents(d.list, RefreshFrom(d, i).list)
    decreases |d.list| - i
  {
    if i >= |d.list| {
    } else {
      var e := RenderSurface(d.(list := d.list[i := d.list[i].(rendered := {})]), i);
      assert SameContents(d.list, e.list);
      RefreshKeepsContents(e, i + 1);
    }
  }

  /** render2VideoSurface gives one surface its frame, and changes nothing else that shows of any surface. */
  lemma RenderGivesFrame(d: Device, i: nat, frame: int, flips: bool)
    requires InRange(d, Render(i, frame, flips))
    ensures var list := Step(d, Render(i, frame, flips)).list;
            && |list| == |d.list| && ContentOf(list[i]) == ContentOf(d.list[i]).(frame := frame)
            && forall k :: 0 <= k < |list| && k != i ==> ContentOf(list[k]) == ContentOf(d.list[k])
  {
    var f := WithFrame(d, i, frame);
    PassKeepsContents(f, 0, NOTHING_YET);
    assert ContentOf(f.list[i]) == ContentOf(d.list[i]).(frame := frame);
  }

  // ---------- Which calls paint ----------

  lemma {:induction false} PassGrows(d: Device, i: nat, u: Updated)
    requires d.render < |d.buffers|
    ensures |Pass(d, i, u).buffers[d.render]| >= |d.buffers[d.render]|
    ensures (exists j :: i <= j < |d.list| && Eligible(d.list[j]) && d.render !in d.list[j].rendered) ==>
              |Pass(d, i, u).buffers[d.render]| > |d.buffers[d.render]|
    decreases |d.list| - i
  {
    if i >= |d.list| {
    } else if NeedRender(d.list[i], u, d.render) {
      PassGrows(RenderSurface(d, i), i + 1, Hull(u, d.list[i].rect));
    } else {
      PassGrows(d, i + 1, u);
    }
  }

  lemma {:induction false} RefreshGrows(d: Device, i: nat)
    requires d.render < |d.buffers|
    ensures |RefreshFrom(d, i).buffers[d.render]| >= |d.buffers[d.render]|
    ensures i < |d.list| ==> |RefreshFrom(d, i).buffers[d.render]| > |d.buffers[d.render]|
    decreases |d.list| - i
  {
    if i >= |d.list| {
    } else {
      RefreshGrows(RenderSurface(d.(list := d.list[i := d.list[i].(rendered := {})]), i), i + 1);
    }
  }

  /** The calls that count as painting are those that put anything into the current buffer. */
  lemma PaintsExactly(d: Device, e: Event)
    requires InRange(d, e) && !e.Create? && (e.Render? ==> e.frame != NO_FRAME)
    ensures Paints(d, e) <==> |Step(d, e).buffers[d.render]| > |d.buffers[d.render]|
    ensures !Paints(d, e) ==> Step(d, e).buffers == d.buffers && Step(d, e).render == d.render
  {
    match e
    case Render(i, frame, _) =>
      var f := WithFrame(d, i, frame);
      PassGrows(f, 0, NOTHING_YET);
      assert d.list[i].visible ==> Eligible(f.list[i]) && f.render !in f.list[i].rendered;
    case Configure(i, rect, task, visible, _) =>
      var list := d.list[i := d.list[i].(rect := rect, task := task, visible := visible)];
      RefreshGrows(d.(list := if i < |list| - 1 then MovedLast(list, i) else list, clean := ALL_BUFFERS), 0);
    case Relayer(i, _) => RefreshGrows(d.(list := MovedLast(d.list, i)), 0);
    case Destroy(i, _) => RefreshGrows(d.(list := Without(d.list, i), clean := ALL_BUFFERS), 0);
  }

  // ---------- Every call ----------

  lemma DroppedIsSound(a: Account, i: nat)
    requires Sound(a) && i < |a.order|
    ensures Sound(a.(order := Dropped(a.order, i))) && a.order[i] !in Dropped(a.order, i)
  {
    var rest := Dropped(a.order, i);
    forall k | 0 <= k < |rest| ensures rest[k] == a.order[if k < i then k else k + 1] {
    }
  }

  lemma RaisedIsSound(a: Account, i: nat)
    requires Sound(a) && i < |a.order|
    ensures Sound(a.(order := Dropped(a.order, i) + [a.order[i]]))
  {
    DroppedIsSound(a, i);
  }

  lemma NotedIsSound(a: Account, e: Event)
    requires Sound(a) && Known(a, e)
    ensures Sound(Noted(a, e))
  {
    match e
    case Create(_, _) =>
    case Render(_, _, _) =>
    case Configure(i, _, _, _, _) => RaisedIsSound(a, i);
    case Relayer(i, _) => RaisedIsSound(a, i);
    case Destroy(i, _) => DroppedIsSound(a, i);
  }

  lemma SameCarries(a: seq<Surface>, b: seq<Surface>, c: Account)
    requires SameContents(a, b) && Carries(a, c)
    ensures Carries(b, c)
  {
    forall k | 0 <= k < |b| ensures CarriesAt(b, c, k) {
      assert CarriesAt(a, c, k);
    }
  }

  /** A surface taken out of the list, in the list and in the account. */
  lemma DroppedCarries(list: seq<Surface>, a: Account, i: nat)
    requires Carries(list, a) && i < |list|
    ensures Carries(Without(list, i), a.(order := Dropped(a.order, i)))
  {
    var rest, b := Without(list, i), a.(order := Dropped(a.order, i));
    forall k | 0 <= k < |rest| ensures CarriesAt(rest, b, k) {
      assert CarriesAt(list, a, if k < i then k else k + 1);
    }
  }

  lemma RaisedCarries(list: seq<Surface>, a: Account, i: nat)
    requires Carries(list, a) && i < |list|
    ensures Carries(if i < |list| - 1 then MovedLast(list, i) else list,
                    a.(order := Dropped(a.order, i) + [a.order[i]]))
  {
    var rest, order := Without(list, i), Dropped(a.order, i);
    var raised, b := rest + [list[i]], a.(order := order + [a.order[i]]);
    DroppedCarries(list, a, i);
    forall k | 0 <= k < |raised| ensures CarriesAt(raised, b, k) {
      if k < |rest| {
        assert CarriesAt(rest, a.(order := order), k);
      } else {
        assert CarriesAt(list, a, i);
      }
    }
    if i == |list| - 1 {
      assert raised == list;
    }
  }

  lemma ChangedCarries(list: seq<Surface>, a: Account, i: nat, s: Surface)
    requires Sound(a) && Carries(list, a) && i < |list|
    ensures Carries(list[i := s], a.(contents := a.contents[a.order[i] := ContentOf(s)]))
  {
    var changed, b := list[i := s], a.(contents := a.contents[a.order[i] := ContentOf(s)]);
    forall k | 0 <= k < |changed| ensures CarriesAt(changed, b, k) {
      assert CarriesAt(list, a, k);
    }
  }

  lemma CreateCarries(d: Device, a: Account, s: Surface, contents: seq<seq<Op>>)
    requires Sound(a) && Carries(d.list, a) && InRange(d, Create(s, contents))
    ensures Carries(Step(d, Create(s, contents)).list, Noted(a, Create(s, contents)))
  {
    var list, b := d.list + [s], Noted(a, Create(s, contents));
    forall k | 0 <= k < |list| ensures CarriesAt(list, b, k) {
      assert k < |d.list| ==> CarriesAt(d.list, a, k);
    }
  }

  lemma RenderCarries(d: Device, a: Account, i: nat, frame: int, flips: bool)
    requires Sound(a) && Carries(d.list, a) && InRange(d, Render(i, frame, flips))
    ensures Carries(Step(d, Render(i, frame, flips)).list, Noted(a, Render(i, frame, flips)))
  {
    var b := Noted(a, Render(i, frame, flips));
    RenderGivesFrame(d, i, frame, flips);
    var list := Step(d, Render(i, frame, flips)).list;
    forall k | 0 <= k < |list| ensures CarriesAt(list, b, k) {
      assert CarriesAt(d.list, a, k);
    }
  }

  lemma RefreshCarries(d: Device, a: Account, flips: bool)
    requires d.render < |d.buffers| && Carries(d.list, a)
    ensures Carries(Flip(RefreshFrom(d, 0), flips).list, a)
  {
    RefreshKeepsContents(d, 0);
    SameCarries(d.list, RefreshFrom(d, 0).list, a);
  }

  /** Whatever the call, the list carries what the account says of it; no call is excluded. */
  lemma StepCarries(d: Device, a: Account, e: Event)
    requires Sound(a) && Carries(d.list, a) && InRange(d, e)
    ensures Carries(Step(d, e).list, Noted(a, e)) && Sound(Noted(a, e))
  {
    NotedIsSound(a, e);
    match e
    case Create(s, contents) => CreateCarries(d, a, s, contents);
    case Render(i, frame, flips) => RenderCarries(d, a, i, frame, flips);
    case Configure(i, rect, task, visible, flips) =>
      var s := d.list[i].(rect := rect, task := task, visible := visible);
      var list, b := d.list[i := s], a.(contents := a.contents[a.order[i] := ContentOf(s)]);
      assert CarriesAt(d.list, a, i);
      ChangedCarries(d.list, a, i, s);
      RaisedCarries(list, b, i);
      var moved := if i < |list| - 1 then MovedLast(list, i) else list;
      RefreshCarries(d.(list := moved, clean := ALL_BUFFERS), Noted(a, e), flips);
    case Relayer(i, flips) =>
      RaisedCarries(d.list, a, i);
      if i < |d.list| - 1 {
        RefreshCarries(d.(list := MovedLast(d.list, i)), Noted(a, e), flips);
      }
    case Destroy(i, flips) =>
      DroppedCarries(d.list, a, i);
      if |d.list| > 1 {
        RefreshCarries(d.(list := Without(d.list, i), clean := ALL_BUFFERS), Noted(a, e), flips);
      }
  }

  // ---------- Whole runs ----------

  ghost predicate PossibleRun(d: Device, events: seq<Event>)
    decreases |events|
  {
    events != [] ==> InRange(d, events[0]) && PossibleRun(Step(d, events[0]), events[1..])
  }

  function After(d: Device, events: seq<Event>): Device
    requires PossibleRun(d, events)
    decreases |events|
  {
    if events == [] then d else After(Step(d, events[0]), events[1..])
  }

  ghost function NotedAll(d: Device, a: Account, events: seq<Event>): Account
    requires PossibleRun(d, events) && Sound(a) && Carries(d.list, a)
    decreases |events|
  {
    if events == [] then a
    else
      StepCarries(d, a, events[0]);
      NotedAll(Step(d, events[0]), Noted(a, events[0]), events[1..])
  }

  /**
    After every run, each surface on the device carries the frame of the last render call for it, or else the one it
    was created with, and the window it was given last; and they lie in the order in which they were last raised.
   */
  lemma {:induction false} RunsCarry(d: Device, a: Account, events: seq<Event>)
    requires PossibleRun(d, events) && Sound(a) && Carries(d.list, a)
    ensures Carries(After(d, events).list, NotedAll(d, a, events)) && Sound(NotedAll(d, a, events))
    decreases |events|
  {
    if events == [] {
    } else {
      StepCarries(d, a, events[0]);
      RunsCarry(Step(d, events[0]), Noted(a, events[0]), events[1..]);
    }
  }

  /** Painting what the account says, from a clear background. */
  function Painted(a: Account, n: nat): seq<Op>
    requires n <= |a.order| && forall k :: 0 <= k < |a.order| ==> a.order[k] in a.contents
  {
    if n == 0 then [Clear]
    else
      var c := a.contents[a.order[n - 1]];
      Painted(a, n - 1) + if c.frame != NO_FRAME && c.visible then [Paint(c.rect, c.task, c.frame)] else []
  }

  lemma {:induction false} EverythingIsPainted(list: seq<Surface>, a: Account, n: nat)
    requires Sound(a) && Carries(list, a) && n <= |list|
    ensures Everything(list[..n]) == Painted(a, n)
  {
    if n == 0 {
    } else {
      EverythingIsPainted(list, a, n - 1);
      assert CarriesAt(list, a, n - 1);
      assert list[..n][..n - 1] == list[..n - 1];
    }
  }

  /** Each time a buffer is flipped, it shows what the account of all calls up to this one says. */
  ghost predicate AlwaysShowsLatest(d: Device, a: Account, events: seq<Event>)
    requires AllowedRun(d, events) && Sound(a) && Carries(d.list, a)
    decreases |events|
  {
    events != [] ==>
      var e, b := Step(d, events[0]), Noted(a, events[0]);
      && Sound(b) && Carries(e.list, b)
      && (Paints(d, events[0]) ==> SamePicture(e.buffers[d.render], Painted(b, |b.order|)))
      && AlwaysShowsLatest(e, b, events[1..])
  }

  lemma {:induction false} RepaintedShowsLatest(d: Device, a: Account, events: seq<Event>)
    requires AllowedRun(d, events) && Sound(a) && Carries(d.list, a) && AlwaysRepainted(d, events)
    ensures AlwaysShowsLatest(d, a, events)
    decreases |events|
  {
    if events == [] {
    } else {
      var e, b := Step(d, events[0]), Noted(a, events[0]);
      StepCarries(d, a, events[0]);
      assert e.list[..|e.list|] == e.list;
      EverythingIsPainted(e.list, b, |e.list|);
      RepaintedShowsLatest(e, b, events[1..]);
    }
  }

  /** In every allowed run from an empty device, each buffer flipped shows every surface's latest frame and window. */
  lemma RunsShowLatest(d: Device, events: seq<Event>)
    requires Empty(d) && AllowedRun(d, events)
    ensures AlwaysShowsLatest(d, NOBODY, events)
  {
    RunsRepaint(d, events);
    RepaintedShowsLatest(d, NOBODY, events);
  }
}
