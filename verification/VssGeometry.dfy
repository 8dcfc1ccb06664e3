/**
  Rectangles of the video surface service: clipping a window to the screen and cropping the source
  to match (libs/vss/mfw_gst_video_surface.c, libs/vss/mfw_gst_vss_common.h).
*/
module VssGeometry {

  datatype Rect = Rect(left: int, right: int, top: int, bottom: int)

  /** Which parts of a requested window lie off the screen (the VS_*_OUT flags). */
  datatype Outside = Outside(left: bool, right: bool, top: bool, bottom: bool, invisible: bool)

  datatype Crop = Crop(x: int, y: int, w: int, h: int)

  /** What the image processor is told about one surface. */
  datatype Task = Task(crop: Crop, output: Crop, rot: int)

  const ON_SCREEN := Outside(false, false, false, false, false)
  const MIN_EXTENT := 16

  function Width(r: Rect): int { r.right - r.left }
  function Height(r: Rect): int { r.bottom - r.top }

  // Shifts of signed integers round towards minus infinity, as Dafny's / by 8 does.
  function AlignLeft8(v: int): (r: int)
    ensures Aligned(r) && r <= v < r + 8
  {
    v / 8 * 8
  }

  function AlignRight8(v: int): (r: int)
    ensures Aligned(r) && v <= r < v + 8
  {
    (v + 7) / 8 * 8
  }

  function Max(a: int, b: int): int { if a > b then a else b }
  function Min(a: int, b: int): int { if a < b then a else b }

  /** Division as in C, rounding towards zero. */
  function TruncDiv(a: int, b: int): int
    requires b > 0
  {
    if a >= 0 then a / b else -(-a / b)
  }

  predicate Aligned(v: int) { v % 8 == 0 }
  predicate AlignedRect(r: Rect) { Aligned(r.left) && Aligned(r.right) && Aligned(r.top) && Aligned(r.bottom) }

  predicate Inside(r: Rect, s: Rect) {
    s.left <= r.left && r.right <= s.right && s.top <= r.top && r.bottom <= s.bottom
  }

  function Screen(resX: int, resY: int): Rect { Rect(0, resX, 0, resY) }

  // ---------- Clipping to the screen ----------

  function OutsideOf(r: Rect, resX: int, resY: int): Outside {
    if r.right <= 0 || r.left >= resX || r.bottom <= 0 || r.top >= resY then ON_SCREEN.(invisible := true)
    else Outside(r.left < 0, r.right > resX, r.top < 0, r.bottom > resY, false)
  }

  function Adjusted(r: Rect, resX: int, resY: int): Rect {
    if OutsideOf(r, resX, resY).invisible then r
    else Rect(AlignRight8(Max(r.left, 0)), AlignLeft8(Min(r.right, resX)),
              AlignRight8(Max(r.top, 0)), AlignLeft8(Min(r.bottom, resY)))
  }

  /** _adjustDestRect */
  method AdjustDestRect(rect: Rect, resX: int, resY: int) returns (r: Rect, outside: Outside)
    ensures outside == OutsideOf(rect, resX, resY)
    ensures r == Adjusted(rect, resX, resY)
  {
    r, outside := rect, ON_SCREEN;
    if r.right <= 0 || r.left >= resX || r.bottom <= 0 || r.top >= resY {
      outside := outside.(invisible := true);
      return;
    }
    if r.left < 0 {
      outside := outside.(left := true);
      r := r.(left := 0);
    }
    if r.top < 0 {
      outside := outside.(top := true);
      r := r.(top := 0);
    }
    if r.right > resX {
      outside := outside.(right := true);
      r := r.(right := resX);
    }
    if r.bottom > resY {
      outside := outside.(bottom := true);
      r := r.(bottom := resY);
    }
    r := r.(left := AlignRight8(r.left));
    r := r.(top := AlignRight8(r.top));
    r := r.(right := AlignLeft8(r.right));
    r := r.(bottom := AlignLeft8(r.bottom));
  }

  lemma AlignBounds(v: int, a: int)
    requires Aligned(a)
    ensures a <= v <==> a <= AlignLeft8(v)
    ensures v <= a <==> AlignRight8(v) <= a
  {
  }

  /** The adjusted window is the largest 8-aligned rectangle inside both the screen and the request. */
  lemma AdjustedIsLargest(request: Rect, resX: int, resY: int, r: Rect)
    requires !OutsideOf(request, resX, resY).invisible
    ensures AlignedRect(Adjusted(request, resX, resY))
    ensures Inside(Adjusted(request, resX, resY), request)
    ensures Inside(Adjusted(request, resX, resY), Screen(resX, resY))
    ensures AlignedRect(r) ==>
              (Inside(r, request) && Inside(r, Screen(resX, resY)) <==> Inside(r, Adjusted(request, resX, resY)))
  {
    if AlignedRect(r) {
      AlignBounds(Max(request.left, 0), r.left);
      AlignBounds(Min(request.right, resX), r.right);
      AlignBounds(Max(request.top, 0), r.top);
      AlignBounds(Min(request.bottom, resY), r.bottom);
    }
  }

  // ---------- Checking the source ----------

  datatype Source = Source(win: Rect, width: int, height: int)

  /** _checkSource; None stands for its error return. */
  function CheckedSource(s: Source): (r: Source)
    ensures AlignedRect(r.win) && Inside(r.win, s.win) && r.width == s.width && r.height == s.height
    ensures forall w: Rect :: AlignedRect(w) && Inside(w, s.win) ==> Inside(w, r.win)
  {
    s.(win := Rect(AlignRight8(s.win.left), AlignLeft8(s.win.right), AlignRight8(s.win.top), AlignLeft8(s.win.bottom)))
  }

  predicate SourceRejected(s: Source) {
    !Aligned(s.width) || !Aligned(s.height)
  }

  // ---------- Cropping the source to match ----------

  // Rotations 0-3 keep the axes, 4-7 are the quarter turns (Rotation in mfw_gst_video_surface.h).
  const ROTATION_180 := 3

  /** g_vstable: whose cut shifts the crop's x and y; 0 left, 1 right, 2 top, 3 bottom. */
  const TABLE: seq<(int, int)> := [(0, 2), (0, 3), (1, 2), (1, 3), (3, 1), (2, 1), (3, 0), (2, 0)]

  /** The part of `len` that corresponds to `d` out of `extent`, rounded down to a multiple of 8. */
  function Share(d: int, len: int, extent: int): (r: int)
    requires extent > 0
    ensures Aligned(r)
  {
    AlignLeft8(TruncDiv(d * len, extent))
  }

  function XLength(src: Rect, rot: int): int { if rot <= ROTATION_180 then Width(src) else Height(src) }
  function YLength(src: Rect, rot: int): int { if rot <= ROTATION_180 then Height(src) else Width(src) }

  /** How much to cut for each destination edge: left, right, top, bottom. */
  function Cuts(src: Rect, des: Rect, rot: int, resX: int, resY: int): (c: seq<int>)
    requires !OutsideOf(des, resX, resY).invisible
    ensures |c| == 4
    ensures Aligned(c[0]) && Aligned(c[1]) && Aligned(c[2]) && Aligned(c[3])
  {
    var o := OutsideOf(des, resX, resY);
    var x, y := XLength(src, rot), YLength(src, rot);
    [if o.left then Share(0 - des.left, x, Width(des)) else 0,
     if o.right then Share(des.right - resX, x, Width(des)) else 0,
     if o.top then Share(0 - des.top, y, Height(des)) else 0,
     if o.bottom then Share(des.bottom - resY, y, Height(des)) else 0]
  }

  function InputCrop(src: Rect, des: Rect, rot: int, resX: int, resY: int): Crop
    requires 0 <= rot < 8 && !OutsideOf(des, resX, resY).invisible
  {
    var c := Cuts(src, des, rot, resX, resY);
    var across, along := c[0] + c[1], c[2] + c[3];
    Crop(src.left + c[TABLE[rot].0], src.top + c[TABLE[rot].1],
         Width(src) - (if rot <= ROTATION_180 then across else along),
         Height(src) - (if rot <= ROTATION_180 then along else across))
  }

  function OutputCrop(r: Rect): Crop {
    Crop(r.left, r.top, Width(r), Height(r))
  }

  predicate LargeEnough(c: Crop) {
    c.w >= MIN_EXTENT && c.h >= MIN_EXTENT
  }

  /** The IPU task for a surface that is not entirely off the screen; the display area starts at (0, 0). */
  function TaskFor(src: Rect, des: Rect, rot: int, resX: int, resY: int): Task
    requires 0 <= rot < 8 && !OutsideOf(des, resX, resY).invisible
  {
    Task(InputCrop(src, des, rot, resX, resY), OutputCrop(Adjusted(des, resX, resY)), rot)
  }

  predicate Visible(src: Rect, des: Rect, rot: int, resX: int, resY: int)
    requires 0 <= rot < 8
  {
    && !OutsideOf(des, resX, resY).invisible
    && var t := TaskFor(src, des, rot, resX, resY); LargeEnough(t.crop) && LargeEnough(t.output)
  }

  method CutsFor(src: Rect, des: Rect, rot: int, resX: int, resY: int, outside: Outside) returns (xx: seq<int>)
    requires outside == OutsideOf(des, resX, resY) && !outside.invisible
    ensures xx == Cuts(src, des, rot, resX, resY)
  {
    xx := [0, 0, 0, 0];
    var xLen, yLen := Width(src), Height(src);
    if rot > ROTATION_180 {
      xLen, yLen := Height(src), Width(src);
    }
    if outside.left {
      xx := xx[0 := AlignLeft8(TruncDiv((0 - des.left) * xLen, Width(des)))];
    }
    if outside.right {
      xx := xx[1 := AlignLeft8(TruncDiv((des.right - resX) * xLen, Width(des)))];
    }
    if outside.top {
      xx := xx[2 := AlignLeft8(TruncDiv((0 - des.top) * yLen, Height(des)))];
    }
    if outside.bottom {
      xx := xx[3 := AlignLeft8(TruncDiv((des.bottom - resY) * yLen, Height(des)))];
    }
  }

  /** _initVSIPUTask: the new task and whether the surface is visible; a window off the screen keeps the old task. */
  method InitTask(src: Rect, des: Rect, rot: int, resX: int, resY: int, outside: Outside, adjusted: Rect,
                  previous: Task)
    returns (task: Task, visible: bool)
    requires 0 <= rot < 8 && outside == OutsideOf(des, resX, resY) && adjusted == Adjusted(des, resX, resY)
    ensures visible == Visible(src, des, rot, resX, resY)
    ensures task == if outside.invisible then previous else TaskFor(src, des, rot, resX, resY)
  {
    task := previous;
    if outside.invisible {
      return task, false;
    }
    visible := true;
    var crop := Crop(src.left, src.top, Width(src), Height(src));
    if outside != ON_SCREEN {
      var xx := CutsFor(src, des, rot, resX, resY, outside);
      if rot <= ROTATION_180 {
        crop := crop.(w := crop.w - (xx[0] + xx[1]), h := crop.h - (xx[2] + xx[3]));
      } else {
        crop := crop.(w := crop.w - (xx[2] + xx[3]), h := crop.h - (xx[0] + xx[1]));
      }
      crop := crop.(x := crop.x + xx[TABLE[rot].0], y := crop.y + xx[TABLE[rot].1]);
    }
    var output := Crop(adjusted.left, adjusted.top, Width(adjusted), Height(adjusted));
    task := Task(crop, output, rot);
    if crop.w < MIN_EXTENT || crop.h < MIN_EXTENT || output.w < MIN_EXTENT || output.h < MIN_EXTENT {
      visible := false;
    }
  }

  // ---------- What the crop means ----------

  /** Each cut is the exact share of the clipped extent, rounded down to a multiple of 8. */
  lemma ShareIsProportional(d: nat, len: nat, extent: int)
    requires extent > 0
    ensures var s := Share(d, len, extent);
            Aligned(s) && 0 <= s && s * extent <= d * len < (s + 8) * extent
  {
    ProductNonNegative(d, len);
    var q := d * len / extent;
    FloorBounds(d * len, extent);
    var s := AlignLeft8(q);
    MulMonotone(s, q, extent);
    MulMonotone(q + 1, s + 8, extent);
  }

  lemma FloorBounds(p: nat, extent: int)
    requires extent > 0
    ensures 0 <= p / extent && p / extent * extent <= p < (p / extent + 1) * extent
  {
  }

  lemma MulMonotone(a: int, b: int, c: nat)
    requires a <= b
    ensures a * c <= b * c
  {
  }

  lemma FloorsSum(a: nat, b: nat, n: nat, extent: int)
    requires extent > 0 && a + b < extent
    ensures a * n / extent + b * n / extent <= n
    ensures n > 0 ==> a * n / extent + b * n / extent < n
  {
    var s, t := a * n / extent, b * n / extent;
    ProductNonNegative(a, n);
    ProductNonNegative(b, n);
    FloorBounds(a * n, extent);
    FloorBounds(b * n, extent);
    assert (s + t) * extent == s * extent + t * extent;
    assert (a + b) * n == a * n + b * n;
    MulMonotone(a + b, extent - 1, n);
    assert (s + t) * extent <= (extent - 1) * n == n * extent - n;
    if s + t >= n {
      MulMonotone(n, s + t, extent);
    }
  }

  lemma ProductNonNegative(a: nat, b: nat)
    ensures 0 <= a * b
  {
  }

  lemma ShareOfPositive(d: nat, len: nat, extent: int)
    requires extent > 0
    ensures 0 <= Share(d, len, extent) <= d * len / extent
  {
    ProductNonNegative(d, len);
  }

  lemma ShareOfNegative(d: nat, n: nat, extent: int)
    requires extent > 0
    ensures Share(d, 0 - n, extent) >= -(d * n / extent) - 7
  {
    ProductNonNegative(d, n);
    assert d * (0 - n) == -(d * n);
  }

  /** Shares of parts that do not fill the whole extent leave something, unless the length itself is not positive. */
  lemma SharesLeaveRoom(a: nat, b: nat, len: int, extent: int)
    requires extent > 0 && a + b < extent
    ensures len > 0 ==> 0 <= Share(a, len, extent) && 0 <= Share(b, len, extent)
                        && Share(a, len, extent) + Share(b, len, extent) < len
    ensures len <= 0 ==> len - (Share(a, len, extent) + Share(b, len, extent)) < MIN_EXTENT
  {
    if len > 0 {
      FloorsSum(a, b, len, extent);
      ShareOfPositive(a, len, extent);
      ShareOfPositive(b, len, extent);
    } else {
      FloorsSum(a, b, -len, extent);
      ShareOfNegative(a, -len, extent);
      ShareOfNegative(b, -len, extent);
    }
  }

  function Below(lo: int): nat { if lo < 0 then -lo else 0 }
  function Beyond(hi: int, res: int): nat { if hi > res then hi - res else 0 }

  /** What is clipped off both ends is less than the whole, when the clipped window keeps some extent. */
  lemma ClippedPartsLeaveRoom(lo: int, hi: int, res: int)
    requires AlignLeft8(Min(hi, res)) - AlignRight8(Max(lo, 0)) >= MIN_EXTENT
    ensures Below(lo) + Beyond(hi, res) < hi - lo
  {
  }

  lemma ShareOfNothing(len: int, extent: int)
    requires extent > 0
    ensures Share(0, len, extent) == 0
  {
    assert 0 * len == 0;
  }

  /** What the two cuts along one axis come to. */
  lemma CutsLeaveRoom(lo: int, hi: int, res: int, len: int)
    requires Below(lo) + Beyond(hi, res) < hi - lo || Below(lo) + Beyond(hi, res) == 0
    ensures var a := if lo < 0 then Share(0 - lo, len, hi - lo) else 0;
            var b := if hi > res then Share(hi - res, len, hi - lo) else 0;
            && (len > 0 ==> 0 <= a && 0 <= b && a + b < len)
            && (len <= 0 ==> len - (a + b) < MIN_EXTENT)
  {
    if Below(lo) + Beyond(hi, res) > 0 {
      SharesLeaveRoom(Below(lo), Beyond(hi, res), len, hi - lo);
      ShareOfNothing(len, hi - lo);
    }
  }

  /**
    Whatever the source, the window, the screen and the rotation: a surface that counts as visible
    reads a part of its source and writes a part of the screen, both at least 16 by 16.
   */
  lemma VisibleCropInside(src: Rect, des: Rect, rot: int, resX: int, resY: int)
    requires 0 <= rot < 8 && Visible(src, des, rot, resX, resY)
    ensures var c := InputCrop(src, des, rot, resX, resY);
            && c.w >= MIN_EXTENT && c.h >= MIN_EXTENT
            && Inside(Rect(c.x, c.x + c.w, c.y, c.y + c.h), src)
    ensures var r := Adjusted(des, resX, resY);
            && Width(r) >= MIN_EXTENT && Height(r) >= MIN_EXTENT
            && AlignedRect(r) && Inside(r, des) && Inside(r, Screen(resX, resY))
  {
    ClippedPartsLeaveRoom(des.left, des.right, resX);
    ClippedPartsLeaveRoom(des.top, des.bottom, resY);
    CutsLeaveRoom(des.left, des.right, resX, XLength(src, rot));
    CutsLeaveRoom(des.top, des.bottom, resY, YLength(src, rot));
    AdjustedIsLargest(des, resX, resY, Adjusted(des, resX, resY));
  }

  /** On a real screen, the crop is a non-empty part of the source exactly when the source has any extent. */
  lemma CropInsideExactly(src: Rect, des: Rect, rot: int, resX: int, resY: int)
    requires 0 <= rot < 8 && resX > 0 && resY > 0 && !OutsideOf(des, resX, resY).invisible
    ensures var c := InputCrop(src, des, rot, resX, resY);
            c.w > 0 && c.h > 0 && Inside(Rect(c.x, c.x + c.w, c.y, c.y + c.h), src)
            <==> Width(src) > 0 && Height(src) > 0
  {
    CutsLeaveRoom(des.left, des.right, resX, XLength(src, rot));
    CutsLeaveRoom(des.top, des.bottom, resY, YLength(src, rot));
  }

  /** A source window aligned by _checkSource gives an aligned crop. */
  lemma CropKeepsAlignment(src: Rect, des: Rect, rot: int, resX: int, resY: int)
    requires 0 <= rot < 8 && !OutsideOf(des, resX, resY).invisible && AlignedRect(src)
    ensures var c := InputCrop(src, des, rot, resX, resY);
            Aligned(c.x) && Aligned(c.y) && Aligned(c.w) && Aligned(c.h)
  {
    var c := Cuts(src, des, rot, resX, resY);
    AlignedSum(src.left, c[TABLE[rot].0]);
    AlignedSum(src.top, c[TABLE[rot].1]);
    AlignedSum(c[0], c[1]);
    AlignedSum(c[2], c[3]);
    AlignedSum(src.right, src.left);
    AlignedSum(src.bottom, src.top);
    AlignedSum(Width(src), if rot <= ROTATION_180 then c[0] + c[1] else c[2] + c[3]);
    AlignedSum(Height(src), if rot <= ROTATION_180 then c[2] + c[3] else c[0] + c[1]);
  }

  lemma AlignedSum(a: int, b: int)
    requires Aligned(a) && Aligned(b)
    ensures Aligned(a + b) && Aligned(a - b)
  {
  }

  // ---------- Which side of the source is cut ----------

  datatype Edge = Left | Right | Top | Bottom

  function TurnClockwise(e: Edge): Edge {
    match e case Left => Top case Top => Right case Right => Bottom case Bottom => Left
  }
  function FlipVertically(e: Edge): Edge {
    match e case Top => Bottom case Bottom => Top case _ => e
  }
  function FlipHorizontally(e: Edge): Edge {
    match e case Left => Right case Right => Left case _ => e
  }

  /** Where an edge of the source ends up in the window, by the name of the rotation. */
  function Lands(rot: int, e: Edge): Edge
    requires 0 <= rot < 8
  {
    if rot == 0 then e
    else if rot == 1 then FlipVertically(e)
    else if rot == 2 then FlipHorizontally(e)
    else if rot == 3 then FlipHorizontally(FlipVertically(e))
    else if rot == 4 then TurnClockwise(e)
    else if rot == 5 then FlipVertically(TurnClockwise(e))
    else if rot == 6 then FlipHorizontally(TurnClockwise(e))
    else TurnClockwise(TurnClockwise(TurnClockwise(e)))
  }

  function Opposite(e: Edge): Edge {
    match e case Left => Right case Right => Left case Top => Bottom case Bottom => Top
  }

  predicate Sideways(e: Edge) {
    e.Left? || e.Right?
  }

  /** How far the window hangs over an edge of the screen. */
  function Over(des: Rect, resX: int, resY: int, e: Edge): nat {
    match e
    case Left => Below(des.left)
    case Right => Beyond(des.right, resX)
    case Top => Below(des.top)
    case Bottom => Beyond(des.bottom, resY)
  }

  /** How many steps of 8 source pixels correspond to what hangs over one edge of the window; less than 0 count up. */
  function StepsOver(over: nat, len: int, extent: int): int
    requires over > 0 ==> extent > 0
  {
    if over == 0 then 0
    else if len >= 0 then over * len / (8 * extent)
    else -((over * -len / extent + 7) / 8)
  }

  /** The part of a side of the source that corresponds to what hangs over edge e, in whole steps of 8 pixels. */
  function Part(src: Rect, des: Rect, resX: int, resY: int, side: Edge, e: Edge): int
    requires !OutsideOf(des, resX, resY).invisible
  {
    8 * StepsOver(Over(des, resX, resY, e), if Sideways(side) then Width(src) else Height(src),
                  if Sideways(e) then Width(des) else Height(des))
  }

  /** What a crop leaves off one side of the source. */
  function LeftOff(src: Rect, c: Crop, side: Edge): int {
    match side
    case Left => c.x - src.left
    case Right => src.right - (c.x + c.w)
    case Top => c.y - src.top
    case Bottom => src.bottom - (c.y + c.h)
  }

  lemma FloorIs(p: nat, extent: int, q: nat)
    requires extent > 0 && q * extent <= p < (q + 1) * extent
    ensures p / extent == q
  {
    FloorBounds(p, extent);
    var r := p / extent;
    if r > q {
      MulMonotone(q + 1, r, extent);
    } else if r < q {
      MulMonotone(r + 1, q, extent);
    }
  }

  lemma ShareInSteps(d: nat, len: nat, extent: int)
    requires extent > 0
    ensures Share(d, len, extent) == 8 * (d * len / (8 * extent))
  {
    ProductNonNegative(d, len);
    var p := d * len;
    var q := p / extent;
    var steps := q / 8;
    FloorBounds(p, extent);
    assert steps * (8 * extent) <= p < (steps + 1) * (8 * extent) by {
      assert steps * (8 * extent) == 8 * steps * extent;
      assert (steps + 1) * (8 * extent) == (8 * steps + 8) * extent;
      MulMonotone(8 * steps, q, extent);
      MulMonotone(q + 1, 8 * steps + 8, extent);
    }
    FloorIs(p, 8 * extent, steps);
  }

  lemma NegativeShareInSteps(d: nat, n: nat, extent: int)
    requires extent > 0 && d > 0 && n > 0
    ensures Share(d, 0 - n, extent) == -8 * ((d * n / extent + 7) / 8)
  {
    ProductPositive(d, n);
    assert d * (0 - n) == -(d * n);
  }

  lemma ProductPositive(a: nat, b: nat)
    requires a > 0 && b > 0
    ensures a * b > 0
  {
  }

  function CutAt(c: seq<int>, e: Edge): int
    requires |c| == 4
  {
    match e case Left => c[0] case Right => c[1] case Top => c[2] case Bottom => c[3]
  }

  lemma CutInSteps(src: Rect, des: Rect, rot: int, resX: int, resY: int, e: Edge)
    requires 0 <= rot < 8 && !OutsideOf(des, resX, resY).invisible
    ensures CutAt(Cuts(src, des, rot, resX, resY), e)
         == 8 * StepsOver(Over(des, resX, resY, e), if Sideways(e) then XLength(src, rot) else YLength(src, rot),
                          if Sideways(e) then Width(des) else Height(des))
  {
    var over := Over(des, resX, resY, e);
    var len := if Sideways(e) then XLength(src, rot) else YLength(src, rot);
    var extent := if Sideways(e) then Width(des) else Height(des);
    if over > 0 && len >= 0 {
      ShareInSteps(over, len, extent);
    } else if over > 0 {
      NegativeShareInSteps(over, -len, extent);
    }
  }

  /** Which edge's overhang is left off a side: the one it lands on, but for quarter turns the table swaps two sides. */
  function Tabled(rot: int, side: Edge): Edge
    requires 0 <= rot < 8
  {
    if rot > ROTATION_180 && Sideways(side) then Opposite(Lands(rot, side)) else Lands(rot, side)
  }

  lemma CropByCuts(src: Rect, des: Rect, rot: int, resX: int, resY: int, side: Edge)
    requires 0 <= rot < 8 && !OutsideOf(des, resX, resY).invisible
    ensures LeftOff(src, InputCrop(src, des, rot, resX, resY), side)
         == CutAt(Cuts(src, des, rot, resX, resY), Tabled(rot, side))
  {
    var c := Cuts(src, des, rot, resX, resY);
    var edge := Tabled(rot, side);
    if rot <= 1 {
      assert edge == if Sideways(side) || rot == 0 then side else Opposite(side);
    } else if rot <= 3 {
      assert edge == if Sideways(side) || rot == 3 then Opposite(side) else side;
    } else if rot <= 5 {
      assert edge == match side
                     case Left => if rot == 4 then Bottom else Top
                     case Right => if rot == 4 then Top else Bottom
                     case Top => Right
                     case Bottom => Left;
    } else {
      assert edge == match side
                     case Left => if rot == 6 then Bottom else Top
                     case Right => if rot == 6 then Top else Bottom
                     case Top => Left
                     case Bottom => Right;
    }
  }

  /**
    What the crop leaves off each side of the source, for every rotation: the part that corresponds to what hangs over
    the screen at the edge that side lands on; for quarter turns, left and right are exchanged.
   */
  lemma CropLeavesOff(src: Rect, des: Rect, rot: int, resX: int, resY: int, side: Edge)
    requires 0 <= rot < 8 && !OutsideOf(des, resX, resY).invisible
    ensures LeftOff(src, InputCrop(src, des, rot, resX, resY), side)
         == Part(src, des, resX, resY, side, Tabled(rot, side))
  {
    CropByCuts(src, des, rot, resX, resY, side);
    CutInSteps(src, des, rot, resX, resY, Tabled(rot, side));
    assert Sideways(Tabled(rot, side)) <==> (Sideways(side) <==> rot <= ROTATION_180);
  }

  /** The crop leaves off each side of the source what corresponds to the overhang at the edge that side lands on. */
  predicate Faithful(src: Rect, des: Rect, rot: int, resX: int, resY: int)
    requires 0 <= rot < 8 && !OutsideOf(des, resX, resY).invisible
  {
    var c := InputCrop(src, des, rot, resX, resY);
    && LeftOff(src, c, Left) == Part(src, des, resX, resY, Left, Lands(rot, Left))
    && LeftOff(src, c, Right) == Part(src, des, resX, resY, Right, Lands(rot, Right))
    && LeftOff(src, c, Top) == Part(src, des, resX, resY, Top, Lands(rot, Top))
    && LeftOff(src, c, Bottom) == Part(src, des, resX, resY, Bottom, Lands(rot, Bottom))
  }

  /**
    The crop is the faithful one for the rotations that keep the axes.  For the quarter turns the table takes the
    horizontal offset from the opposite edge, so it is right exactly when as much of the window hangs over the top of
    the screen as over its bottom, counted in steps of 8 pixels of the source.
   */
  lemma CropIsFaithful(src: Rect, des: Rect, rot: int, resX: int, resY: int)
    requires 0 <= rot < 8 && !OutsideOf(des, resX, resY).invisible
    ensures Faithful(src, des, rot, resX, resY) <==>
              || rot <= ROTATION_180
              || StepsOver(Below(des.top), Width(src), Height(des))
                 == StepsOver(Beyond(des.bottom, resY), Width(src), Height(des))
  {
    CropLeavesOff(src, des, rot, resX, resY, Left);
    CropLeavesOff(src, des, rot, resX, resY, Right);
    CropLeavesOff(src, des, rot, resX, resY, Top);
    CropLeavesOff(src, des, rot, resX, resY, Bottom);
    if rot > ROTATION_180 {
      assert {Lands(rot, Left), Lands(rot, Right)} == {Top, Bottom};
    }
  }

  function Area(c: Crop): Rect {
    Rect(c.x, c.x + c.w, c.y, c.y + c.h)
  }

  /** What is left of the source is what all four overhangs leave of it. */
  lemma CropExtent(src: Rect, des: Rect, rot: int, resX: int, resY: int)
    requires 0 <= rot < 8 && !OutsideOf(des, resX, resY).invisible
    ensures var c, turned := InputCrop(src, des, rot, resX, resY), rot > ROTATION_180;
            && c.w == Width(src) - Part(src, des, resX, resY, Left, if turned then Top else Left)
                      - Part(src, des, resX, resY, Right, if turned then Bottom else Right)
            && c.h == Height(src) - Part(src, des, resX, resY, Top, if turned then Left else Top)
                      - Part(src, des, resX, resY, Bottom, if turned then Right else Bottom)
  {
    CropLeavesOff(src, des, rot, resX, resY, Left);
    CropLeavesOff(src, des, rot, resX, resY, Right);
    CropLeavesOff(src, des, rot, resX, resY, Top);
    CropLeavesOff(src, des, rot, resX, resY, Bottom);
    var across, along := {Tabled(rot, Left), Tabled(rot, Right)}, {Tabled(rot, Top), Tabled(rot, Bottom)};
    if rot > ROTATION_180 {
      assert across == {Top, Bottom} && along == {Left, Right};
    } else {
      assert across == {Left, Right} && along == {Top, Bottom};
    }
  }

  /**
    A surface is visible exactly if its window reaches into the screen, and both what is left of its source after all
    that corresponds to the overhangs and what is left of the window are at least 16 by 16; that window is written.
   */
  lemma VisibleExactly(src: Rect, des: Rect, rot: int, resX: int, resY: int)
    requires 0 <= rot < 8
    ensures Visible(src, des, rot, resX, resY) <==>
              && des.right > 0 && des.left < resX && des.bottom > 0 && des.top < resY
              && (var turned := rot > ROTATION_180;
                  && Width(src) - Part(src, des, resX, resY, Left, if turned then Top else Left)
                     - Part(src, des, resX, resY, Right, if turned then Bottom else Right) >= 16
                  && Height(src) - Part(src, des, resX, resY, Top, if turned then Left else Top)
                     - Part(src, des, resX, resY, Bottom, if turned then Right else Bottom) >= 16)
              && Width(Adjusted(des, resX, resY)) >= 16 && Height(Adjusted(des, resX, resY)) >= 16
    ensures Visible(src, des, rot, resX, resY) ==>
              Area(TaskFor(src, des, rot, resX, resY).output) == Adjusted(des, resX, resY)
  {
    if !OutsideOf(des, resX, resY).invisible {
      CropExtent(src, des, rot, resX, resY);
    }
  }
}
