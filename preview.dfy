/**
  The preview canvas: where the final output frame of the active scene lies over the source
  video, the move and scale drags that edit that frame, the corner-handle hit test, the letterbox
  used when no scene is active, and the per-frame step that in final-result mode skips the gaps
  between scenes. The crop canvas's mouse coordinates are taken as already converted to canvas
  pixels.
 */
module Preview {
  import opened Wrappers
  import opened EditorStore
  import Utils

  /** A resolution such as `1080x1920`, as the two numbers it names. */
  datatype Resolution = Resolution(width: real, height: real)

  predicate Positive(r: Resolution) {
    r.width > 0.0 && r.height > 0.0
  }

  datatype Rect = Rect(x: real, y: real, width: real, height: real)

  function Center(r: Rect): Point {
    Point(r.x + r.width / 2.0, r.y + r.height / 2.0)
  }

  function Abs(x: real): real {
    if x < 0.0 then -x else x
  }

  function Max(a: real, b: real): real {
    if a >= b then a else b
  }

  // ---------------------------------------------------------------------------------------
  // Placement of the scene in the output frame

  /** Where the output canvas draws the point at horizontal crop coordinate `u`: translated by
      the position mapped from the virtual canvas to the output resolution, then scaled. */
  function DrawnX(scale: real, position: Point, res: Resolution, vres: Resolution, u: real): real
    requires Positive(vres)
  {
    position.x / vres.width * res.width + scale * u
  }

  function DrawnY(scale: real, position: Point, res: Resolution, vres: Resolution, v: real): real
    requires Positive(vres)
  {
    position.y / vres.height * res.height + scale * v
  }

  /** The extent, in crop coordinates, of an output side `t` pixels long at scale `k`. */
  function SizeAt(t: real, k: real): (size: real)
    requires k != 0.0
    ensures t != 0.0 ==> size != 0.0
  {
    t / k
  }

  /** The crop coordinate drawn at output pixel 0 along one axis, for a position `p` on a
      virtual side `v` mapped to an output side `t` at scale `k`. */
  function OriginOf(p: real, k: real, t: real, v: real): real
    requires k != 0.0 && v > 0.0
  {
    -((p * t) / (v * k))
  }

  /** The scale at which an output side `t` pixels long shows `size` crop units: the inverse of
      `SizeAt`. */
  function ScaleFor(t: real, size: real): (k: real)
    requires t > 0.0 && size != 0.0
    ensures k != 0.0 && SizeAt(t, k) == size
  {
    assert (t / size) * size == t;
    t / size
  }

  /** The position that puts crop coordinate `x` at output pixel 0: the inverse of
      `OriginOf`. */
  function PositionFor(x: real, k: real, t: real, v: real): (p: real)
    requires k != 0.0 && t > 0.0 && v > 0.0
    ensures OriginOf(p, k, t, v) == x
  {
    assert -(x * (v * k)) / t * t == -(x * (v * k));
    assert (x * (v * k)) / (v * k) == x;
    -(x * (v * k)) / t
  }

  /** The region of the source video (in crop coordinates) that ends up in the output frame,
      for a scene's scale and position. `None` stands for scale 0, where the source divides by
      zero and gets infinite or NaN coordinates. */
  function FinalOutputRect(scale: real, position: Point, res: Resolution, vres: Resolution): (r: Option<Rect>)
    requires Positive(res) && Positive(vres)
    ensures r.None? <==> scale == 0.0
  {
    if scale == 0.0 then None
    else
      Some(Rect(OriginOf(position.x, scale, res.width, vres.width),
                OriginOf(position.y, scale, res.height, vres.height),
                SizeAt(res.width, scale), SizeAt(res.height, scale)))
  }

  lemma AxisEdges(k: real, p: real, t: real, v: real)
    requires k != 0.0 && v > 0.0
    ensures p / v * t + k * OriginOf(p, k, t, v) == 0.0
    ensures p / v * t + k * (OriginOf(p, k, t, v) + SizeAt(t, k)) == t
  {
    calc {
      k * -((p * t) / (v * k));
      -((k * (p * t)) / (v * k));
      -((p * t) / v);
    }
    assert p / v * t == (p * t) / v;
    assert k * (t / k) == t;
  }

  /** The rectangle is exactly what the output canvas shows: its left and right edges are drawn
      at 0 and at the output width, its top and bottom edges at 0 and at the output height. */
  lemma FinalRectIsOutputFrame(scale: real, position: Point, res: Resolution, vres: Resolution)
    requires Positive(res) && Positive(vres) && scale != 0.0
    ensures var r := FinalOutputRect(scale, position, res, vres).value;
      && DrawnX(scale, position, res, vres, r.x) == 0.0
      && DrawnX(scale, position, res, vres, r.x + r.width) == res.width
      && DrawnY(scale, position, res, vres, r.y) == 0.0
      && DrawnY(scale, position, res, vres, r.y + r.height) == res.height
  {
    AxisEdges(scale, position.x, res.width, vres.width);
    AxisEdges(scale, position.y, res.height, vres.height);
  }

  /** The preview places a scene by the same mapping as the exported filter graph: the overlay
      offset ffmpeg receives is the preview's translation, rounded down. */
  lemma PreviewMatchesExport(position: Point, tw: int, th: int, vw: int, vh: int)
    requires tw > 0 && th > 0 && vw > 0 && vh > 0
    ensures var res := Resolution(tw as real, th as real);
      var vres := Resolution(vw as real, vh as real);
      && Utils.Offset(position.x, vw, tw) == DrawnX(1.0, position, res, vres, 0.0).Floor
      && Utils.Offset(position.y, vh, th) == DrawnY(1.0, position, res, vres, 0.0).Floor
  {
  }

  // ---------------------------------------------------------------------------------------
  // Drags

  /** What a mouse-down records about the scene for the rest of the drag. */
  datatype DragSnapshot = DragSnapshot(
    scale: real, position: Point, finalRect: Rect, center: Point,
    res: Resolution, vres: Resolution)

  /** A snapshot taken of a scene whose scale is not 0, at the controller's resolutions. */
  predicate ValidSnapshot(init: DragSnapshot, res: Resolution, vres: Resolution) {
    && Positive(res) && Positive(vres)
    && init.res == res && init.vres == vres
    && FinalOutputRect(init.scale, init.position, res, vres) == Some(init.finalRect)
    && init.center == Center(init.finalRect)
  }

  function Snapshot(s: Scene, res: Resolution, vres: Resolution): (init: DragSnapshot)
    requires Positive(res) && Positive(vres) && s.scale != 0.0
    ensures ValidSnapshot(init, res, vres)
  {
    var rect := FinalOutputRect(s.scale, s.position, res, vres).value;
    DragSnapshot(s.scale, s.position, rect, Center(rect), res, vres)
  }

  /** The new position of a move drag by (dx, dy) from its start: the frame's new top-left
      corner is the dragged centre minus half the frame, mapped back to a position. */
  function MovePosition(init: DragSnapshot, dx: real, dy: real): Point
    requires init.scale != 0.0 && Positive(init.res) && Positive(init.vres)
  {
    var newCenterX := init.center.x + dx;
    var newCenterY := init.center.y + dy;
    var finalW := SizeAt(init.res.width, init.scale);
    var finalH := SizeAt(init.res.height, init.scale);
    Point(PositionFor(newCenterX - finalW / 2.0, init.scale, init.res.width, init.vres.width),
          PositionFor(newCenterY - finalH / 2.0, init.scale, init.res.height, init.vres.height))
  }

  /** A move drag translates the output frame over the video by exactly the mouse offset and
      keeps its size. */
  lemma MoveTranslatesRect(init: DragSnapshot, res: Resolution, vres: Resolution, dx: real, dy: real)
    requires ValidSnapshot(init, res, vres) && init.scale != 0.0
    ensures var moved := FinalOutputRect(init.scale, MovePosition(init, dx, dy), res, vres);
      && moved.Some?
      && moved.value.width == init.finalRect.width
      && moved.value.height == init.finalRect.height
      && Center(moved.value) == Point(init.center.x + dx, init.center.y + dy)
  {
  }

  datatype Corner = TopLeft | TopRight | BottomLeft | BottomRight

  /** The handle's name contains `left`. */
  predicate IsLeft(c: Corner) {
    c == TopLeft || c == BottomLeft
  }

  /** The handle's name contains `top`. */
  predicate IsTop(c: Corner) {
    c == TopLeft || c == TopRight
  }

  function CornerOf(r: Rect, c: Corner): Point {
    Point(if IsLeft(c) then r.x else r.x + r.width, if IsTop(c) then r.y else r.y + r.height)
  }

  /** The uniform factor of a scale drag: the larger of the two ratios between the dragged
      corner's new distance from the centre and the half size at the start. */
  function ScaleFactor(init: DragSnapshot, c: Corner, dx: real, dy: real): real
    requires init.finalRect.width != 0.0 && init.finalRect.height != 0.0
  {
    var corner := CornerOf(init.finalRect, c);
    var newHalfWidth := Abs(corner.x + dx - init.center.x);
    var newHalfHeight := Abs(corner.y + dy - init.center.y);
    Max(newHalfWidth / (init.finalRect.width / 2.0), newHalfHeight / (init.finalRect.height / 2.0))
  }

  /** The patch that resizes the output frame by `f` about the snapshot's centre: the scale
      that shows `f` times the frame's width, and the position that keeps the centre. */
  function ResizedPatch(init: DragSnapshot, f: real): ScenePatch
    requires Positive(init.res) && Positive(init.vres)
    requires init.finalRect.width != 0.0 && f != 0.0
  {
    var newW := init.finalRect.width * f;
    var newH := init.finalRect.height * f;
    var newScale := ScaleFor(init.res.width, newW);
    var finalXNew := init.center.x - newW / 2.0;
    var finalYNew := init.center.y - newH / 2.0;
    ScenePatch(None, None, None, Some(newScale),
      Some(Point(PositionFor(finalXNew, newScale, init.res.width, init.vres.width),
                 PositionFor(finalYNew, newScale, init.res.height, init.vres.height))))
  }

  /** The new scale and position of a scale drag; `None` when the factor is 0, where the
      source would store an infinite scale. */
  function ScalePatch(init: DragSnapshot, c: Corner, dx: real, dy: real): Option<ScenePatch>
    requires Positive(init.res) && Positive(init.vres)
    requires init.finalRect.width != 0.0 && init.finalRect.height != 0.0
  {
    var f := ScaleFactor(init, c, dx, dy);
    if f == 0.0 then None else Some(ResizedPatch(init, f))
  }

  /** A scale chosen for the width shows the height in the same proportion. */
  lemma SameProportion(tw: real, th: real, s: real, w: real, h: real, f: real)
    requires tw > 0.0 && th > 0.0 && s != 0.0 && f != 0.0
    requires w == SizeAt(tw, s) && h == SizeAt(th, s)
    ensures SizeAt(th, ScaleFor(tw, w * f)) == h * f
  {
    var k := ScaleFor(tw, w * f);
    assert k == s / f by {
      assert (tw / s * f) * (s / f) == tw;
    }
    assert (th / s * f) * (s / f) == th;
  }

  /** The rectangle `r` resized by `f` about its centre. */
  function ResizedAbout(r: Rect, f: real): (q: Rect)
    ensures q.width == r.width * f && q.height == r.height * f && Center(q) == Center(r)
  {
    Rect(r.x + r.width / 2.0 - r.width * f / 2.0, r.y + r.height / 2.0 - r.height * f / 2.0,
         r.width * f, r.height * f)
  }

  lemma ResizedPatchParts(init: DragSnapshot, f: real)
    requires Positive(init.res) && Positive(init.vres) && init.finalRect.width != 0.0 && f != 0.0
    ensures ResizedPatch(init, f).start.None? && ResizedPatch(init, f).end.None?
    ensures ResizedPatch(init, f).crop.None? && ResizedPatch(init, f).position.Some?
    ensures ResizedPatch(init, f).scale.Some?
    ensures ResizedPatch(init, f).scale.value == ScaleFor(init.res.width, init.finalRect.width * f)
    ensures ResizedPatch(init, f).position.value.x ==
      PositionFor(init.center.x - init.finalRect.width * f / 2.0,
                  ScaleFor(init.res.width, init.finalRect.width * f), init.res.width, init.vres.width)
    ensures ResizedPatch(init, f).position.value.y ==
      PositionFor(init.center.y - init.finalRect.height * f / 2.0,
                  ScaleFor(init.res.width, init.finalRect.width * f), init.res.height, init.vres.height)
  {
  }

  /** The resize of a frame whose sides are the output's at the snapshot's scale. */
  lemma ResizedFrame(init: DragSnapshot, f: real)
    requires Positive(init.res) && Positive(init.vres) && init.scale != 0.0 && f != 0.0
    requires init.finalRect.width == SizeAt(init.res.width, init.scale)
    requires init.finalRect.height == SizeAt(init.res.height, init.scale)
    requires init.center == Center(init.finalRect)
    ensures ResizedPatch(init, f).scale.Some? && ResizedPatch(init, f).position.Some?
    ensures FinalOutputRect(ResizedPatch(init, f).scale.value, ResizedPatch(init, f).position.value,
                            init.res, init.vres).Some?
    ensures FinalOutputRect(ResizedPatch(init, f).scale.value, ResizedPatch(init, f).position.value,
                            init.res, init.vres).value
         == ResizedAbout(init.finalRect, f)
  {
    ResizedPatchParts(init, f);
    SameProportion(init.res.width, init.res.height, init.scale, init.finalRect.width, init.finalRect.height, f);
    assert ResizedAbout(init.finalRect, f).x == init.center.x - init.finalRect.width * f / 2.0;
    assert ResizedAbout(init.finalRect, f).y == init.center.y - init.finalRect.height * f / 2.0;
  }

  /** Resizing by `f` gives the frame resized by `f` about its centre, so the aspect ratio and
      the centre are kept; only scale and position are written. */
  lemma ResizeKeepsCenter(init: DragSnapshot, res: Resolution, vres: Resolution, f: real)
    requires ValidSnapshot(init, res, vres) && init.scale != 0.0 && f != 0.0
    ensures ResizedPatch(init, f).start.None? && ResizedPatch(init, f).end.None?
    ensures ResizedPatch(init, f).crop.None?
    ensures ResizedPatch(init, f).scale.Some? && ResizedPatch(init, f).position.Some?
    ensures FinalOutputRect(ResizedPatch(init, f).scale.value, ResizedPatch(init, f).position.value,
                            res, vres).Some?
    ensures FinalOutputRect(ResizedPatch(init, f).scale.value, ResizedPatch(init, f).position.value,
                            res, vres).value
         == ResizedAbout(init.finalRect, f)
  {
    ResizedPatchParts(init, f);
    assert init.finalRect.width == SizeAt(res.width, init.scale);
    assert init.finalRect.height == SizeAt(res.height, init.scale);
    ResizedFrame(init, f);
  }

  /** A scale drag whose factor is not 0 resizes the frame by that factor about its centre. */
  lemma ScaleKeepsCenter(init: DragSnapshot, res: Resolution, vres: Resolution, c: Corner, dx: real, dy: real)
    requires ValidSnapshot(init, res, vres) && init.scale != 0.0
    ensures ScalePatch(init, c, dx, dy).None? <==> ScaleFactor(init, c, dx, dy) == 0.0
    ensures ScalePatch(init, c, dx, dy).Some? ==>
      && FinalOutputRect(ScalePatch(init, c, dx, dy).value.scale.value,
                         ScalePatch(init, c, dx, dy).value.position.value, res, vres).Some?
      && FinalOutputRect(ScalePatch(init, c, dx, dy).value.scale.value,
                         ScalePatch(init, c, dx, dy).value.position.value, res, vres).value
         == ResizedAbout(init.finalRect, ScaleFactor(init, c, dx, dy))
  {
    if ScaleFactor(init, c, dx, dy) != 0.0 {
      ResizeKeepsCenter(init, res, vres, ScaleFactor(init, c, dx, dy));
    }
  }

  lemma MaxRatio(a: real, b: real, w: real, h: real)
    requires a >= 0.0 && b >= 0.0 && w > 0.0 && h > 0.0
    ensures var f := Max(a / (w / 2.0), b / (h / 2.0));
      && f >= 0.0 && a <= w * f / 2.0 && b <= h * f / 2.0
      && (a == w * f / 2.0 || b == h * f / 2.0)
  {
    var fw := a / (w / 2.0);
    var fh := b / (h / 2.0);
    assert w * fw / 2.0 == a;
    assert h * fh / 2.0 == b;
    if fw >= fh {
      assert h * fw / 2.0 >= h * fh / 2.0;
    } else {
      assert w * fh / 2.0 >= w * fw / 2.0;
    }
  }

  /** With a positive scale the frame has a positive size. */
  lemma PositiveSides(init: DragSnapshot, res: Resolution, vres: Resolution)
    requires ValidSnapshot(init, res, vres) && init.scale > 0.0
    ensures init.finalRect.width > 0.0 && init.finalRect.height > 0.0
  {
    assert res.width / init.scale > 0.0;
    assert res.height / init.scale > 0.0;
  }

  /** When the frame has a positive size (as it does for a positive scale, `PositiveSides`), the
      factor is the smallest that keeps the dragged corner inside the new frame: on at least one
      axis the corner lies on the frame's edge. */
  lemma ScaleFactorReachesCorner(init: DragSnapshot, c: Corner, dx: real, dy: real)
    requires init.finalRect.width > 0.0 && init.finalRect.height > 0.0
    ensures var f := ScaleFactor(init, c, dx, dy);
      var corner := CornerOf(init.finalRect, c);
      var halfW := init.finalRect.width * f / 2.0;
      var halfH := init.finalRect.height * f / 2.0;
      && f >= 0.0
      && Abs(corner.x + dx - init.center.x) <= halfW
      && Abs(corner.y + dy - init.center.y) <= halfH
      && (Abs(corner.x + dx - init.center.x) == halfW || Abs(corner.y + dy - init.center.y) == halfH)
  {
    var corner := CornerOf(init.finalRect, c);
    MaxRatio(Abs(corner.x + dx - init.center.x), Abs(corner.y + dy - init.center.y),
             init.finalRect.width, init.finalRect.height);
  }

  // ---------------------------------------------------------------------------------------
  // Corner handles

  datatype Handle = Handle(corner: Corner, x: real, y: real)

  /** Side of the square drawn around each corner. */
  const HandleSize: real := 10.0

  /** The four handles, in the order they are tested. */
  function Handles(r: Rect): seq<Handle> {
    [Handle(TopLeft, r.x, r.y), Handle(TopRight, r.x + r.width, r.y),
     Handle(BottomLeft, r.x, r.y + r.height), Handle(BottomRight, r.x + r.width, r.y + r.height)]
  }

  /** The point lies in the handle's square, borders included. */
  predicate OnHandle(mx: real, my: real, h: Handle) {
    && h.x - HandleSize / 2.0 <= mx <= h.x + HandleSize / 2.0
    && h.y - HandleSize / 2.0 <= my <= h.y + HandleSize / 2.0
  }

  /** The corner of the first handle in `hs` under the point. */
  function FirstHit(hs: seq<Handle>, mx: real, my: real): Option<Corner> {
    if hs == [] then None
    else if OnHandle(mx, my, hs[0]) then Some(hs[0].corner)
    else FirstHit(hs[1..], mx, my)
  }

  lemma {:induction false} FirstHitSpec(hs: seq<Handle>, mx: real, my: real)
    ensures FirstHit(hs, mx, my).None? <==> forall i :: 0 <= i < |hs| ==> !OnHandle(mx, my, hs[i])
    ensures FirstHit(hs, mx, my).Some? ==>
      exists i :: 0 <= i < |hs| && OnHandle(mx, my, hs[i]) && hs[i].corner == FirstHit(hs, mx, my).value
        && forall j :: 0 <= j < i ==> !OnHandle(mx, my, hs[j])
  {
    if hs != [] && !OnHandle(mx, my, hs[0]) {
      FirstHitSpec(hs[1..], mx, my);
      if FirstHit(hs[1..], mx, my).Some? {
        var i :| 0 <= i < |hs[1..]| && OnHandle(mx, my, hs[1..][i])
          && hs[1..][i].corner == FirstHit(hs[1..], mx, my).value
          && forall j :: 0 <= j < i ==> !OnHandle(mx, my, hs[1..][j]);
        assert forall j :: 0 <= j < i + 1 ==> !OnHandle(mx, my, hs[j]) by {
          forall j | 0 <= j < i + 1 ensures !OnHandle(mx, my, hs[j]) {
            if j > 0 {
              assert hs[j] == hs[1..][j - 1];
            }
          }
        }
        assert hs[i + 1] == hs[1..][i];
      } else {
        forall i | 0 <= i < |hs| ensures !OnHandle(mx, my, hs[i]) {
          if i > 0 {
            assert hs[i] == hs[1..][i - 1];
          }
        }
      }
    }
  }

  /** Tests the four corner handles in order and names the first one under the point. */
  method HitTestCornerHandles(mx: real, my: real, rect: Rect) returns (corner: Option<Corner>)
    ensures corner == FirstHit(Handles(rect), mx, my)
  {
    var handles := Handles(rect);
    var i := 0;
    while i < |handles|
      invariant 0 <= i <= |handles|
      invariant FirstHit(handles, mx, my) == FirstHit(handles[i..], mx, my)
    {
      var h := handles[i];
      if OnHandle(mx, my, h) {
        return Some(h.corner);
      }
      assert handles[i..][1..] == handles[i + 1..];
      i := i + 1;
    }
    return None;
  }

  /** The point lies in the rectangle, borders included. */
  predicate Inside(mx: real, my: real, r: Rect) {
    r.x <= mx <= r.x + r.width && r.y <= my <= r.y + r.height
  }

  // ---------------------------------------------------------------------------------------
  // The drag state machine

  datatype DragMode = MoveFinal | ScaleFinal

  /** The scene under the playhead and its index, or -1 when there is no video element or no
      scene covers the current time. */
  function GetActiveScene(scenes: seq<Scene>, time: Option<real>): (r: (Option<Scene>, int))
    ensures -1 <= r.1 < |scenes|
    ensures r.0.Some? <==> r.1 >= 0
    ensures r.1 >= 0 ==>
      (time.Some? && r.0.value == scenes[r.1] && Covers(scenes[r.1], time.value)
       && forall k :: 0 <= k < r.1 ==> !Covers(scenes[k], time.value))
    ensures r.1 < 0 ==> time.None? || forall k :: 0 <= k < |scenes| ==> !Covers(scenes[k], time.value)
  {
    if time.None? then (None, -1) else SceneAt(scenes, time.value)
  }

  /** What a mouse-down at (mx, my) starts: a scale drag from the first corner handle under
      the point, else a move drag from inside the output frame, else nothing. */
  function PressOutcome(scenes: seq<Scene>, time: Option<real>, mx: real, my: real,
                        res: Resolution, vres: Resolution): Option<(DragMode, Option<Corner>, DragSnapshot)>
    requires Positive(res) && Positive(vres)
  {
    var (scene, index) := GetActiveScene(scenes, time);
    if scene.None? then None
    else
      var s := scene.value;
      var rect := FinalOutputRect(s.scale, s.position, res, vres);
      if rect.None? then None
      else
        var corner := FirstHit(Handles(rect.value), mx, my);
        if corner.Some? then Some((ScaleFinal, corner, Snapshot(s, res, vres)))
        else if Inside(mx, my, rect.value) then Some((MoveFinal, None, Snapshot(s, res, vres)))
        else None
  }

  /** A drag starts exactly when a scene is active, its scale is not 0 and the point is on a
      handle or inside the frame; it is a scale drag exactly when a handle was hit, and the
      snapshot is of the active scene. */
  lemma PressOutcomeSpec(scenes: seq<Scene>, time: Option<real>, mx: real, my: real,
                         res: Resolution, vres: Resolution)
    requires Positive(res) && Positive(vres)
    ensures var o := PressOutcome(scenes, time, mx, my, res, vres);
      var (scene, index) := GetActiveScene(scenes, time);
      && (o.Some? <==>
            && scene.Some? && scene.value.scale != 0.0
            && var rect := FinalOutputRect(scene.value.scale, scene.value.position, res, vres).value;
            (FirstHit(Handles(rect), mx, my).Some? || Inside(mx, my, rect)))
      && (o.Some? ==>
            && o.value.2 == Snapshot(scene.value, res, vres)
            && (o.value.0 == ScaleFinal <==> o.value.1.Some?)
            && (o.value.0 == ScaleFinal <==> FirstHit(Handles(o.value.2.finalRect), mx, my).Some?)
            && (o.value.1.Some? ==> o.value.1 == FirstHit(Handles(o.value.2.finalRect), mx, my)))
  {
  }

  /** The current time after one animation frame: in final-result mode, a time outside every
      scene jumps to the start of the next scene, or to 0 when none follows; the flag says
      whether the video must be sought. */
  function PlaybackTime(scenes: seq<Scene>, t: real, finalMode: bool): (real, bool) {
    if finalMode && ActiveIndex(scenes, t) < 0 then
      var next := NextIndex(scenes, t);
      (if next >= 0 then scenes[next].start else 0.0, true)
    else (t, false)
  }

  /** Outside final-result mode, or inside a scene, time is left alone; otherwise the jump goes
      forward to the first scene that starts later (in list order), and lands inside it when that
      scene's range is not empty. */
  lemma PlaybackTimeSpec(scenes: seq<Scene>, t: real, finalMode: bool)
    ensures var (time, seek) := PlaybackTime(scenes, t, finalMode);
      && (seek <==> finalMode && forall k :: 0 <= k < |scenes| ==> !Covers(scenes[k], t))
      && (!seek ==> time == t)
      && (seek ==> var next := NextIndex(scenes, t);
            && (next < 0 ==> time == 0.0 && forall k :: 0 <= k < |scenes| ==> scenes[k].start <= t)
            && (next >= 0 ==>
                  (time == scenes[next].start && time > t
                   && (scenes[next].start <= scenes[next].end ==> Covers(scenes[next], time)))))
  {
    ActiveIndexSpec(scenes, t);
    NextIndexSpec(scenes, t);
  }

  /** In final-result mode with well-formed scenes, the sought time never lands in a gap when a
      later scene exists. */
  lemma FinalModeSkipsGaps(scenes: seq<Scene>, t: real)
    requires forall k :: 0 <= k < |scenes| ==> scenes[k].start <= scenes[k].end
    requires NextIndex(scenes, t) >= 0
    ensures ActiveIndex(scenes, PlaybackTime(scenes, t, true).0) >= 0
  {
    PlaybackTimeSpec(scenes, t, true);
    var time := PlaybackTime(scenes, t, true).0;
    ActiveIndexSpec(scenes, time);
    if ActiveIndex(scenes, t) < 0 {
      var next := NextIndex(scenes, t);
      assert Covers(scenes[next], time);
    }
  }

  /** The preview component's interaction state. `store` holds the scene list it reads through
      its latest props and writes through `updateScene`. */
  class Controller {
    const store: Store
    const resolution: Resolution
    const virtualResolution: Resolution
    const finalResultMode: bool
    var isDragging: bool
    var dragMode: Option<DragMode>
    var activeHandle: Option<Corner>
    var dragStart: Point
    var initialState: Option<DragSnapshot>
    var lastDrawnTime: real

    ghost predicate Valid()
      reads this
    {
      && Positive(resolution) && Positive(virtualResolution)
      && (isDragging <==> dragMode.Some?)
      && (isDragging <==> initialState.Some?)
      && (activeHandle.Some? <==> dragMode == Some(ScaleFinal))
      && (initialState.Some? ==>
            ValidSnapshot(initialState.value, resolution, virtualResolution)
            && initialState.value.scale != 0.0)
    }

    constructor (store: Store, resolution: Resolution, virtualResolution: Resolution, finalResultMode: bool)
      requires Positive(resolution) && Positive(virtualResolution)
      ensures Valid()
      ensures this.store == store && this.resolution == resolution
      ensures this.virtualResolution == virtualResolution && this.finalResultMode == finalResultMode
      ensures !isDragging && dragStart == Point(0.0, 0.0) && lastDrawnTime == 0.0
    {
      this.store := store;
      this.resolution := resolution;
      this.virtualResolution := virtualResolution;
      this.finalResultMode := finalResultMode;
      isDragging := false;
      dragMode := None;
      activeHandle := None;
      dragStart := Point(0.0, 0.0);
      initialState := None;
      lastDrawnTime := 0.0;
    }

    /** `handleMouseDown`: starts the drag `PressOutcome` describes, or changes nothing. */
    method MouseDown(time: Option<real>, mx: real, my: real)
      requires Valid()
      modifies this
      ensures Valid()
      ensures lastDrawnTime == old(lastDrawnTime)
      ensures var o := PressOutcome(store.scenes, time, mx, my, resolution, virtualResolution);
        if o.None? then
          && isDragging == old(isDragging) && dragMode == old(dragMode)
          && activeHandle == old(activeHandle) && dragStart == old(dragStart)
          && initialState == old(initialState)
        else
          && isDragging && dragMode == Some(o.value.0) && activeHandle == o.value.1
          && dragStart == Point(mx, my) && initialState == Some(o.value.2)
    {
      var (scene, index) := GetActiveScene(store.scenes, time);
      if scene.None? || index == -1 {
        return;
      }
      var s := scene.value;
      var finalRect := FinalOutputRect(s.scale, s.position, resolution, virtualResolution);
      if finalRect.None? {
        return;
      }
      var corner := HitTestCornerHandles(mx, my, finalRect.value);
      if corner.Some? {
        isDragging := true;
        dragMode := Some(ScaleFinal);
        activeHandle := corner;
        dragStart := Point(mx, my);
        initialState := Some(Snapshot(s, resolution, virtualResolution));
        return;
      }
      if Inside(mx, my, finalRect.value) {
        isDragging := true;
        dragMode := Some(MoveFinal);
        activeHandle := None;
        dragStart := Point(mx, my);
        initialState := Some(Snapshot(s, resolution, virtualResolution));
      }
    }

    /** The patch a mouse position writes into the active scene during the current drag. */
    function DragPatch(mx: real, my: real): Option<ScenePatch>
      reads this
      requires Valid() && isDragging
    {
      var init := initialState.value;
      var dx := mx - dragStart.x;
      var dy := my - dragStart.y;
      if dragMode == Some(MoveFinal) then
        Some(ScenePatch(None, None, None, None, Some(MovePosition(init, dx, dy))))
      else
        assert dragMode.Some?;
        assert dragMode.value != MoveFinal;
        assert dragMode == Some(ScaleFinal);
        ScalePatch(init, activeHandle.value, dx, dy)
    }

    /** `handleMouseMove`: while dragging with a scene active, writes the drag's patch into that
        scene's slot; the drag state itself does not change. */
    method MouseMove(time: Option<real>, mx: real, my: real)
      requires Valid()
      modifies store
      ensures var index := GetActiveScene(old(store.scenes), time).1;
        if isDragging && index >= 0 && DragPatch(mx, my).Some? then
          store.scenes == Updated(old(store.scenes), index, DragPatch(mx, my).value)
        else store.scenes == old(store.scenes)
    {
      if !isDragging {
        return;
      }
      var (scene, index) := GetActiveScene(store.scenes, time);
      if scene.None? || index == -1 {
        return;
      }
      var dx := mx - dragStart.x;
      var dy := my - dragStart.y;
      var init := initialState.value;
      if dragMode == Some(MoveFinal) {
        store.UpdateScene(index, ScenePatch(None, None, None, None, Some(MovePosition(init, dx, dy))));
      } else {
        assert dragMode.Some?;
        assert dragMode.value != MoveFinal;
        assert dragMode == Some(ScaleFinal);
        var patch := ScalePatch(init, activeHandle.value, dx, dy);
        if patch.Some? {
          store.UpdateScene(index, patch.value);
        }
      }
    }

    /** Ends any drag; the start point and the frame clock are kept. */
    method EndDrag()
      requires Valid()
      modifies this
      ensures Valid()
      ensures !isDragging && dragMode.None? && activeHandle.None? && initialState.None?
      ensures dragStart == old(dragStart) && lastDrawnTime == old(lastDrawnTime)
    {
      if isDragging {
        isDragging := false;
        dragMode := None;
        activeHandle := None;
        initialState := None;
      }
    }

    /** `handleMouseUp`. */
    method MouseUp()
      requires Valid()
      modifies this
      ensures Valid()
      ensures !isDragging && dragMode.None? && activeHandle.None? && initialState.None?
      ensures dragStart == old(dragStart) && lastDrawnTime == old(lastDrawnTime)
    {
      EndDrag();
    }

    /** `handleMouseLeave`: the same reset as a mouse-up. */
    method MouseLeave()
      requires Valid()
      modifies this
      ensures Valid()
      ensures !isDragging && dragMode.None? && activeHandle.None? && initialState.None?
      ensures dragStart == old(dragStart) && lastDrawnTime == old(lastDrawnTime)
    {
      EndDrag();
    }

    /** One animation frame at the video's current time (`None` when there is no video):
        when the time moved since the last frame, records it and reports the
        `setCurrentTime(time, seek)` call the frame makes. */
    method AnimationStep(time: Option<real>) returns (report: Option<(real, bool)>)
      requires Valid()
      modifies this`lastDrawnTime
      ensures Valid()
      ensures report.Some? <==> time.Some? && time.value != old(lastDrawnTime)
      ensures report.Some? ==> report.value == PlaybackTime(store.scenes, time.value, finalResultMode)
      ensures lastDrawnTime == if report.Some? then time.value else old(lastDrawnTime)
    {
      if time.None? {
        return None;
      }
      var current := time.value;
      if current == lastDrawnTime {
        return None;
      }
      lastDrawnTime := current;
      report := Some(PlaybackTime(store.scenes, current, finalResultMode));
    }
  }

  // ---------------------------------------------------------------------------------------
  // Letterbox

  /** The area the whole video is drawn into when no scene is active: fit inside the output
      frame, centred, with the video's aspect ratio unless the two ratios are within 0.0001,
      where the full frame is used. */
  function Letterbox(videoWidth: real, videoHeight: real, target: Resolution): (r: Rect)
    requires videoWidth > 0.0 && videoHeight > 0.0 && Positive(target)
    ensures 0.0 < r.width <= target.width && 0.0 < r.height <= target.height
    ensures r.x >= 0.0 && r.y >= 0.0
    ensures 2.0 * r.x + r.width == target.width && 2.0 * r.y + r.height == target.height
    ensures r.width == target.width || r.height == target.height
    ensures Abs(videoWidth / videoHeight - target.width / target.height) < 0.0001 ==>
      r == Rect(0.0, 0.0, target.width, target.height)
    ensures Abs(videoWidth / videoHeight - target.width / target.height) >= 0.0001 ==>
      r.width * videoHeight == r.height * videoWidth
  {
    var videoAspect := videoWidth / videoHeight;
    var targetAspect := target.width / target.height;
    if Abs(videoAspect - targetAspect) < 0.0001 then
      Rect(0.0, 0.0, target.width, target.height)
    else if videoAspect > targetAspect then
      var drawHeight := target.width / videoAspect;
      Rect(0.0, (target.height - drawHeight) / 2.0, target.width, drawHeight)
    else
      var drawWidth := target.height * videoAspect;
      Rect((target.width - drawWidth) / 2.0, 0.0, drawWidth, target.height)
  }
}
