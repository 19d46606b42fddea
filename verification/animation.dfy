/**
 The sprite-sheet `Animation` of examples/canvas_cross.js: the constructor
 precomputes the top-left corner of each listed frame on the sheet, and
 `draw` picks the frame from the clock and scales the destination
 rectangle. Only the arithmetic is modelled; `drawImage` is represented by
 the arguments it would receive.
 */
module SpriteAnimation {
  import opened Outcomes
  import JsNumber

  /** The `image` argument: a URL string, or a loaded image (only its width matters here). */
  datatype Image = Url(src: string) | Bitmap(width: int)

  /** A JavaScript number that is either an integer or NaN. */
  datatype Num = Int(i: int) | NaN

  /** The top-left corner of a frame on the sheet, `[x, y]`. */
  datatype Quad = Quad(x: Num, y: Num)

  datatype Animation = Animation(
    image: Image,
    playing: bool,
    speed: int,
    width: int,
    height: int,
    frame: Num,
    frames: seq<Quad>)

  const DefaultFrames: seq<int> := [0]
  const DefaultSpeed: int := 1000
  const DefaultSize: int := 32
  const DefaultScale: int := 1

  /**
   The message V8 gives when `f[0]` is read from an undefined frame. The
   error is a `TypeError` in every engine, but its wording is engine-specific
   (SpiderMonkey and JavaScriptCore say it differently); the model fixes V8's.
   */
  const UndefinedFrameMessage: string := "Cannot read properties of undefined (reading '0')"

  /**
   A loaded sheet is a whole, positive number of `width`-wide columns; the
   column count `image.width / width` is then an integer.
   */
  predicate WholeColumns(image: Image, width: int) {
    image.Bitmap? ==> width > 0 && image.width > 0 && image.width % width == 0
  }

  function Columns(image: Image, width: int): (cols: int)
    requires image.Bitmap? && WholeColumns(image, width)
    ensures cols >= 1 && cols * width == image.width
  {
    image.width / width
  }

  /**
   The quad of frame id `f`: `[(f % cols) * height, floor(f / cols) * width]`.
   A URL string has no `width`, so every quad of it is NaN.
   */
  function QuadOf(image: Image, width: int, height: int, f: int): (q: Quad)
    requires WholeColumns(image, width)
    ensures image.Url? <==> q == Quad(NaN, NaN)
    ensures image.Bitmap? ==> q.x.Int? && q.y.Int?
  {
    match image
    case Url(_) => Quad(NaN, NaN)
    case Bitmap(_) =>
      var cols := Columns(image, width);
      Quad(Int(JsNumber.TruncRem(f, cols) * height), Int(JsNumber.FloorDiv(f, cols) * width))
  }

  /** `new Animation(image, frames = [0], speed = 1000, width = 32, height = 32)`. */
  function NewAnimation(image: Image, frames: Option<seq<int>>, speed: Option<int>,
                        width: Option<int>, height: Option<int>): (a: Animation)
    requires WholeColumns(image, width.GetOr(DefaultSize))
    ensures a.playing && a.frame == Int(0)
    ensures a.image == image
    ensures a.speed == speed.GetOr(DefaultSpeed)
    ensures a.width == width.GetOr(DefaultSize) && a.height == height.GetOr(DefaultSize)
    ensures var ids := frames.GetOr(DefaultFrames);
      |a.frames| == |ids| && forall i :: 0 <= i < |ids| ==> a.frames[i] == QuadOf(image, a.width, a.height, ids[i])
  {
    var w := width.GetOr(DefaultSize);
    var h := height.GetOr(DefaultSize);
    var ids := frames.GetOr(DefaultFrames);
    Animation(image, true, speed.GetOr(DefaultSpeed), w, h, Int(0),
              seq(|ids|, i requires 0 <= i < |ids| => QuadOf(image, w, h, ids[i])))
  }

  /** With no arguments but the image there is one frame, at the sheet's origin. */
  lemma DefaultAnimation(iw: int)
    requires iw > 0 && iw % DefaultSize == 0
    ensures NewAnimation(Bitmap(iw), None, None, None, None)
      == Animation(Bitmap(iw), true, 1000, 32, 32, Int(0), [Quad(Int(0), Int(0))])
  {
    var a := NewAnimation(Bitmap(iw), None, None, None, None);
    assert a.frames[0] == QuadOf(Bitmap(iw), 32, 32, 0);
  }

  /** For a non-negative frame id the quad is (column * height, row * width). */
  lemma QuadPosition(iw: int, width: int, height: int, f: int)
    requires WholeColumns(Bitmap(iw), width) && f >= 0
    ensures var cols := iw / width;
      QuadOf(Bitmap(iw), width, height, f) == Quad(Int((f % cols) * height), Int((f / cols) * width))
  {
    var cols := Columns(Bitmap(iw), width);
    JsNumber.TruncRemNonNegative(f, cols);
    JsNumber.FloorDivPositive(f, cols);
  }

  /** With positive frame sizes the quad gives back the frame id it was computed from. */
  lemma QuadDeterminesFrame(iw: int, width: int, height: int, f: int)
    requires WholeColumns(Bitmap(iw), width) && height > 0 && f >= 0
    ensures var q := QuadOf(Bitmap(iw), width, height, f);
      f == q.x.i / height + (q.y.i / width) * (iw / width)
  {
    var cols := Columns(Bitmap(iw), width);
    QuadPosition(iw, width, height, f);
    var col := f % cols;
    var row := f / cols;
    assert col * height == height * col;
    JsNumber.DivUnique(height * col, height, col);
    assert row * width == width * row;
    JsNumber.DivUnique(width * row, width, row);
    assert f == row * cols + col;
  }

  // ---------------------------------------------------------------------
  // Drawing.

  /** The arguments `draw` hands to `context.drawImage`. */
  datatype DrawImage = DrawImage(image: Image, srcX: Num, srcY: Num, sw: int, sh: int,
                                 dx: int, dy: int, dw: int, dh: int)

  datatype Drawn = Drawn(animation: Animation, result: Outcome<DrawImage>)

  /**
   `Math.floor(time / speed) % count`. Dividing by a zero speed gives an
   infinity (or NaN), and any remainder of that, or by an empty frame count,
   is NaN.
   */
  function FrameAt(time: int, speed: int, count: nat): (r: Num)
    ensures r.NaN? <==> speed == 0 || count == 0
    ensures r.Int? ==> 0 - count < r.i < count
    ensures speed > 0 && count > 0 && time >= 0 ==> r == Int((time / speed) % count)
  {
    if speed == 0 || count == 0 then NaN
    else
      var q := JsNumber.FloorDiv(time, speed);
      if speed > 0 && time >= 0 then
        JsNumber.FloorDivPositive(time, speed);
        JsNumber.TruncRemNonNegative(q, count);
        Int(JsNumber.TruncRem(q, count))
      else
        Int(JsNumber.TruncRem(q, count))
  }

  /** `frames[frame]` is defined: an integer index inside the table. */
  predicate IsIndex(frame: Num, count: int) {
    frame.Int? && 0 <= frame.i < count
  }

  /**
   `sy || sx`: a zero vertical scale is falsy and falls back to the
   horizontal one, so the result is zero only when both are.
   */
  function VerticalScale(sx: int, sy: int): (k: int)
    ensures sy != 0 ==> k == sy
    ensures sy == 0 ==> k == sx
    ensures k == 0 <==> sx == 0 && sy == 0
  {
    if sy != 0 then sy else sx
  }

  /** `draw(context, time, x, y, sx = 1, sy = 1)`. */
  function Draw(a: Animation, time: int, x: int, y: int, sx: Option<int>, sy: Option<int>): (d: Drawn)
    ensures d.animation == a.(frame := d.animation.frame)
    ensures a.playing ==> d.animation.frame == FrameAt(time, a.speed, |a.frames|)
    ensures !a.playing ==> d.animation == a
    ensures d.result.Returned? <==> IsIndex(d.animation.frame, |a.frames|)
    ensures d.result.Threw? ==> d.result.message == UndefinedFrameMessage
    ensures d.result.Returned? ==>
      var q := a.frames[d.animation.frame.i];
      d.result.value.image == a.image && d.result.value.srcX == q.x && d.result.value.srcY == q.y
  {
    var next := if a.playing then a.(frame := FrameAt(time, a.speed, |a.frames|)) else a;
    if IsIndex(next.frame, |a.frames|) then
      var q := a.frames[next.frame.i];
      var kx := sx.GetOr(DefaultScale);
      var ky := VerticalScale(kx, sy.GetOr(DefaultScale));
      Drawn(next, Returned(DrawImage(a.image, q.x, q.y, a.width, a.height, x, y, a.width * kx, a.height * ky)))
    else
      Drawn(next, Threw(UndefinedFrameMessage))
  }

  /** While playing, with a positive speed, a non-negative clock and frames to show, `draw` never fails. */
  lemma PlayingFrameInRange(a: Animation, time: int, x: int, y: int, sx: Option<int>, sy: Option<int>)
    requires a.playing && a.speed > 0 && time >= 0 && |a.frames| > 0
    ensures var d := Draw(a, time, x, y, sx, sy);
      && d.animation.frame == Int((time / a.speed) % |a.frames|)
      && 0 <= d.animation.frame.i < |a.frames|
      && d.result.Returned?
  {
  }

  /** A paused animation keeps its frame and draws it again. */
  lemma PausedDrawKeepsFrame(a: Animation, time: int, time': int, x: int, y: int, sx: Option<int>, sy: Option<int>)
    requires !a.playing
    ensures Draw(a, time, x, y, sx, sy).animation == a
    ensures Draw(a, time, x, y, sx, sy).result == Draw(a, time', x, y, sx, sy).result
  {
  }

  /** The destination is the frame size scaled by `sx` and by `sy || sx`, each defaulting to 1. */
  lemma DrawDestinationSize(a: Animation, time: int, x: int, y: int, sx: Option<int>, sy: Option<int>)
    requires Draw(a, time, x, y, sx, sy).result.Returned?
    ensures var v := Draw(a, time, x, y, sx, sy).result.value;
      var kx := sx.GetOr(1);
      var ky := sy.GetOr(1);
      && v.image == a.image
      && v.sw == a.width && v.sh == a.height && v.dx == x && v.dy == y
      && v.dw == a.width * kx
      && v.dh == (if ky == 0 then a.height * kx else a.height * ky)
      && (sx.None? && sy.None? ==> v.dw == a.width && v.dh == a.height)
  {
  }

  /** Frame selection repeats every `speed * count` milliseconds. */
  lemma FramePeriodic(time: int, speed: int, count: nat)
    requires speed > 0 && count > 0 && time >= 0
    ensures FrameAt(time + speed * count, speed, count) == FrameAt(time, speed, count)
  {
    var q := time / speed;
    JsNumber.DivAddMultiple(time, speed, count);
    JsNumber.DivAddMultiple(q, count, 1);
  }

  /** Every `speed` milliseconds the animation moves on to the next frame, wrapping at the end. */
  lemma FrameAdvancesEachTick(time: int, speed: int, count: nat)
    requires speed > 0 && count > 0 && time >= 0
    ensures FrameAt(time + speed, speed, count) == Int((FrameAt(time, speed, count).i + 1) % count)
  {
    var q := time / speed;
    JsNumber.DivAddMultiple(time, speed, 1);
    JsNumber.ModSucc(q, count);
  }

  /** A zero speed or an empty frame table leaves no frame to read: `draw` throws while playing. */
  lemma DegenerateTimingThrows(a: Animation, time: int, x: int, y: int, sx: Option<int>, sy: Option<int>)
    requires a.playing && (a.speed == 0 || |a.frames| == 0)
    ensures Draw(a, time, x, y, sx, sy).result == Threw(UndefinedFrameMessage)
    ensures Draw(a, time, x, y, sx, sy).animation.frame == NaN
  {
  }
}
