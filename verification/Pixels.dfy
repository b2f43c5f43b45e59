/**
 The pixel conversion of app-runtime/src/pixels.c: RGB565 content is widened
 into the XRGB8888 screen, either as a whole or inside damage rectangles.
 */
module Pixels {
  const WIDTH: nat := 320
  const HEIGHT: nat := 170
  const STANDARD_CONTENT_HEIGHT: nat := 150
  const STANDARD_CONTENT_OFFSET: nat := 20
  const MAX_DAMAGE_RECTS: nat := 32
  const FRAME_PIXELS: nat := WIDTH * HEIGHT

  /** A rectangle in content coordinates. */
  datatype Rect = Rect(x: nat, y: nat, width: nat, height: nat)

  /** `rgb565_to_xrgb8888` on the two bytes of a little-endian pixel. */
  function Xrgb(low: bv8, high: bv8): bv32 {
    var pixel := (low as bv32) | ((high as bv32) << 8);
    var red := (pixel >> 11) & 0x1f;
    var green := (pixel >> 5) & 0x3f;
    var blue := pixel & 0x1f;
    (((red << 3) | (red >> 2)) << 16) | (((green << 2) | (green >> 4)) << 8) | ((blue << 3) | (blue >> 2))
  }

  /** The XRGB8888 value cut back to five, six and five bits. */
  function Rgb565(value: bv32): bv32 {
    (((value >> 19) & 0x1f) << 11) | (((value >> 10) & 0x3f) << 5) | ((value >> 3) & 0x1f)
  }

  /** No colour is lost: cutting the wide value back gives the two bytes again; the top byte is zero. */
  lemma XrgbNarrows(low: bv8, high: bv8)
    ensures Rgb565(Xrgb(low, high)) == (low as bv32) | ((high as bv32) << 8)
    ensures Xrgb(low, high) < 0x100_0000
  {
  }

  /** A channel of `bits` all ones, scaled to a byte with an error of less than one step of the byte. */
  predicate Scaled(channel: bv32, byte: bv32, ones: bv32, step: bv32)
    requires step != 0
  {
    && byte / step == channel
    && ones * byte < 255 * channel + ones && 255 * channel < ones * byte + ones
    && (channel == 0 ==> byte == 0) && (channel == ones ==> byte == 255)
  }

  /** Each channel of the little-endian pixel is scaled from its own range to the full range of a byte. */
  lemma XrgbScales(low: bv8, high: bv8)
    ensures var pixel, value := (low as bv32) + 256 * (high as bv32), Xrgb(low, high);
            && Scaled(pixel / 2048, value / 0x1_0000, 31, 8)
            && Scaled(pixel / 32 % 64, value / 0x100 % 0x100, 63, 4)
            && Scaled(pixel % 32, value % 0x100, 31, 8)
  {
  }

  lemma XrgbInjective(low: bv8, high: bv8, low': bv8, high': bv8)
    requires Xrgb(low, high) == Xrgb(low', high')
    ensures low == low' && high == high'
  {
    XrgbNarrows(low, high);
    XrgbNarrows(low', high');
    var pixel := (low as bv32) | ((high as bv32) << 8);
    assert pixel & 0xff == low as bv32 && pixel >> 8 == high as bv32;
  }

  /** The screen position `k` lies in a rectangle whose content starts `offset` rows down. */
  predicate Inside(k: nat, offset: nat, rect: Rect) {
    rect.x <= k % WIDTH < rect.x + rect.width && offset + rect.y <= k / WIDTH < offset + rect.y + rect.height
  }

  predicate Covered(k: nat, offset: nat, rects: seq<Rect>) {
    exists i :: 0 <= i < |rects| && Inside(k, offset, rects[i])
  }

  predicate Fits(rect: Rect, height: nat) {
    0 < rect.width && 0 < rect.height && rect.x + rect.width <= WIDTH && rect.y + rect.height <= height
  }

  predicate ValidDamage(rects: seq<Rect>, height: nat) {
    && (height == STANDARD_CONTENT_HEIGHT || height == HEIGHT)
    && |rects| <= MAX_DAMAGE_RECTS
    && forall i :: 0 <= i < |rects| ==> Fits(rects[i], height)
  }

  /** `cp0_damage_is_valid`; a rectangle's right and bottom are 32-bit sums of 16-bit values. */
  method DamageIsValid(rects: seq<Rect>, height: nat) returns (valid: bool)
    ensures valid <==> ValidDamage(rects, height)
  {
    if height != STANDARD_CONTENT_HEIGHT && height != HEIGHT {
      return false;
    }
    if |rects| > MAX_DAMAGE_RECTS {
      return false;
    }
    var index := 0;
    while index < |rects|
      invariant 0 <= index <= |rects|
      invariant forall i :: 0 <= i < index ==> Fits(rects[i], height)
    {
      var rect := rects[index];
      if rect.width == 0 || rect.height == 0 || rect.x + rect.width > WIDTH || rect.y + rect.height > height {
        assert !Fits(rects[index], height);
        return false;
      }
      index := index + 1;
    }
    return true;
  }

  /** The content of one screen mode, and a frame for it. */
  datatype Mode = Mode(height: nat, offset: nat)

  const STANDARD := Mode(STANDARD_CONTENT_HEIGHT, STANDARD_CONTENT_OFFSET)
  const IMMERSIVE := Mode(HEIGHT, 0)

  predicate ValidMode(mode: Mode) { mode == STANDARD || mode == IMMERSIVE }

  predicate IsFrame(mode: Mode, frame: seq<bv8>) { |frame| == WIDTH * mode.height * 2 }

  /** Screen position `k` belongs to the content, not to the status rows. */
  predicate InContent(mode: Mode, k: nat) { mode.offset * WIDTH <= k < FRAME_PIXELS }

  /** The frame's colour for screen position `k`. */
  function Colour(mode: Mode, frame: seq<bv8>, k: nat): bv32
    requires ValidMode(mode) && IsFrame(mode, frame) && InContent(mode, k)
  {
    var pixel := k - mode.offset * WIDTH;
    Xrgb(frame[2 * pixel], frame[2 * pixel + 1])
  }

  lemma InsideInContent(mode: Mode, rect: Rect, k: nat)
    requires ValidMode(mode) && Fits(rect, mode.height) && Inside(k, mode.offset, rect)
    ensures InContent(mode, k)
  {
    assert k == k / WIDTH * WIDTH + k % WIDTH;
  }

  predicate Damaged(mode: Mode, rects: seq<Rect>, k: nat) {
    InContent(mode, k) && Covered(k, mode.offset, rects)
  }

  /** The screen after the frame was converted inside `rects`. */
  function Converted(screen: seq<bv32>, mode: Mode, frame: seq<bv8>, rects: seq<Rect>): (r: seq<bv32>)
    requires ValidMode(mode) && IsFrame(mode, frame)
    ensures |r| == |screen|
  {
    seq(|screen|, k requires 0 <= k < |screen| =>
      if Damaged(mode, rects, k) then Colour(mode, frame, k) else screen[k])
  }

  function FullRect(mode: Mode): Rect { Rect(0, 0, WIDTH, mode.height) }

  /** The rectangles that are converted; no rectangle means the whole content. */
  function Effective(mode: Mode, rects: seq<Rect>): seq<Rect> {
    if rects == [] then [FullRect(mode)] else rects
  }

  /** A whole screen showing one frame, the status rows zero. */
  function FullScreen(mode: Mode, frame: seq<bv8>): seq<bv32>
    requires ValidMode(mode) && IsFrame(mode, frame)
  {
    seq(FRAME_PIXELS, k requires 0 <= k => if InContent(mode, k) then Colour(mode, frame, k) else 0)
  }

  /** On the screen of a frame, column `x` of content row `y` shows the frame's pixel there, low byte first. */
  lemma PixelShown(mode: Mode, frame: seq<bv8>, x: nat, y: nat)
    requires ValidMode(mode) && IsFrame(mode, frame) && x < 320 && y < mode.height
    ensures var at := 2 * (y * 320 + x);
            FullScreen(mode, frame)[(y + mode.offset) * 320 + x] == Xrgb(frame[at], frame[at + 1])
  {
    hide Xrgb;
  }

  /** The full rectangle covers the whole content. */
  lemma FullCovers(mode: Mode, k: nat)
    requires ValidMode(mode)
    ensures Damaged(mode, Effective(mode, []), k) <==> InContent(mode, k)
  {
    if InContent(mode, k) {
      assert k / WIDTH < HEIGHT;
      assert Inside(k, mode.offset, Effective(mode, [])[0]);
    }
  }

  /** Both frames have the same bytes at every position outside the rectangles. */
  ghost predicate SameOutside(mode: Mode, before: seq<bv8>, after: seq<bv8>, rects: seq<Rect>)
    requires ValidMode(mode) && IsFrame(mode, before) && IsFrame(mode, after)
  {
    forall k :: InContent(mode, k) && !Covered(k, mode.offset, rects) ==> SameAt(mode, before, after, k)
  }

  predicate SameAt(mode: Mode, before: seq<bv8>, after: seq<bv8>, k: nat)
    requires ValidMode(mode) && IsFrame(mode, before) && IsFrame(mode, after) && InContent(mode, k)
  {
    var pixel := k - mode.offset * WIDTH;
    before[2 * pixel] == after[2 * pixel] && before[2 * pixel + 1] == after[2 * pixel + 1]
  }

  lemma ColourDecides(mode: Mode, before: seq<bv8>, after: seq<bv8>, k: nat)
    requires ValidMode(mode) && IsFrame(mode, before) && IsFrame(mode, after) && InContent(mode, k)
    ensures Colour(mode, before, k) == Colour(mode, after, k) <==> SameAt(mode, before, after, k)
  {
    var pixel := k - mode.offset * WIDTH;
    if Colour(mode, before, k) == Colour(mode, after, k) {
      XrgbInjective(before[2 * pixel], before[2 * pixel + 1], after[2 * pixel], after[2 * pixel + 1]);
    }
  }

  /**
   Converting only the damage of a screen that shows the old frame gives a screen
   that shows the new frame exactly when the frames agree outside the damage.
   */
  lemma IncrementalIsFull(mode: Mode, before: seq<bv8>, after: seq<bv8>, rects: seq<Rect>)
    requires ValidMode(mode) && IsFrame(mode, before) && IsFrame(mode, after)
    ensures Converted(FullScreen(mode, before), mode, after, rects) == FullScreen(mode, after) <==>
            SameOutside(mode, before, after, rects)
  {
    hide Xrgb, Covered, SameAt;
    var screen := Converted(FullScreen(mode, before), mode, after, rects);
    var full := FullScreen(mode, after);
    forall k: nat | InContent(mode, k) && !Covered(k, mode.offset, rects)
      ensures screen[k] == full[k] <==> SameAt(mode, before, after, k)
    {
      ColourDecides(mode, before, after, k);
    }
    if SameOutside(mode, before, after, rects) {
      assert screen == full;
    }
  }

  /** Converting everything needs no assumption beyond zero status rows. */
  lemma FullConversion(screen: seq<bv32>, mode: Mode, frame: seq<bv8>)
    requires ValidMode(mode) && IsFrame(mode, frame) && |screen| == FRAME_PIXELS
    requires forall k :: 0 <= k < mode.offset * WIDTH ==> screen[k] == 0
    ensures Converted(screen, mode, frame, Effective(mode, [])) == FullScreen(mode, frame)
  {
    hide Xrgb, Covered, Effective;
    var rects := Effective(mode, []);
    forall k | 0 <= k < FRAME_PIXELS
      ensures Converted(screen, mode, frame, rects)[k] == FullScreen(mode, frame)[k]
    {
      FullCovers(mode, k);
    }
  }

  /** Row-major order of screen positions. */
  predicate Before(k: nat, row: nat, column: nat) {
    k / WIDTH < row || (k / WIDTH == row && k % WIDTH < column)
  }

  lemma Position(row: nat, column: nat)
    requires column < WIDTH
    ensures (row * WIDTH + column) / WIDTH == row && (row * WIDTH + column) % WIDTH == column
  {
  }

  lemma SamePosition(row: nat, column: nat, k: nat)
    requires column < WIDTH
    ensures k == row * WIDTH + column <==> k / WIDTH == row && k % WIDTH == column
  {
    Position(row, column);
  }

  /** One position of the screen when the rectangle is done up to a row and column. */
  function ConvertedUpTo(screen: seq<bv32>, mode: Mode, frame: seq<bv8>, rect: Rect, row: nat, column: nat, k: nat): bv32
    requires |screen| == FRAME_PIXELS && k < FRAME_PIXELS
    requires ValidMode(mode) && IsFrame(mode, frame) && Fits(rect, mode.height)
  {
    if Inside(k, mode.offset, rect) && Before(k, row, column) then
      InsideInContent(mode, rect, k);
      Colour(mode, frame, k)
    else screen[k]
  }

  /** Writing one pixel moves the border one column on. */
  lemma NextColumn(screen: seq<bv32>, mode: Mode, frame: seq<bv8>, rect: Rect, y: nat, x: nat, k: nat)
    requires |screen| == FRAME_PIXELS && k < FRAME_PIXELS
    requires ValidMode(mode) && IsFrame(mode, frame) && Fits(rect, mode.height)
    requires rect.x <= x < rect.x + rect.width && rect.y <= y < rect.y + rect.height
    ensures var row := y + mode.offset;
            ConvertedUpTo(screen, mode, frame, rect, row, x + 1, k) ==
            if k == row * WIDTH + x then Xrgb(frame[(y * WIDTH + x) * 2], frame[(y * WIDTH + x) * 2 + 1])
            else ConvertedUpTo(screen, mode, frame, rect, row, x, k)
  {
    hide Xrgb;
    SamePosition(y + mode.offset, x, k);
  }

  /** The ends of a row and of the rectangle. */
  lemma RowEnds(screen: seq<bv32>, mode: Mode, frame: seq<bv8>, rect: Rect, row: nat, k: nat)
    requires |screen| == FRAME_PIXELS && k < FRAME_PIXELS
    requires ValidMode(mode) && IsFrame(mode, frame) && Fits(rect, mode.height)
    ensures ConvertedUpTo(screen, mode, frame, rect, rect.y + mode.offset, rect.x, k) == screen[k]
    ensures ConvertedUpTo(screen, mode, frame, rect, row, rect.x + rect.width, k) ==
            ConvertedUpTo(screen, mode, frame, rect, row + 1, rect.x, k)
    ensures ConvertedUpTo(screen, mode, frame, rect, rect.y + rect.height + mode.offset, rect.x, k) ==
            Converted(screen, mode, frame, [rect])[k]
  {
    hide Colour;
    assert Inside(k, mode.offset, rect) <==> Covered(k, mode.offset, [rect]) by {
      assert [rect][0] == rect;
    }
    if Inside(k, mode.offset, rect) {
      InsideInContent(mode, rect, k);
    }
  }

  /** `convert_rectangle` */
  method ConvertRectangle(screen: array<bv32>, mode: Mode, frame: seq<bv8>, rect: Rect)
    requires screen.Length == FRAME_PIXELS
    requires ValidMode(mode) && IsFrame(mode, frame) && Fits(rect, mode.height)
    modifies screen
    ensures screen[..] == Converted(old(screen[..]), mode, frame, [rect])
  {
    hide Xrgb, ConvertedUpTo, Converted;
    var y := rect.y;
    forall k | 0 <= k < FRAME_PIXELS
      ensures screen[k] == ConvertedUpTo(old(screen[..]), mode, frame, rect, y + mode.offset, rect.x, k)
    {
      RowEnds(old(screen[..]), mode, frame, rect, 0, k);
    }
    while y < rect.y + rect.height
      invariant rect.y <= y <= rect.y + rect.height
      invariant forall k :: 0 <= k < FRAME_PIXELS ==>
        screen[k] == ConvertedUpTo(old(screen[..]), mode, frame, rect, y + mode.offset, rect.x, k)
    {
      var x := rect.x;
      while x < rect.x + rect.width
        invariant rect.x <= x <= rect.x + rect.width
        invariant forall k :: 0 <= k < FRAME_PIXELS ==>
          screen[k] == ConvertedUpTo(old(screen[..]), mode, frame, rect, y + mode.offset, x, k)
      {
        var sourceIndex := (y * WIDTH + x) * 2;
        screen[(y + mode.offset) * WIDTH + x] := Xrgb(frame[sourceIndex], frame[sourceIndex + 1]);
        forall k | 0 <= k < FRAME_PIXELS
          ensures screen[k] == ConvertedUpTo(old(screen[..]), mode, frame, rect, y + mode.offset, x + 1, k)
        {
          NextColumn(old(screen[..]), mode, frame, rect, y, x, k);
        }
        x := x + 1;
      }
      forall k | 0 <= k < FRAME_PIXELS
        ensures screen[k] == ConvertedUpTo(old(screen[..]), mode, frame, rect, y + 1 + mode.offset, rect.x, k)
      {
        RowEnds(old(screen[..]), mode, frame, rect, y + mode.offset, k);
      }
      y := y + 1;
    }
    forall k | 0 <= k < FRAME_PIXELS
      ensures screen[k] == Converted(old(screen[..]), mode, frame, [rect])[k]
    {
      RowEnds(old(screen[..]), mode, frame, rect, 0, k);
    }
  }

  /** Rectangles one after the other do what they do together. */
  lemma ConvertedAppend(screen: seq<bv32>, mode: Mode, frame: seq<bv8>, rects: seq<Rect>, rect: Rect)
    requires ValidMode(mode) && IsFrame(mode, frame)
    ensures Converted(Converted(screen, mode, frame, rects), mode, frame, [rect]) ==
            Converted(screen, mode, frame, rects + [rect])
  {
    hide Colour;
    forall k: nat
      ensures Covered(k, mode.offset, rects + [rect]) <==>
              Covered(k, mode.offset, rects) || Covered(k, mode.offset, [rect])
    {
      var all := rects + [rect];
      if Covered(k, mode.offset, rects) {
        var i :| 0 <= i < |rects| && Inside(k, mode.offset, rects[i]);
        assert Inside(k, mode.offset, all[i]);
      }
      if Covered(k, mode.offset, [rect]) {
        assert Inside(k, mode.offset, all[|rects|]);
      }
      if Covered(k, mode.offset, all) {
        var i :| 0 <= i < |all| && Inside(k, mode.offset, all[i]);
        if i < |rects| {
          assert Inside(k, mode.offset, rects[i]);
        } else {
          assert Inside(k, mode.offset, [rect][0]);
        }
      }
    }
  }

  /** `cp0_convert_rgb565` */
  method Convert(screen: array<bv32>, mode: Mode, frame: seq<bv8>, rects: seq<Rect>)
    requires screen.Length == FRAME_PIXELS
    requires ValidMode(mode) && IsFrame(mode, frame) && ValidDamage(rects, mode.height)
    modifies screen
    ensures screen[..] == Converted(old(screen[..]), mode, frame, Effective(mode, rects))
  {
    hide Colour, Covered;
    if rects == [] {
      ConvertRectangle(screen, mode, frame, FullRect(mode));
      return;
    }
    var index := 0;
    assert Converted(screen[..], mode, frame, rects[..0]) == screen[..] by {
      NothingConverted(screen[..], mode, frame);
    }
    while index < |rects|
      invariant 0 <= index <= |rects|
      invariant screen[..] == Converted(old(screen[..]), mode, frame, rects[..index])
    {
      ConvertedAppend(old(screen[..]), mode, frame, rects[..index], rects[index]);
      assert rects[..index] + [rects[index]] == rects[..index + 1];
      ConvertRectangle(screen, mode, frame, rects[index]);
      index := index + 1;
    }
    assert rects[..index] == rects;
  }

  lemma NothingConverted(screen: seq<bv32>, mode: Mode, frame: seq<bv8>)
    requires ValidMode(mode) && IsFrame(mode, frame)
    ensures Converted(screen, mode, frame, []) == screen
  {
  }
}
