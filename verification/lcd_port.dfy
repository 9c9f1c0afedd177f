/**
 The RGB panel port: drawing a window of an 800x480 RGB565 frame, and the
 backlight switch on the IO expander.

 The panel driver is not modelled: a draw is the call
 `esp_lcd_panel_draw_bitmap` receives, its coordinates and the cropped
 bytes. Frames are flat byte sequences, two bytes per pixel, row-major.
 */
module LcdPort {
  import opened Bytes
  import opened Optional
  import IoExtension
  import I2cBus

  const H_RES: int := 800
  const V_RES: int := 480
  const BYTES_PER_PIXEL: int := 2
  const FRAME_BYTES: int := H_RES * V_RES * BYTES_PER_PIXEL

  const INT16_MIN: int := -0x8000
  const INT16_MAX: int := 0x7FFF

  predicate IsInt16(v: int) { INT16_MIN <= v <= INT16_MAX }

  /** A window: start corner inclusive, end corner exclusive. */
  datatype Window = Window(xs: int, ys: int, xe: int, ye: int)

  /** The clipping of `wavesahre_rgb_lcd_display_window` as written: a
      negative start is raised to 0, and only when the start was not
      negative is the end cut to the screen. */
  function ClipAsWritten(w: Window): (c: Window)
    ensures w.xs < 0 ==> c.xs == 0 && c.xe == w.xe
    ensures w.xs >= 0 ==> c.xs == w.xs && c.xe == (if w.xe > H_RES then H_RES else w.xe)
    ensures w.ys < 0 ==> c.ys == 0 && c.ye == w.ye
    ensures w.ys >= 0 ==> c.ys == w.ys && c.ye == (if w.ye > V_RES then V_RES else w.ye)
  {
    var (xs, xe) := if w.xs < 0 then (0, w.xe) else if w.xe > H_RES then (w.xs, H_RES) else (w.xs, w.xe);
    var (ys, ye) := if w.ys < 0 then (0, w.ye) else if w.ye > V_RES then (w.ys, V_RES) else (w.ys, w.ye);
    Window(xs, ys, xe, ye)
  }

  /** A window starting left of the screen and ending right of it keeps its
      end: the crop is 900 pixels wide on an 800-pixel screen. */
  lemma ClipAsWrittenOverhangs()
    ensures ClipAsWritten(Window(-10, 0, 900, 480)).xe == 900
    ensures ClipAsWritten(Window(-10, 0, 900, 480)).xe - ClipAsWritten(Window(-10, 0, 900, 480)).xs > H_RES
  {
  }

  /** The clipping the comment describes: each start raised to 0 and each
      end cut to the screen, independently. */
  function Clip(w: Window): (c: Window)
    ensures 0 <= c.xs && c.xe <= H_RES && 0 <= c.ys && c.ye <= V_RES
    ensures c.xs == (if w.xs < 0 then 0 else w.xs) && c.ys == (if w.ys < 0 then 0 else w.ys)
    ensures c.xe == (if w.xe > H_RES then H_RES else w.xe) && c.ye == (if w.ye > V_RES then V_RES else w.ye)
  {
    Window(if w.xs < 0 then 0 else w.xs, if w.ys < 0 then 0 else w.ys,
           if w.xe > H_RES then H_RES else w.xe, if w.ye > V_RES then V_RES else w.ye)
  }

  /** The two clippings agree exactly when a start was not negative or its
      end was already on the screen. */
  lemma ClipAgreement(w: Window)
    ensures ClipAsWritten(w) == Clip(w) <==>
              (w.xs >= 0 || w.xe <= H_RES) && (w.ys >= 0 || w.ye <= V_RES)
  {
  }

  /** A window already on the screen is left alone. */
  lemma ClipIdempotent(w: Window)
    ensures Clip(Clip(w)) == Clip(w)
  {
  }

  /** Where row `y` of the window starts in the frame. */
  function SourceOffset(c: Window, y: int): int {
    ((c.ys + y) * H_RES + c.xs) * BYTES_PER_PIXEL
  }

  /** The bytes of row `y` of the window, taken from the frame. */
  function SourceRow(frame: seq<byte>, c: Window, y: nat): (row: seq<byte>)
    requires |frame| == FRAME_BYTES
    requires Readable(c) && y < c.ye - c.ys
    ensures |row| == (c.xe - c.xs) * BYTES_PER_PIXEL
  {
    RowInFrame(c, y);
    frame[SourceOffset(c, y)..SourceOffset(c, y) + (c.xe - c.xs) * BYTES_PER_PIXEL]
  }

  lemma RowInFrame(c: Window, y: nat)
    requires Readable(c) && y < c.ye - c.ys
    ensures 0 <= SourceOffset(c, y)
    ensures SourceOffset(c, y) + (c.xe - c.xs) * BYTES_PER_PIXEL <= FRAME_BYTES
  {
    var r := c.ys + y;
    MulMonotone(r, c.ye - 1, H_RES);
    assert r * H_RES + c.xe <= (c.ye - 1) * H_RES + c.xe;
  }

  /** `a * n` grows with `a`. */
  lemma MulMonotone(a: nat, b: nat, n: nat)
    requires a <= b
    ensures a * n <= b * n
  {
  }

  /** The index of byte `b` of pixel `(x, y)` in a buffer `width` pixels
      wide. */
  function PixelIndex(width: int, x: int, y: int, b: int): int {
    (y * width + x) * BYTES_PER_PIXEL + b
  }

  predicate OnScreen(c: Window) {
    0 <= c.xs <= c.xe <= H_RES && 0 <= c.ys <= c.ye <= V_RES
  }

  /** A window whose rows, each read from `((ys + y) * 800 + xs) * 2` for
      the window's width, all lie inside the frame. The frame is read
      row-major, so a window wider than the screen reads on into the next
      screen row; only its last row can run off the frame's end. */
  predicate Readable(c: Window) {
    && 0 <= c.xs <= c.xe && 0 <= c.ys <= c.ye
    && (c.ys == c.ye || (c.ye - 1) * H_RES + c.xe <= H_RES * V_RES)
  }

  lemma OnScreenReadable(c: Window)
    requires OnScreen(c)
    ensures Readable(c)
  {
    if c.ys < c.ye {
      MulMonotone(c.ye - 1, V_RES - 1, H_RES);
    }
  }

  function RowLen(c: Window): nat
    requires c.xs <= c.xe
  {
    (c.xe - c.xs) * BYTES_PER_PIXEL
  }

  /** The first `n` rows of the window, one after another. */
  function Crop(frame: seq<byte>, c: Window, n: nat): seq<byte>
    requires |frame| == FRAME_BYTES && Readable(c) && n <= c.ye - c.ys
  {
    if n == 0 then [] else Crop(frame, c, n - 1) + SourceRow(frame, c, n - 1)
  }

  lemma {:induction false} CropLength(frame: seq<byte>, c: Window, n: nat)
    requires |frame| == FRAME_BYTES && Readable(c) && n <= c.ye - c.ys
    ensures |Crop(frame, c, n)| == n * RowLen(c)
  {
    if n > 0 {
      CropLength(frame, c, n - 1);
      assert n * RowLen(c) == (n - 1) * RowLen(c) + RowLen(c);
    }
  }

  lemma AppendPrefix(a: seq<byte>, b: seq<byte>, i: nat, j: nat)
    requires i <= j <= |a|
    ensures (a + b)[i..j] == a[i..j]
  {
  }

  lemma AppendSuffix(a: seq<byte>, b: seq<byte>)
    ensures (a + b)[|a|..|a| + |b|] == b
  {
  }

  /** Two slices holding the same row agree at every offset into it. */
  lemma SameRowAt(data: seq<byte>, frame: seq<byte>, row: seq<byte>, start: nat, off: nat, i: nat)
    requires start + |row| <= |data| && data[start..start + |row|] == row
    requires off + |row| <= |frame| && frame[off..off + |row|] == row
    requires i < |row|
    ensures start + i < |data| && off + i < |frame|
    ensures data[start + i] == frame[off + i]
  {
    assert data[start + i] == data[start..start + |row|][i];
    assert frame[off + i] == frame[off..off + |row|][i];
  }

  /** Row `y` of a crop sits at `y * RowLen` and is row `y` of the window
      in the frame. */
  predicate RowHolds(data: seq<byte>, frame: seq<byte>, c: Window, y: nat)
    requires |frame| == FRAME_BYTES && Readable(c) && y < c.ye - c.ys
  {
    && y * RowLen(c) + RowLen(c) <= |data|
    && data[y * RowLen(c)..y * RowLen(c) + RowLen(c)] == SourceRow(frame, c, y)
  }

  /** Row `k` of the crop sits at `k * RowLen` and is row `k` of the
      window in the frame. */
  lemma {:induction false} CropRow(frame: seq<byte>, c: Window, n: nat, k: nat)
    requires |frame| == FRAME_BYTES && Readable(c) && k < n <= c.ye - c.ys
    ensures RowHolds(Crop(frame, c, n), frame, c, k)
  {
    if k < n - 1 {
      CropRow(frame, c, n - 1, k);
      RowSurvivesAppend(Crop(frame, c, n - 1), SourceRow(frame, c, n - 1), frame, c, k);
    } else {
      CropLength(frame, c, n - 1);
      LastRow(Crop(frame, c, n - 1), frame, c, k);
    }
  }

  /** Appending bytes keeps the rows already there. */
  lemma RowSurvivesAppend(prev: seq<byte>, more: seq<byte>, frame: seq<byte>, c: Window, k: nat)
    requires |frame| == FRAME_BYTES && Readable(c) && k < c.ye - c.ys
    requires RowHolds(prev, frame, c, k)
    ensures RowHolds(prev + more, frame, c, k)
  {
    AppendPrefix(prev, more, k * RowLen(c), k * RowLen(c) + RowLen(c));
  }

  /** Appending row `k` right after `k` rows puts it in place. */
  lemma LastRow(prev: seq<byte>, frame: seq<byte>, c: Window, k: nat)
    requires |frame| == FRAME_BYTES && Readable(c) && k < c.ye - c.ys
    requires |prev| == k * RowLen(c)
    ensures RowHolds(prev + SourceRow(frame, c, k), frame, c, k)
  {
    AppendSuffix(prev, SourceRow(frame, c, k));
  }

  /** Where byte `b` of pixel `(x, y)` lies, in the crop and in the
      frame, relative to the start of row `y`. */
  lemma PixelOffsets(c: Window, x: nat, y: nat, b: nat)
    requires Readable(c)
    ensures PixelIndex(c.xe - c.xs, x, y, b) == y * RowLen(c) + (x * 2 + b)
    ensures SourceOffset(c, y) + (x * 2 + b) == PixelIndex(H_RES, c.xs + x, c.ys + y, b)
  {
    assert RowLen(c) == (c.xe - c.xs) * 2;
    assert (y * (c.xe - c.xs) + x) * 2 == y * ((c.xe - c.xs) * 2) + x * 2;
  }

  /** A crop whose row `y` holds the window's row `y` holds each of that
      row's pixels. */
  lemma PixelFromRow(data: seq<byte>, frame: seq<byte>, c: Window, x: nat, y: nat, b: nat)
    requires |frame| == FRAME_BYTES && Readable(c)
    requires x < c.xe - c.xs && y < c.ye - c.ys && b < BYTES_PER_PIXEL
    requires RowHolds(data, frame, c, y)
    ensures PixelCopied(data, frame, c, x, y, b)
  {
    var row := SourceRow(frame, c, y);
    RowInFrame(c, y);
    assert frame[SourceOffset(c, y)..SourceOffset(c, y) + |row|] == row;
    SameRowAt(data, frame, row, y * RowLen(c), SourceOffset(c, y), x * 2 + b);
    PixelOffsets(c, x, y, b);
  }

  /** Every row of `data` is the corresponding row of window `c`. */
  predicate IsCrop(data: seq<byte>, frame: seq<byte>, c: Window)
    requires |frame| == FRAME_BYTES && Readable(c)
  {
    forall y: nat :: y < c.ye - c.ys ==> RowHolds(data, frame, c, y)
  }

  /** Byte `b` of pixel `(x, y)` of a crop of window `c` is byte `b` of
      screen pixel `(xs + x, ys + y)` of the frame. The frame index is the
      row-major one, so for `xs + x >= 800` it is a pixel of the next
      screen row. */
  predicate PixelCopied(data: seq<byte>, frame: seq<byte>, c: Window, x: int, y: int, b: int) {
    && 0 <= PixelIndex(c.xe - c.xs, x, y, b) < |data|
    && 0 <= PixelIndex(H_RES, c.xs + x, c.ys + y, b) < |frame|
    && data[PixelIndex(c.xe - c.xs, x, y, b)] == frame[PixelIndex(H_RES, c.xs + x, c.ys + y, b)]
  }

  /** Every byte of every pixel of window `c` is copied into `data`. */
  predicate AllPixelsCopied(data: seq<byte>, frame: seq<byte>, c: Window) {
    forall x, y, b :: 0 <= x < c.xe - c.xs && 0 <= y < c.ye - c.ys && 0 <= b < BYTES_PER_PIXEL ==>
      PixelCopied(data, frame, c, x, y, b)
  }

  /** The crop loop: the rows of the window, copied one by one. */
  method CropRows(frame: seq<byte>, c: Window) returns (data: seq<byte>)
    requires |frame| == FRAME_BYTES && Readable(c)
    ensures |data| == (c.ye - c.ys) * RowLen(c)
    ensures IsCrop(data, frame, c)
    ensures data == Crop(frame, c, c.ye - c.ys)
  {
    var height: nat := c.ye - c.ys;
    data := [];
    var y: nat := 0;
    while y < height
      invariant y <= height
      invariant data == Crop(frame, c, y)
    {
      data := data + SourceRow(frame, c, y);
      y := y + 1;
    }
    CropLength(frame, c, height);
    forall k: nat | k < height
      ensures RowHolds(data, frame, c, k)
    {
      CropRow(frame, c, height, k);
    }
  }

  /** An `esp_lcd_panel_draw_bitmap` call. */
  datatype Draw = Draw(window: Window, data: seq<byte>)

  /** The draw of window `c`: the window's coordinates and its rows read
      out of the frame. */
  function WindowDraw(c: Window, frame: seq<byte>): (d: Draw)
    requires |frame| == FRAME_BYTES && Readable(c)
    ensures d.window == c && |d.data| == (c.ye - c.ys) * RowLen(c)
    ensures AllPixelsCopied(d.data, frame, c)
  {
    CropPixels(frame, c);
    Draw(c, Crop(frame, c, c.ye - c.ys))
  }

  /** Every byte of every pixel of a crop comes from the frame. */
  lemma CropPixels(frame: seq<byte>, c: Window)
    requires |frame| == FRAME_BYTES && Readable(c)
    ensures |Crop(frame, c, c.ye - c.ys)| == (c.ye - c.ys) * RowLen(c)
    ensures AllPixelsCopied(Crop(frame, c, c.ye - c.ys), frame, c)
  {
    var data := Crop(frame, c, c.ye - c.ys);
    CropLength(frame, c, c.ye - c.ys);
    forall x, y, b | 0 <= x < c.xe - c.xs && 0 <= y < c.ye - c.ys && 0 <= b < BYTES_PER_PIXEL
      ensures PixelCopied(data, frame, c, x, y, b)
    {
      CropRow(frame, c, c.ye - c.ys, y);
      PixelFromRow(data, frame, c, x, y, b);
    }
  }

  /** What `wavesahre_rgb_lcd_display_window` does with a window. */
  datatype WindowOutcome =
    | NotAllocated
    | Drawn(draw: Draw)
    | ReadOutsideFrame

  /** Whether the copy loop reads any byte: it runs for the rows of the
      window and copies the window's width from each. */
  predicate CopiesBytes(c: Window) {
    c.ye > c.ys && c.xe != c.xs
  }

  /** `wavesahre_rgb_lcd_display_window` as written. The window is clipped
      with `ClipAsWritten`, so a window starting left of (or above) the
      screen keeps an end past the screen's edge. Nothing is drawn when
      `malloc` fails (`allocOk` false). When the loop copies nothing the
      clipped window is drawn with no copied bytes. Otherwise each row is
      read from `((ys + y) * 800 + xs) * 2` for the window's width: a row
      wider than the screen runs on into the next screen row, and when the
      last row runs past the end of the frame (or a negative width reaches
      `memcpy`) the read is outside the frame and the outcome is
      `ReadOutsideFrame`. */
  function DisplayWindowAsWritten(w: Window, frame: seq<byte>, allocOk: bool): (out: WindowOutcome)
    requires IsInt16(w.xs) && IsInt16(w.ys) && IsInt16(w.xe) && IsInt16(w.ye)
    requires |frame| == FRAME_BYTES
    ensures out.NotAllocated? <==> !allocOk
    ensures out.ReadOutsideFrame? <==> allocOk && CopiesBytes(ClipAsWritten(w)) && !Readable(ClipAsWritten(w))
    ensures out.Drawn? ==> out.draw.window == ClipAsWritten(w)
    ensures out.Drawn? && !CopiesBytes(ClipAsWritten(w)) ==> out.draw.data == []
    ensures out.Drawn? && CopiesBytes(ClipAsWritten(w)) ==>
              var c := ClipAsWritten(w);
              && |out.draw.data| == (c.ye - c.ys) * RowLen(c)
              && AllPixelsCopied(out.draw.data, frame, c)
  {
    var c := ClipAsWritten(w);
    if !allocOk then NotAllocated
    else if !CopiesBytes(c) then Drawn(Draw(c, []))
    else if !Readable(c) then ReadOutsideFrame
    else Drawn(WindowDraw(c, frame))
  }

  /** Window x from -10 to 900, rows 0 to 100: the start is raised to 0 and
      the end stays at 900, so the draw is 900 pixels wide and pixel 800 of
      the window's first row is the first pixel of the frame's second row. */
  lemma AsWrittenRowsWrap(frame: seq<byte>)
    requires |frame| == FRAME_BYTES
    ensures var out := DisplayWindowAsWritten(Window(-10, 0, 900, 100), frame, true);
            && out.Drawn? && out.draw.window == Window(0, 0, 900, 100)
            && |out.draw.data| == 900 * 100 * 2
            && out.draw.data[PixelIndex(900, 800, 0, 0)] == frame[PixelIndex(H_RES, 0, 1, 0)]
  {
    var c := Window(0, 0, 900, 100);
    assert ClipAsWritten(Window(-10, 0, 900, 100)) == c;
    assert Readable(c);
    var out := DisplayWindowAsWritten(Window(-10, 0, 900, 100), frame, true);
    assert PixelCopied(out.draw.data, frame, c, 800, 0, 0);
  }

  /** The same overhanging window on rows 470 to 480: the last row's copy
      ends at byte 768200 of the 768000-byte frame. */
  lemma AsWrittenReadsPastFrame(frame: seq<byte>)
    requires |frame| == FRAME_BYTES
    ensures DisplayWindowAsWritten(Window(-10, 470, 900, 480), frame, true) == ReadOutsideFrame
    ensures SourceOffset(Window(0, 470, 900, 480), 9) + RowLen(Window(0, 470, 900, 480)) == 768200
  {
    assert ClipAsWritten(Window(-10, 470, 900, 480)) == Window(0, 470, 900, 480);
  }

  /** `wavesahre_rgb_lcd_display_window` with the corrected clipping: the
      window is clipped, its rows are copied out of the frame, and the crop
      is drawn at the clipped coordinates, every byte of every pixel the
      frame's byte at the same screen position. Nothing is drawn when
      `malloc` fails (`allocOk` false). */
  method DisplayWindow(w: Window, frame: seq<byte>, allocOk: bool) returns (draw: Option<Draw>)
    requires IsInt16(w.xs) && IsInt16(w.ys) && IsInt16(w.xe) && IsInt16(w.ye)
    requires |frame| == FRAME_BYTES
    requires Clip(w).xs <= Clip(w).xe && Clip(w).ys <= Clip(w).ye
    ensures draw.Some? <==> allocOk
    ensures draw.Some? ==> draw.value.window == Clip(w)
    ensures draw.Some? ==> |draw.value.data| == (Clip(w).ye - Clip(w).ys) * RowLen(Clip(w))
    ensures draw.Some? ==> forall x, y, b :: 0 <= x < Clip(w).xe - Clip(w).xs && 0 <= y < Clip(w).ye - Clip(w).ys && 0 <= b < BYTES_PER_PIXEL ==>
              PixelCopied(draw.value.data, frame, Clip(w), x, y, b)
    ensures draw.Some? ==> Readable(Clip(w)) && draw.value == WindowDraw(Clip(w), frame)
  {
    var c := Clip(w);
    OnScreenReadable(c);
    if !allocOk {
      return None;
    }
    var data := CropRows(frame, c);
    forall x, y, b | 0 <= x < c.xe - c.xs && 0 <= y < c.ye - c.ys && 0 <= b < BYTES_PER_PIXEL
      ensures PixelCopied(data, frame, c, x, y, b)
    {
      PixelFromRow(data, frame, c, x, y, b);
    }
    draw := Some(Draw(c, data));
  }

  /** When neither end overhangs after a negative start, the code as
      written draws exactly what the corrected clipping draws. */
  lemma DisplayWindowsAgree(w: Window, frame: seq<byte>, allocOk: bool)
    requires IsInt16(w.xs) && IsInt16(w.ys) && IsInt16(w.xe) && IsInt16(w.ye)
    requires |frame| == FRAME_BYTES
    requires Clip(w).xs <= Clip(w).xe && Clip(w).ys <= Clip(w).ye
    requires (w.xs >= 0 || w.xe <= H_RES) && (w.ys >= 0 || w.ye <= V_RES)
    ensures Readable(Clip(w))
    ensures DisplayWindowAsWritten(w, frame, allocOk) ==
              if allocOk then Drawn(WindowDraw(Clip(w), frame)) else NotAllocated
  {
    var c := Clip(w);
    ClipAgreement(w);
    OnScreenReadable(c);
    CropLength(frame, c, c.ye - c.ys);
  }

  /** The whole screen as a window. */
  const FULL: Window := Window(0, 0, H_RES, V_RES)

  /** Cropping the whole screen copies the frame unchanged: its first `n`
      rows are the frame's first `n` rows. */
  lemma {:induction false} FullCropIsFrame(frame: seq<byte>, n: nat)
    requires |frame| == FRAME_BYTES && n <= V_RES
    ensures OnScreen(FULL) && n * RowLen(FULL) <= |frame|
    ensures Crop(frame, FULL, n) == frame[..n * RowLen(FULL)]
  {
    if n > 0 {
      FullCropIsFrame(frame, n - 1);
      var len := RowLen(FULL);
      assert SourceOffset(FULL, n - 1) == (n - 1) * len;
      assert n * len == (n - 1) * len + len;
      assert frame[..n * len] == frame[..(n - 1) * len] + frame[(n - 1) * len..n * len];
    }
  }

  /** `wavesahre_rgb_lcd_display`: the frame handed to the panel as it is.
      It is the draw the window function makes for the whole screen. */
  function Display(frame: seq<byte>): (d: Draw)
    requires |frame| == FRAME_BYTES
    ensures d.window == Clip(FULL)
    ensures d.data == Crop(frame, FULL, V_RES)
  {
    FullCropIsFrame(frame, V_RES);
    Draw(FULL, frame)
  }

  // ---------------------------------------------------------------------
  // Backlight

  /** The backlight is wired to expander line 2. */
  const BACKLIGHT_PIN: nat := IoExtension.IO_2

  /** `wavesahre_rgb_lcd_bl_on`: drives the backlight line high. */
  function BacklightOn(d: IoExtension.Device): (r: (IoExtension.Device, seq<I2cBus.Op>))
    ensures BitSet(r.0.lastIo, BACKLIGHT_PIN)
    ensures forall j :: 0 <= j < 8 && j != BACKLIGHT_PIN ==> (BitSet(r.0.lastIo, j) <==> BitSet(d.lastIo, j))
    ensures r.1 == [I2cBus.Write([IoExtension.REG_OUTPUT, r.0.lastIo])]
  {
    IoExtension.Output(d, BACKLIGHT_PIN, 1)
  }

  /** `wavesahre_rgb_lcd_bl_off`: drives the backlight line low. */
  function BacklightOff(d: IoExtension.Device): (r: (IoExtension.Device, seq<I2cBus.Op>))
    ensures !BitSet(r.0.lastIo, BACKLIGHT_PIN)
    ensures forall j :: 0 <= j < 8 && j != BACKLIGHT_PIN ==> (BitSet(r.0.lastIo, j) <==> BitSet(d.lastIo, j))
    ensures r.1 == [I2cBus.Write([IoExtension.REG_OUTPUT, r.0.lastIo])]
  {
    IoExtension.Output(d, BACKLIGHT_PIN, 0)
  }

  /** Switching the backlight off and on again restores the shadow when it
      was on before. */
  lemma BacklightToggle(d: IoExtension.Device)
    requires BitSet(d.lastIo, BACKLIGHT_PIN)
    ensures BacklightOn(BacklightOff(d).0).0 == d
  {
    var e := BacklightOn(BacklightOff(d).0).0;
    BitsDetermineByte(e.lastIo, d.lastIo);
  }
}
