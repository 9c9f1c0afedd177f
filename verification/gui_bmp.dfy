/**
 The BMP loader of the paint library: the RGB565 packing macro, the
 per-pixel colour extraction for each supported bit depth, the row stride,
 and the bottom-up mapping of file rows to screen lines.

 The file system and the frame buffer are not modelled: the file's bytes
 are a parameter, and drawing produces the pixels `Paint_SetPixel` is
 called with, row by row in file order. Multi-byte header fields are read
 little-endian, as the packed structs are on the target.
 */
module GuiBmp {
  import opened Bytes
  import opened Optional

  /** `RGB(r, g, b)`: the top five bits of red, six of green and five of
      blue packed into an RGB565 word. */
  function Rgb(r: byte, g: byte, b: byte): (c: word)
    ensures c >> 11 == (r >> 3) as word
    ensures (c >> 5) & 0x3F == (g >> 2) as word
    ensures c & 0x1F == (b >> 3) as word
  {
    (((r >> 3) as word) << 11) | (((g >> 2) as word) << 5) | ((b >> 3) as word)
  }

  /** The 8-bit channels an RGB565 colour stands for, with the dropped low
      bits zero. */
  function Red8(c: word): byte { ((c >> 11) << 3) as byte }
  function Green8(c: word): byte { (((c >> 5) & 0x3F) << 2) as byte }
  function Blue8(c: word): byte { ((c & 0x1F) << 3) as byte }

  /** Every RGB565 colour is `RGB` of its own expanded channels: the macro
      loses only the low bits it drops. */
  lemma RgbRoundTrip(c: word)
    ensures Rgb(Red8(c), Green8(c), Blue8(c)) == c
  {
  }

  /** Two inputs differing only in the bits the macro drops give the same
      colour. */
  lemma RgbIgnoresLowBits(r: byte, g: byte, b: byte)
    ensures Rgb(r, g, b) == Rgb(r & 0xF8, g & 0xFC, b & 0xF8)
  {
  }

  lemma RgbExtremes()
    ensures Rgb(255, 255, 255) == 0xFFFF
    ensures Rgb(0, 0, 0) == 0
  {
  }

  // ---------------------------------------------------------------------
  // Headers

  /** The header fields the loader uses. */
  datatype BmpHeader = BmpHeader(offset: nat, infoSize: nat, width: nat, height: nat,
                                 bitCount: nat, compression: nat)

  /** Both headers: a 14-byte file header and a 40-byte info header. */
  const HEADERS_SIZE: nat := 54

  function U16At(file: seq<byte>, i: nat): (v: nat)
    requires i + 2 <= |file|
    ensures v < 0x1_0000
  {
    file[i] as nat + 0x100 * file[i + 1] as nat
  }

  function U32At(file: seq<byte>, i: nat): (v: nat)
    requires i + 4 <= |file|
    ensures v < TWO_32
  {
    U16At(file, i) + 0x1_0000 * U16At(file, i + 2)
  }

  /** The packed `BMPFILEHEADER` and `BMPINF` fields at their offsets. */
  function ParseHeader(file: seq<byte>): (h: BmpHeader)
    requires |file| >= HEADERS_SIZE
    ensures h.offset == U32At(file, 10)
    ensures h.infoSize == U32At(file, 14) && h.width == U32At(file, 18) && h.height == U32At(file, 22)
    ensures h.bitCount == U16At(file, 28) && h.compression == U32At(file, 30)
  {
    BmpHeader(U32At(file, 10), U32At(file, 14), U32At(file, 18), U32At(file, 22),
              U16At(file, 28), U32At(file, 30))
  }

  /** `((bWidth * bBitCount + 31) / 32) * 4`, computed in 32-bit unsigned
      arithmetic: rows are padded to whole 32-bit words. */
  function RowBytes(width: nat, bitCount: nat): (n: nat)
    requires width < TWO_32 && bitCount < 0x1_0000
  {
    Stride(width * bitCount)
  }

  /** The 4-byte-aligned size of a row of `bits` bits, in 32-bit unsigned
      arithmetic. */
  function Stride(bits: nat): nat {
    (((bits + 31) % TWO_32) / 32) * 4
  }

  /** Without 32-bit wrap-around the stride is the row's bits rounded up to
      a whole number of 4-byte words. */
  lemma RowBytesPadding(width: nat, bitCount: nat)
    requires width < TWO_32 && bitCount < 0x1_0000
    requires width * bitCount + 31 < TWO_32
    ensures RowBytes(width, bitCount) % 4 == 0
    ensures RowBytes(width, bitCount) * 8 >= width * bitCount
    ensures RowBytes(width, bitCount) * 8 < width * bitCount + 32
  {
    WordPadding(width * bitCount);
  }

  lemma WordPadding(bits: nat)
    requires bits + 31 < TWO_32
    ensures Stride(bits) % 4 == 0
    ensures Stride(bits) * 8 >= bits
    ensures Stride(bits) * 8 < bits + 32
  {
    var q := (bits + 31) / 32;
    assert (bits + 31) % TWO_32 == bits + 31;
    assert q * 32 <= bits + 31 < q * 32 + 32;
  }

  // ---------------------------------------------------------------------
  // Pixel colours

  /** A palette entry. */
  datatype RgbQuad = RgbQuad(blue: byte, green: byte, red: byte)

  /** Entry `index` of the 4- and 8-bit palette: a static table of 256
      entries that nothing ever fills, so every entry stays zero. */
  function PaletteEntry(index: byte): RgbQuad {
    RgbQuad(0, 0, 0)
  }

  /** One past the last byte of row data that pixel `col` reads at a
      given depth; an unsupported depth reads nothing. */
  function PixelEnd(bitCount: nat, col: nat): nat {
    match bitCount
    case 1 => col / 8 + 1
    case 4 => col / 2 + 1
    case 8 => col + 1
    case 16 => 2 * col + 2
    case 24 => 3 * col + 3
    case 32 => 4 * col + 4
    case _ => 0
  }

  lemma PixelEndMonotone(bitCount: nat, a: nat, b: nat)
    requires a <= b
    ensures PixelEnd(bitCount, a) <= PixelEnd(bitCount, b)
  {
  }

  /** The XRGB1555 to RGB565 conversion: red and blue keep their five
      bits and green is rescaled from five bits to six. */
  function Xrgb1555To565(pixel: word): (c: word)
    ensures c >> 11 == (pixel >> 10) & 0x1F
    ensures (c >> 5) & 0x3F == ((pixel >> 5) & 0x1F) * 0x3F / 0x1F
    ensures c & 0x1F == pixel & 0x1F
  {
    ((((pixel >> 10) & 0x1F) * 0x1F / 0x1F) << 11) |
    ((((pixel >> 5) & 0x1F) * 0x3F / 0x1F) << 5) |
    ((pixel & 0x1F) * 0x1F / 0x1F)
  }

  /** `ExtractPixelColor`: the colour of pixel `col` of one row of pixel
      data. 1-bit pixels are white or black, high bit first; 4- and 8-bit
      pixels look up the palette; 16-bit pixels are taken as RGB565 when the
      info header is 0x38 bytes, converted from XRGB1555 when it is 0x28
      bytes and uncompressed, and are black otherwise; 24- and 32-bit pixels
      are stored blue, green, red (and alpha, ignored). An unsupported depth
      gives black. */
  function ExtractPixelColor(row: seq<byte>, col: nat, bitCount: nat, infoSize: nat, compression: nat): (c: word)
    requires PixelEnd(bitCount, col) <= |row|
    ensures bitCount == 1 ==> (c == 0xFFFF <==> BitSet(row[col / 8], 7 - col % 8)) && (c == 0xFFFF || c == 0)
    ensures bitCount == 24 ==> c == Rgb(row[3 * col + 2], row[3 * col + 1], row[3 * col])
    ensures bitCount == 32 ==> c == Rgb(row[4 * col + 2], row[4 * col + 1], row[4 * col])
    ensures bitCount == 16 && infoSize == 0x38 ==> c == Word(row[2 * col], row[2 * col + 1])
    ensures bitCount == 16 && infoSize == 0x28 && compression == 0 ==> c == Xrgb1555To565(Word(row[2 * col], row[2 * col + 1]))
    ensures bitCount == 16 && infoSize != 0x38 && (infoSize != 0x28 || compression != 0) ==> c == 0
    ensures bitCount !in {1, 4, 8, 16, 24, 32} ==> c == 0
  {
    match bitCount
    case 1 => if BitSet(row[col / 8], 7 - col % 8) then 0xFFFF else 0x0000
    case 4 =>
      var index := (row[col / 2] >> (if col % 2 == 0 then 4 else 0)) & 0x0F;
      Rgb(PaletteEntry(index).red, PaletteEntry(index).green, PaletteEntry(index).blue)
    case 8 =>
      Rgb(PaletteEntry(row[col]).red, PaletteEntry(row[col]).green, PaletteEntry(row[col]).blue)
    case 16 =>
      var pixel := Word(row[2 * col], row[2 * col + 1]);
      if infoSize == 0x38 then pixel
      else if infoSize == 0x28 && compression == 0 then Xrgb1555To565(pixel)
      else 0
    case 24 => Rgb(row[3 * col + 2], row[3 * col + 1], row[3 * col])
    case 32 => Rgb(row[4 * col + 2], row[4 * col + 1], row[4 * col])
    case _ => 0
  }

  /** Because the palette is never loaded, 4- and 8-bit images come out
      entirely black. */
  lemma PaletteImagesBlack(row: seq<byte>, col: nat, bitCount: nat, infoSize: nat, compression: nat)
    requires bitCount == 4 || bitCount == 8
    requires PixelEnd(bitCount, col) <= |row|
    ensures ExtractPixelColor(row, col, bitCount, infoSize, compression) == 0
  {
    RgbExtremes();
  }

  /** A 32-bit pixel's alpha byte has no effect on its colour. */
  lemma AlphaIgnored(row: seq<byte>, col: nat, alpha: byte, infoSize: nat, compression: nat)
    requires PixelEnd(32, col) <= |row|
    ensures ExtractPixelColor(row[4 * col + 3 := alpha], col, 32, infoSize, compression)
            == ExtractPixelColor(row, col, 32, infoSize, compression)
  {
  }

  /** A 24-bit pixel whose channel bytes are those of an RGB565 colour's
      expansion decodes back to that colour. */
  lemma TrueColourRoundTrip(row: seq<byte>, col: nat, c: word, infoSize: nat, compression: nat)
    requires PixelEnd(24, col) <= |row|
    requires row[3 * col] == Blue8(c) && row[3 * col + 1] == Green8(c) && row[3 * col + 2] == Red8(c)
    ensures ExtractPixelColor(row, col, 24, infoSize, compression) == c
  {
    RgbRoundTrip(c);
  }

  // ---------------------------------------------------------------------
  // Drawing

  /** A `Paint_SetPixel(x, y, color)` call; the coordinates are the
      `UWORD` values it receives. */
  datatype Pixel = Pixel(x: nat, y: nat, color: word)

  const UWORD_RANGE: nat := 0x1_0000

  /** Where file row `row` starts. */
  function RowStart(h: BmpHeader, row: nat): nat
    requires h.width < TWO_32 && h.bitCount < 0x1_0000
  {
    h.offset + row * RowBytes(h.width, h.bitCount)
  }

  /** `(UWORD)(col + Xstart)`. */
  function ScreenX(xstart: nat, col: nat): (x: nat)
    requires xstart < UWORD_RANGE
    ensures x < UWORD_RANGE
    ensures xstart + col < UWORD_RANGE ==> x == xstart + col
  {
    (xstart + col) % UWORD_RANGE
  }

  /** `(UWORD)(Ystart + bHeight - row - 1)`: rows are stored bottom-up. */
  function ScreenY(ystart: nat, height: nat, row: nat): (y: nat)
    requires ystart < UWORD_RANGE && row < height
    ensures y < UWORD_RANGE
  {
    (ystart + height - row - 1) % UWORD_RANGE
  }

  /** The first file row lands on the last screen line and the last file
      row on the first; while the image fits below line 65536 no two rows
      share a line. */
  lemma RowsFlip(ystart: nat, height: nat, r1: nat, r2: nat)
    requires r1 < height && r2 < height
    requires ystart + height <= UWORD_RANGE
    ensures ScreenY(ystart, height, r1) == ystart + height - 1 - r1
    ensures r1 != r2 ==> ScreenY(ystart, height, r1) != ScreenY(ystart, height, r2)
    ensures ScreenY(ystart, height, height - 1) == ystart
  {
  }

  /** The loader reads headers and pixels without checking the file's
      length: every byte it reads must be there. */
  predicate PixelsInFile(file: seq<byte>)
  {
    |file| >= HEADERS_SIZE && RowsInFile(file, ParseHeader(file))
  }

  /** Every row's last pixel lies inside the file. */
  predicate RowsInFile(file: seq<byte>, h: BmpHeader)
    requires h.width < TWO_32 && h.bitCount < 0x1_0000
  {
    h.width > 0 ==>
      forall row :: 0 <= row < h.height ==> RowStart(h, row) + PixelEnd(h.bitCount, h.width - 1) <= |file|
  }

  /** The pixel `GUI_ReadBmp` sets for column `col` of file row `row`. */
  function PixelAt(file: seq<byte>, xstart: nat, ystart: nat, row: nat, col: nat): (p: Pixel)
    requires PixelsInFile(file) && xstart < UWORD_RANGE && ystart < UWORD_RANGE
    requires row < ParseHeader(file).height && col < ParseHeader(file).width
  {
    var h := ParseHeader(file);
    var start := RowStart(h, row);
    PixelEndMonotone(h.bitCount, col, h.width - 1);
    Pixel(ScreenX(xstart, col), ScreenY(ystart, h.height, row),
          ExtractPixelColor(file[start..], col, h.bitCount, h.infoSize, h.compression))
  }

  /** The drawing loops of `GUI_ReadBmp`: one sequence of pixels per file
      row, in file order. */
  method DrawImage(file: seq<byte>, xstart: nat, ystart: nat) returns (rows: seq<seq<Pixel>>)
    requires PixelsInFile(file) && xstart < UWORD_RANGE && ystart < UWORD_RANGE
    ensures |rows| == ParseHeader(file).height
    ensures forall row :: 0 <= row < |rows| ==> |rows[row]| == ParseHeader(file).width
    ensures forall row, col :: 0 <= row < |rows| && 0 <= col < |rows[row]| ==>
              rows[row][col] == PixelAt(file, xstart, ystart, row, col)
  {
    var h := ParseHeader(file);
    rows := [];
    var row := 0;
    while row < h.height
      invariant row == |rows| <= h.height
      invariant forall r :: 0 <= r < row ==> |rows[r]| == h.width
      invariant forall r, c :: 0 <= r < row && 0 <= c < |rows[r]| ==> rows[r][c] == PixelAt(file, xstart, ystart, r, c)
    {
      var line := [];
      var col := 0;
      while col < h.width
        invariant col == |line| <= h.width
        invariant forall c :: 0 <= c < col ==> line[c] == PixelAt(file, xstart, ystart, row, c)
      {
        line := line + [PixelAt(file, xstart, ystart, row, col)];
        col := col + 1;
      }
      rows := rows + [line];
      row := row + 1;
    }
  }

  /** `GUI_ReadBmp`: 0 when the file cannot be opened or the buffer cannot
      be allocated, else 1 after drawing every pixel. `file` is `None` when
      `fopen` fails; `allocOk` is whether `malloc` succeeds. */
  method ReadBmp(file: Option<seq<byte>>, allocOk: bool, xstart: nat, ystart: nat)
    returns (status: byte, rows: seq<seq<Pixel>>)
    requires xstart < UWORD_RANGE && ystart < UWORD_RANGE
    requires file.Some? && allocOk ==> PixelsInFile(file.value)
    ensures status == 1 <==> file.Some? && allocOk
    ensures status == 0 ==> rows == []
    ensures status == 1 ==> |rows| == ParseHeader(file.value).height
    ensures status == 1 ==> forall row :: 0 <= row < |rows| ==> |rows[row]| == ParseHeader(file.value).width
    ensures status == 1 ==> forall row, col :: 0 <= row < |rows| && 0 <= col < |rows[row]| ==>
              rows[row][col] == PixelAt(file.value, xstart, ystart, row, col)
  {
    if file.None? || !allocOk {
      return 0, [];
    }
    rows := DrawImage(file.value, xstart, ystart);
    status := 1;
  }
}
