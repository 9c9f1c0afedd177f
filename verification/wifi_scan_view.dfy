/**
 The Wi-Fi scan examples' result lists: each network name is drawn in the
 right half of the screen, one 24-pixel row per name, except names holding
 a byte with the high bit set (taken to be Chinese text, which the font
 cannot draw), which are skipped without leaving a gap.

 A name is the raw SSID buffer as bytes; the text is what precedes its
 first NUL. The scan itself (the radio, the driver's AP records, the
 serial table) is a parameter.
 */
module WifiScanView {
  import opened Bytes

  /** The ESP-IDF example's AP record table. */
  const SCAN_LIST_SIZE: nat := 15
  /** The Arduino example draws only the first 20 networks. */
  const ARDUINO_DRAW_LIMIT: nat := 20
  const ROW_HEIGHT: nat := 24
  const LIST_X: nat := 440
  const SCREEN_HEIGHT: nat := 480

  /** A byte outside 7-bit ASCII. */
  predicate HighBit(b: byte) {
    b & 0x80 != 0
  }

  lemma HighBitIsNonAscii(b: byte)
    ensures HighBit(b) <==> b as int >= 0x80
  {
  }

  /** `contains_chinese`: walks the string up to its NUL and answers true
      at the first byte with the high bit set. */
  function ContainsNonAscii(s: seq<byte>): (r: bool)
    ensures r <==> exists k :: 0 <= k < |CText(s)| && HighBit(CText(s)[k])
  {
    if |s| == 0 || s[0] == 0 then false
    else if HighBit(s[0]) then
      assert CText(s)[0] == s[0];
      true
    else
      var rest := ContainsNonAscii(s[1..]);
      assert CText(s) == [s[0]] + CText(s[1..]);
      if rest then
        var k :| 0 <= k < |CText(s[1..])| && HighBit(CText(s[1..])[k]);
        assert CText(s)[k + 1] == CText(s[1..])[k];
        rest
      else
        assert forall k :: 1 <= k < |CText(s)| ==> CText(s)[k] == CText(s[1..])[k - 1];
        rest
  }

  /** The empty string and an all-zero buffer hold no such byte; a high
      byte after the NUL does not count. */
  lemma ContainsNonAsciiExamples()
    ensures !ContainsNonAscii([])
    ensures !ContainsNonAscii([0, 0, 0])
    ensures ContainsNonAscii([0x41, 0xE4, 0xB8])
    ensures !ContainsNonAscii([0x41, 0, 0xE4])
  {
  }

  /** A drawn name: the row's top edge and the text. */
  datatype Row = Row(y: int, text: seq<byte>)

  /** The names that are drawn, in scan order: the independent description
      the layout is checked against. */
  function Kept(names: seq<seq<byte>>): (k: seq<seq<byte>>)
    ensures |k| <= |names|
    ensures forall j :: 0 <= j < |k| ==> !ContainsNonAscii(k[j])
  {
    if |names| == 0 then []
    else
      var init := Kept(names[..|names| - 1]);
      var last := names[|names| - 1];
      if ContainsNonAscii(last) then init else init + [last]
  }

  /** The number of skipped names. */
  function Skipped(names: seq<seq<byte>>): (n: nat)
    ensures n + |Kept(names)| == |names|
  {
    if |names| == 0 then 0
    else Skipped(names[..|names| - 1]) + (if ContainsNonAscii(names[|names| - 1]) then 1 else 0)
  }

  /** The drawing loop shared by both examples: every name is examined in
      order; a skipped one counts in `chinese_num`, a drawn one goes to
      row `(i - chinese_num) * 24`. The rows come out gap-free: the k-th
      drawn name is on row k. */
  method Layout(names: seq<seq<byte>>) returns (rows: seq<Row>)
    requires |names| < 256
    ensures |rows| == |Kept(names)|
    ensures forall k :: 0 <= k < |rows| ==> rows[k] == Row(k * ROW_HEIGHT, CText(Kept(names)[k]))
  {
    rows := [];
    var skipped: nat := 0;
    var i := 0;
    while i < |names|
      invariant i <= |names|
      invariant skipped == Skipped(names[..i]) && |rows| == |Kept(names[..i])|
      invariant forall k :: 0 <= k < |rows| ==> rows[k] == Row(k * ROW_HEIGHT, CText(Kept(names[..i])[k]))
    {
      assert names[..i + 1][..i] == names[..i];
      if ContainsNonAscii(names[i]) {
        skipped := skipped + 1;
      } else {
        rows := rows + [Row((i - skipped) * ROW_HEIGHT, CText(names[i]))];
      }
      i := i + 1;
    }
    assert names[..i] == names;
  }

  /** The row the loop computes for a drawn name i, `(i - chinese_num) * 24`
      with `chinese_num` counted over the names before it, is the row of
      its place among the drawn names. */
  lemma RowOfName(names: seq<seq<byte>>, i: nat)
    requires i < |names| && !ContainsNonAscii(names[i])
    ensures (i - Skipped(names[..i])) * ROW_HEIGHT == |Kept(names[..i])| * ROW_HEIGHT
    ensures Kept(names[..i + 1]) == Kept(names[..i]) + [names[i]]
  {
    assert names[..i + 1][..i] == names[..i];
  }

  /** The ESP-IDF example: all 15 records are examined whatever the scan
      found; records the scan did not fill are zero, so they are drawn as
      empty names. */
  method EspScanScreen(apInfo: seq<seq<byte>>) returns (rows: seq<Row>)
    requires |apInfo| == SCAN_LIST_SIZE
    ensures |rows| == |Kept(apInfo)| <= SCAN_LIST_SIZE
    ensures forall k :: 0 <= k < |rows| ==> rows[k] == Row(k * ROW_HEIGHT, CText(Kept(apInfo)[k]))
    ensures forall k :: 0 <= k < |rows| ==> rows[k].y + ROW_HEIGHT <= SCREEN_HEIGHT
  {
    rows := Layout(apInfo);
  }

  /** The Arduino example: `n` is what the scan returned (negative on a
      failed scan, in which case the loop does not run); with no networks
      nothing is drawn, otherwise only the first 20 are considered. */
  method ArduinoScanScreen(n: int, ssids: seq<seq<byte>>) returns (rows: seq<Row>)
    requires n <= 0 || |ssids| == n
    ensures n <= 0 ==> rows == []
    ensures n > 0 ==> |rows| == |Kept(ssids[..Min(n, ARDUINO_DRAW_LIMIT)])|
    ensures n > 0 ==> forall k :: 0 <= k < |rows| ==>
      rows[k] == Row(k * ROW_HEIGHT, CText(Kept(ssids[..Min(n, ARDUINO_DRAW_LIMIT)])[k]))
    ensures forall k :: 0 <= k < |rows| ==> rows[k].y + ROW_HEIGHT <= SCREEN_HEIGHT
  {
    if n <= 0 {
      return [];
    }
    rows := Layout(ssids[..Min(n, ARDUINO_DRAW_LIMIT)]);
  }

  function Min(a: int, b: int): int {
    if a < b then a else b
  }

  /** A network past the 20th is never drawn, whatever its name. */
  lemma LaterNetworksIgnored(ssids: seq<seq<byte>>, other: seq<seq<byte>>)
    requires |ssids| > ARDUINO_DRAW_LIMIT && |other| == |ssids|
    requires ssids[..ARDUINO_DRAW_LIMIT] == other[..ARDUINO_DRAW_LIMIT]
    ensures Kept(ssids[..Min(|ssids|, ARDUINO_DRAW_LIMIT)]) == Kept(other[..Min(|other|, ARDUINO_DRAW_LIMIT)])
  {
  }

  /** Skipping a name moves every later name up one row: the names are
      drawn as if the skipped one was not in the list. */
  lemma {:induction false} SkippedLeavesNoTrace(names: seq<seq<byte>>, i: nat)
    requires i < |names| && ContainsNonAscii(names[i])
    ensures Kept(names) == Kept(names[..i] + names[i + 1..])
    decreases |names|
  {
    var last := |names| - 1;
    if i == last {
      assert names[..last] == names[..i] + names[i + 1..];
    } else {
      var init := names[..last];
      SkippedLeavesNoTrace(init, i);
      var shorter := names[..i] + names[i + 1..];
      assert shorter[..|shorter| - 1] == init[..i] + init[i + 1..];
      assert shorter[|shorter| - 1] == names[last];
    }
  }
}
