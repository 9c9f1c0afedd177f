/**
 The GT911 capacitive touch controller driver: the decoder that turns the
 controller's status byte and point records into the driver's touch frame,
 and the frame buffer the LVGL glue drains with `get_xy`.

 The controller is reached through 16-bit register reads and single-byte
 register writes. An operation is given what each read returned (or that
 it failed), and returns its status, the new frame and the transactions
 it issued, in order.

 `ESP_LCD_TOUCH_MAX_POINTS` and `ESP_LCD_TOUCH_MAX_BUTTONS` come from a
 header that is not part of this model; they are the positive parameters
 of a `Config`, and the button code is taken as compiled in.
 */
module Gt911 {
  import opened Bytes
  import opened Optional

  // Registers
  const READ_KEY_REG: nat := 0x8093
  const READ_XY_REG: nat := 0x814E
  const CONFIG_REG: nat := 0x8047
  const PRODUCT_ID_REG: nat := 0x8140
  const ENTER_SLEEP_REG: nat := 0x8040

  /** The number of keys the controller reports. */
  const GT911_MAX_BUTTONS: nat := 4
  /** The most touch points a status byte may announce. */
  const MAX_REPORTED_POINTS: nat := 5
  /** The decoder's stack buffer: the status byte and five 8-byte records. */
  const BUFFER_SIZE: nat := 41

  // I2C addresses
  const ADDRESS: byte := 0x5D
  const ADDRESS_BACKUP: byte := 0x14

  datatype Config = Config(maxPoints: nat, maxButtons: nat)

  predicate ValidConfig(cfg: Config) {
    cfg.maxPoints > 0 && cfg.maxButtons > 0
  }

  /** How many key bytes are read: the controller's four keys, or fewer if
      the frame has fewer button slots. */
  function KeyMax(cfg: Config): (k: nat)
    ensures k <= GT911_MAX_BUTTONS && k <= cfg.maxButtons
    ensures k == GT911_MAX_BUTTONS || k == cfg.maxButtons
  {
    if GT911_MAX_BUTTONS < cfg.maxButtons then GT911_MAX_BUTTONS else cfg.maxButtons
  }

  datatype Point = Point(x: word, y: word, strength: word)

  /** The shared touch frame (`tp->data`): the number of valid points, the
      point slots, the number of valid buttons and the button slots. */
  datatype TouchData = TouchData(points: nat, coords: seq<Point>, buttons: nat, button: seq<byte>)

  predicate ValidData(cfg: Config, d: TouchData) {
    |d.coords| == cfg.maxPoints && |d.button| == cfg.maxButtons
    && d.points <= cfg.maxPoints && d.buttons <= KeyMax(cfg)
  }

  /** A frame as allocated: everything zero. */
  function EmptyData(cfg: Config): (d: TouchData)
    requires ValidConfig(cfg)
    ensures ValidData(cfg, d) && d.points == 0 && d.buttons == 0
  {
    TouchData(0, seq(cfg.maxPoints, _ => Point(0, 0, 0)), 0, seq(cfg.maxButtons, _ => 0))
  }

  datatype Status = Ok | BusError | InvalidArg

  datatype TouchOp =
    | RegRead(reg: nat, len: nat)
    | RegWrite(reg: nat, value: byte)

  /** What the bus returned to each read `read_data` may issue; `None` for
      a read that failed. A successful read returns exactly the bytes asked
      for. `clearOk` is the outcome of the status-clearing write. */
  datatype Replies = Replies(status: Option<byte>, keys: Option<seq<byte>>,
                             records: Option<seq<byte>>, clearOk: bool)

  predicate HasTouch(s: byte) { s & 0x80 != 0 }
  predicate HasKeys(s: byte) { s & 0x10 != 0 }

  /** The point count the status byte announces. */
  function PointCount(s: byte): (c: nat)
    ensures c <= 15
  {
    (s & 0x0F) as nat
  }

  predicate CountAccepted(c: nat) { 1 <= c <= MAX_REPORTED_POINTS }

  predicate RepliesFit(cfg: Config, rp: Replies) {
    && (rp.keys.Some? ==> |rp.keys.value| == KeyMax(cfg))
    && (rp.records.Some? && rp.status.Some? ==> |rp.records.value| == PointCount(rp.status.value) * 8)
  }

  // ---------------------------------------------------------------------
  // Point records

  /** Point `i` of the bytes read from 0x814F. The driver reads them into
      `buf[1..]`, so its `buf[8i+2]` is byte `8i+1` here: record byte 0 is
      the track id and byte 7 is reserved; x, y and strength are
      little-endian words at bytes 1, 3 and 5. */
  function DecodePoint(records: seq<byte>, i: nat): Point
    requires 8 * i + 8 <= |records|
  {
    Point(Word(records[8 * i + 1], records[8 * i + 2]),
          Word(records[8 * i + 3], records[8 * i + 4]),
          Word(records[8 * i + 5], records[8 * i + 6]))
  }

  /** Byte `k` of the record the controller sends for point `p`. */
  function RecordByte(trackId: byte, p: Point, k: nat): byte
    requires k < 8
  {
    match k
    case 0 => trackId
    case 1 => LowByte(p.x)
    case 2 => HighByte(p.x)
    case 3 => LowByte(p.y)
    case 4 => HighByte(p.y)
    case 5 => LowByte(p.strength)
    case 6 => HighByte(p.strength)
    case _ => 0
  }

  /** The records block for a list of points, track ids 0, 1, 2, … */
  function EncodeRecords(ps: seq<Point>): (bs: seq<byte>)
    requires |ps| <= MAX_REPORTED_POINTS
    ensures |bs| == 8 * |ps|
  {
    seq(8 * |ps|, j requires 0 <= j < 8 * |ps| => RecordByte(ByteOf(j / 8), ps[j / 8], j % 8))
  }

  lemma EncodedByte(ps: seq<Point>, i: nat, k: nat)
    requires i < |ps| <= MAX_REPORTED_POINTS && k < 8
    ensures EncodeRecords(ps)[8 * i + k] == RecordByte(ByteOf(i), ps[i], k)
  {
    assert (8 * i + k) / 8 == i && (8 * i + k) % 8 == k;
  }

  /** Decoding the records block the controller sends gives back each
      point. */
  lemma DecodeEncodedPoint(ps: seq<Point>, i: nat)
    requires i < |ps| <= MAX_REPORTED_POINTS
    ensures DecodePoint(EncodeRecords(ps), i) == ps[i]
  {
    var bs := EncodeRecords(ps);
    var p := ps[i];
    EncodedFields(ps, i);
    DecodeRecord(bs, i, p);
  }

  lemma EncodedFields(ps: seq<Point>, i: nat)
    requires i < |ps| <= MAX_REPORTED_POINTS
    ensures EncodeRecords(ps)[8 * i + 1] == LowByte(ps[i].x) && EncodeRecords(ps)[8 * i + 2] == HighByte(ps[i].x)
    ensures EncodeRecords(ps)[8 * i + 3] == LowByte(ps[i].y) && EncodeRecords(ps)[8 * i + 4] == HighByte(ps[i].y)
    ensures EncodeRecords(ps)[8 * i + 5] == LowByte(ps[i].strength) && EncodeRecords(ps)[8 * i + 6] == HighByte(ps[i].strength)
  {
    EncodedByte(ps, i, 1);
    EncodedByte(ps, i, 2);
    EncodedByte(ps, i, 3);
    EncodedByte(ps, i, 4);
    EncodedByte(ps, i, 5);
    EncodedByte(ps, i, 6);
  }

  lemma DecodeRecord(bs: seq<byte>, i: nat, p: Point)
    requires 8 * i + 8 <= |bs|
    requires bs[8 * i + 1] == LowByte(p.x) && bs[8 * i + 2] == HighByte(p.x)
    requires bs[8 * i + 3] == LowByte(p.y) && bs[8 * i + 4] == HighByte(p.y)
    requires bs[8 * i + 5] == LowByte(p.strength) && bs[8 * i + 6] == HighByte(p.strength)
    ensures DecodePoint(bs, i) == p
  {
    WordJoins(p.x);
    WordJoins(p.y);
    WordJoins(p.strength);
  }

  // ---------------------------------------------------------------------
  // read_data

  /** `esp_lcd_touch_gt911_read_data`. */
  function ReadData(cfg: Config, d: TouchData, rp: Replies): (r: (Status, TouchData, seq<TouchOp>))
    requires ValidConfig(cfg) && ValidData(cfg, d) && RepliesFit(cfg, rp)
    ensures ValidData(cfg, r.1)
    // The status read failed: nothing else happens.
    ensures rp.status.None? ==> r == (BusError, d, [RegRead(READ_XY_REG, 1)])
    // No touch data: only the status is cleared, and the frame is untouched.
    ensures rp.status.Some? && !HasTouch(rp.status.value) ==>
              r == (Ok, d, [RegRead(READ_XY_REG, 1), RegWrite(READ_XY_REG, 0)])
    // Keys: key_max key bytes are read and every button reports the first.
    ensures rp.status.Some? && HasTouch(rp.status.value) && HasKeys(rp.status.value) ==>
              && |r.2| >= 2 && r.2[..2] == [RegRead(READ_XY_REG, 1), RegRead(READ_KEY_REG, KeyMax(cfg))]
              && r.1.points == d.points && r.1.coords == d.coords
              && (rp.keys.None? ==> r == (BusError, d, r.2) && |r.2| == 2)
              && (rp.keys.Some? ==>
                    && r.0 == Ok && r.2 == [RegRead(READ_XY_REG, 1), RegRead(READ_KEY_REG, KeyMax(cfg)), RegWrite(READ_XY_REG, 0)]
                    && r.1.buttons == KeyMax(cfg)
                    && (forall i :: 0 <= i < KeyMax(cfg) ==> r.1.button[i] == if rp.keys.value[0] != 0 then 1 else 0)
                    && (forall i :: KeyMax(cfg) <= i < cfg.maxButtons ==> r.1.button[i] == d.button[i]))
    // Touch points: button statuses are cleared whatever the count.
    ensures rp.status.Some? && HasTouch(rp.status.value) && !HasKeys(rp.status.value) ==>
              && r.1.buttons == d.buttons
              && (forall i :: 0 <= i < cfg.maxButtons ==> r.1.button[i] == 0)
              && |r.2| >= 2 && r.2[0] == RegRead(READ_XY_REG, 1)
    // A count of 0 or above 5: status cleared, points kept.
    ensures rp.status.Some? && HasTouch(rp.status.value) && !HasKeys(rp.status.value)
            && !CountAccepted(PointCount(rp.status.value)) ==>
              && r.0 == Ok && r.1.points == d.points && r.1.coords == d.coords
              && r.2 == [RegRead(READ_XY_REG, 1), RegWrite(READ_XY_REG, 0)]
    // An accepted count: count*8 bytes after the status, then the clear.
    ensures rp.status.Some? && HasTouch(rp.status.value) && !HasKeys(rp.status.value)
            && CountAccepted(PointCount(rp.status.value)) ==>
              var c := PointCount(rp.status.value);
              && 1 + c * 8 <= BUFFER_SIZE
              && |r.2| >= 2 && r.2[..2] == [RegRead(READ_XY_REG, 1), RegRead(READ_XY_REG + 1, c * 8)]
              && (rp.records.None? ==> r.0 == BusError && |r.2| == 2)
              && (rp.records.Some? ==> r.2 == [RegRead(READ_XY_REG, 1), RegRead(READ_XY_REG + 1, c * 8), RegWrite(READ_XY_REG, 0)])
              && (rp.records.Some? && !rp.clearOk ==> r.0 == BusError)
              && (r.0 == BusError ==> r.1.points == d.points && r.1.coords == d.coords)
              && (rp.records.Some? && rp.clearOk ==>
                    && r.0 == Ok
                    && r.1.points == (if c > cfg.maxPoints then cfg.maxPoints else c)
                    && (forall i :: 0 <= i < r.1.points ==> r.1.coords[i] == DecodePoint(rp.records.value, i))
                    && (forall i :: r.1.points <= i < cfg.maxPoints ==> r.1.coords[i] == d.coords[i]))
  {
    var statusRead := RegRead(READ_XY_REG, 1);
    var clear := RegWrite(READ_XY_REG, 0);
    match rp.status
    case None => (BusError, d, [statusRead])
    case Some(s) =>
      if !HasTouch(s) then
        (Ok, d, [statusRead, clear])
      else if HasKeys(s) then
        var keyRead := RegRead(READ_KEY_REG, KeyMax(cfg));
        match rp.keys
        case None => (BusError, d, [statusRead, keyRead])
        case Some(keys) =>
          // The clearing write's result is not looked at.
          (Ok, PressKeys(cfg, d, keys[0] != 0), [statusRead, keyRead, clear])
      else
        var released := d.(button := seq(cfg.maxButtons, _ => 0));
        var c := PointCount(s);
        if !CountAccepted(c) then
          (Ok, released, [statusRead, clear])
        else
          var recordRead := RegRead(READ_XY_REG + 1, c * 8);
          match rp.records
          case None => (BusError, released, [statusRead, recordRead])
          case Some(records) =>
            if !rp.clearOk then (BusError, released, [statusRead, recordRead, clear])
            else (Ok, StorePoints(cfg, released, records, c), [statusRead, recordRead, clear])
  }

  /** The key branch's update: `buttons := key_max` and each of the first
      key_max statuses set to whether the first key byte is non-zero. */
  function PressKeys(cfg: Config, d: TouchData, pressed: bool): (d': TouchData)
    requires ValidData(cfg, d)
    ensures ValidData(cfg, d')
    ensures d'.points == d.points && d'.coords == d.coords && d'.buttons == KeyMax(cfg)
    ensures forall i :: 0 <= i < KeyMax(cfg) ==> d'.button[i] == if pressed then 1 else 0
    ensures forall i :: KeyMax(cfg) <= i < cfg.maxButtons ==> d'.button[i] == d.button[i]
  {
    var k := KeyMax(cfg);
    d.(buttons := k,
       button := seq(cfg.maxButtons, i requires 0 <= i < cfg.maxButtons =>
                       if i < k then (if pressed then 1 else 0) else d.button[i]))
  }

  /** The point branch's update: the count clamped to the frame's slots and
      that many points decoded. */
  function StorePoints(cfg: Config, d: TouchData, records: seq<byte>, c: nat): (d': TouchData)
    requires ValidData(cfg, d) && |records| == c * 8
    ensures ValidData(cfg, d')
    ensures d'.buttons == d.buttons && d'.button == d.button
    ensures d'.points == if c > cfg.maxPoints then cfg.maxPoints else c
    ensures forall i :: 0 <= i < d'.points ==> d'.coords[i] == DecodePoint(records, i)
    ensures forall i :: d'.points <= i < cfg.maxPoints ==> d'.coords[i] == d.coords[i]
  {
    var n := if c > cfg.maxPoints then cfg.maxPoints else c;
    d.(points := n,
       coords := seq(cfg.maxPoints, i requires 0 <= i < cfg.maxPoints =>
                       if i < n then DecodePoint(records, i) else d.coords[i]))
  }

  // ---------------------------------------------------------------------
  // get_xy

  /** What `get_xy` hands to its caller. `strength` is `None` when the
      caller passed no strength array. */
  datatype Points = Points(count: nat, x: seq<word>, y: seq<word>, strength: Option<seq<word>>)

  /** `esp_lcd_touch_gt911_get_xy`: at most `maxPointNum` points are copied
      out, and the frame is invalidated. */
  function GetXy(cfg: Config, d: TouchData, wantStrength: bool, maxPointNum: nat): (r: (TouchData, Points, bool))
    requires ValidData(cfg, d)
    requires maxPointNum > 0
    ensures r.1.count == if d.points > maxPointNum then maxPointNum else d.points
    ensures |r.1.x| == |r.1.y| == r.1.count
    ensures forall i :: 0 <= i < r.1.count ==> r.1.x[i] == d.coords[i].x && r.1.y[i] == d.coords[i].y
    ensures r.1.strength.Some? <==> wantStrength
    ensures wantStrength ==> |r.1.strength.value| == r.1.count
                             && forall i :: 0 <= i < r.1.count ==> r.1.strength.value[i] == d.coords[i].strength
    ensures r.0 == d.(points := 0)
    ensures ValidData(cfg, r.0)
    ensures r.2 <==> r.1.count > 0
  {
    var n := if d.points > maxPointNum then maxPointNum else d.points;
    var xs := seq(n, i requires 0 <= i < n => d.coords[i].x);
    var ys := seq(n, i requires 0 <= i < n => d.coords[i].y);
    var ss := if wantStrength then Some(seq(n, i requires 0 <= i < n => d.coords[i].strength)) else None;
    (d.(points := 0), Points(n, xs, ys, ss), n > 0)
  }

  /** A frame is handed out once: a second `get_xy` without a `read_data` in
      between reports no points. */
  lemma GetXyConsumes(cfg: Config, d: TouchData, s1: bool, m1: nat, s2: bool, m2: nat)
    requires ValidData(cfg, d) && m1 > 0 && m2 > 0
    ensures var first := GetXy(cfg, d, s1, m1);
            var second := GetXy(cfg, first.0, s2, m2);
            second.1.count == 0 && !second.2 && second.0 == first.0
  {
  }

  /** Touch points decoded by `read_data` come out of `get_xy` unchanged, as
      many as both the frame and the caller allow. */
  lemma ReadThenGetXy(cfg: Config, d: TouchData, rp: Replies, maxPointNum: nat)
    requires ValidConfig(cfg) && ValidData(cfg, d) && RepliesFit(cfg, rp)
    requires maxPointNum > 0
    requires rp.status.Some? && HasTouch(rp.status.value) && !HasKeys(rp.status.value)
    requires CountAccepted(PointCount(rp.status.value))
    requires rp.records.Some? && rp.clearOk
    ensures var frame := ReadData(cfg, d, rp).1;
            var out := GetXy(cfg, frame, false, maxPointNum).1;
            var c := PointCount(rp.status.value);
            && out.count == Min(Min(c, cfg.maxPoints), maxPointNum)
            && forall i :: 0 <= i < out.count ==>
                 out.x[i] == DecodePoint(rp.records.value, i).x && out.y[i] == DecodePoint(rp.records.value, i).y
  {
  }

  function Min(a: nat, b: nat): nat {
    if a < b then a else b
  }

  // ---------------------------------------------------------------------
  // get_button_state

  /** The outcome of reading button `n`. `OutOfBounds` stands for a read
      past the end of the frame's button array. */
  datatype ButtonResult = ButtonOk(state: byte) | ButtonInvalid | OutOfBounds

  /** `esp_lcd_touch_gt911_get_button_state` as written: the guard rejects
      only `n > buttons`, so `n == buttons` reads slot `buttons`, which is
      past the array when every slot is in use. */
  function GetButtonStateAsWritten(cfg: Config, d: TouchData, n: byte): (r: ButtonResult)
    requires ValidData(cfg, d)
    ensures r.ButtonInvalid? <==> n as nat > d.buttons
    ensures r.OutOfBounds? <==> n as nat <= d.buttons && n as nat >= cfg.maxButtons
    ensures r.ButtonOk? ==> r.state == d.button[n]
  {
    if n as nat > d.buttons then ButtonInvalid
    else if n as nat >= cfg.maxButtons then OutOfBounds
    else ButtonOk(d.button[n])
  }

  /** With four button slots, a key frame sets `buttons` to 4, and asking
      for button 4 gets past the guard and off the end of the array. */
  lemma ButtonGuardOffByOne()
    ensures var cfg := Config(5, 4);
            var frame := ReadData(cfg, EmptyData(cfg), Replies(Some(0x90), Some([1, 0, 0, 0]), None, true)).1;
            GetButtonStateAsWritten(cfg, frame, 4).OutOfBounds?
  {
    var cfg := Config(5, 4);
    var frame := ReadData(cfg, EmptyData(cfg), Replies(Some(0x90), Some([1, 0, 0, 0]), None, true)).1;
    assert HasTouch(0x90) && HasKeys(0x90);
    assert frame.buttons == 4;
  }

  /** With five button slots a key frame still sets `buttons` to 4 and
      writes only slots 0..3, yet asking for button 4 gets past the guard
      and returns slot 4, which no key frame ever writes. */
  lemma ButtonGuardReadsUnwrittenSlot()
    ensures var cfg := Config(5, 5);
            var before := EmptyData(cfg).(button := [0, 0, 0, 0, 7]);
            var frame := ReadData(cfg, before, Replies(Some(0x90), Some([1, 0, 0, 0]), None, true)).1;
            frame.buttons == 4 && GetButtonStateAsWritten(cfg, frame, 4) == ButtonOk(7)
  {
    var cfg := Config(5, 5);
    var before := EmptyData(cfg).(button := [0, 0, 0, 0, 7]);
    var frame := ReadData(cfg, before, Replies(Some(0x90), Some([1, 0, 0, 0]), None, true)).1;
    assert HasTouch(0x90) && HasKeys(0x90);
    assert frame.buttons == 4;
    assert frame.button[4] == 7;
  }

  /** `get_button_state` with the guard the bounds require, `n >= buttons`:
      every accepted index names a button the last key frame reported. */
  function GetButtonState(cfg: Config, d: TouchData, n: byte): (r: ButtonResult)
    requires ValidData(cfg, d)
    ensures r.ButtonInvalid? <==> n as nat >= d.buttons
    ensures !r.OutOfBounds?
    ensures r.ButtonOk? ==> n as nat < d.buttons && r.state == d.button[n]
  {
    if n as nat >= d.buttons then ButtonInvalid else ButtonOk(d.button[n])
  }

  /** The corrected guard agrees with the original on every index except
      `n == buttons`. */
  lemma ButtonGuardsAgree(cfg: Config, d: TouchData, n: byte)
    requires ValidData(cfg, d)
    requires n as nat != d.buttons
    ensures GetButtonState(cfg, d, n) == GetButtonStateAsWritten(cfg, d, n)
  {
  }

  // ---------------------------------------------------------------------
  // Sleep and address selection

  /** `esp_lcd_touch_gt911_enter_sleep`: the single byte 0x05 to the sleep
      register; the write's failure is the operation's failure. */
  function EnterSleep(writeOk: bool): (r: (Status, seq<TouchOp>))
    ensures r.1 == [RegWrite(ENTER_SLEEP_REG, 0x05)]
    ensures r.0 == Ok <==> writeOk
    ensures r.0 != InvalidArg
  {
    (if writeOk then Ok else BusError, [RegWrite(ENTER_SLEEP_REG, 0x05)])
  }

  /** The level driven on the INT line during reset to select the I2C
      address, and whether the address was reported invalid. */
  function AddressSelectLevel(addr: byte): (r: (nat, bool))
    ensures r.0 == 1 <==> addr == ADDRESS_BACKUP
    ensures r.0 == 0 <==> addr != ADDRESS_BACKUP
    ensures r.1 <==> addr != ADDRESS_BACKUP && addr != ADDRESS
  {
    if addr == ADDRESS_BACKUP then (1, false)
    else if addr == ADDRESS then (0, false)
    else (0, true)
  }
}
