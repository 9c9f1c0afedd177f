/**
 The PCF85063A real-time-clock codec, in both of the board's driver copies
 (the Arduino one and the ESP-IDF one), which differ only in the parameter
 type of `decToBcd` and in how many bytes `Read_Alarm` reads.

 The driver writes BCD bytes in bursts starting at a register and reads
 them back masked. The chip is modelled as 18 plain byte registers
 (0x00..0x11) that a burst write overwrites in order and a burst read
 returns. That is enough to state the codec's round trips; the chip's own
 clock, its treatment of invalid BCD and its interrupt logic are not
 modelled.
 */
module Pcf85063a {
  import opened Bytes
  import opened I2cBus
  import Text
  import Optional

  const ADDRESS: byte := 0x51
  /** The year stored in the year register is counted from here. */
  const YEAR_OFFSET: word := 1970

  // Control and status registers
  const CTRL_1_ADDR: byte := 0x00
  const CTRL_2_ADDR: byte := 0x01
  const OFFSET_ADDR: byte := 0x02
  const RAM_BYTE_ADDR: byte := 0x03
  // Time and date registers, in burst order
  const SECOND_ADDR: byte := 0x04
  const MINUTE_ADDR: byte := 0x05
  const HOUR_ADDR: byte := 0x06
  const DAY_ADDR: byte := 0x07
  const WDAY_ADDR: byte := 0x08
  const MONTH_ADDR: byte := 0x09
  const YEAR_ADDR: byte := 0x0A
  // Alarm registers, in burst order
  const SECOND_ALARM: byte := 0x0B
  const MINUTE_ALARM: byte := 0x0C
  const HOUR_ALARM: byte := 0x0D
  const DAY_ALARM: byte := 0x0E
  const WDAY_ALARM: byte := 0x0F
  // Timer registers
  const TIMER_VAL: byte := 0x10
  const TIMER_MODE: byte := 0x11

  /** Registers 0x00 through 0x11. */
  const REGISTER_COUNT: nat := 18

  // Control register 1 bits
  const CTRL_1_EXT_TEST: byte := 0x80
  const CTRL_1_STOP: byte := 0x20
  const CTRL_1_SR: byte := 0x10
  const CTRL_1_CIE: byte := 0x04
  const CTRL_1_CAP_SEL: byte := 0x01
  // Control register 2 bits
  const CTRL_2_AIE: byte := 0x80
  const CTRL_2_AF: byte := 0x40
  const CTRL_2_MI: byte := 0x20
  const CTRL_2_HMI: byte := 0x10
  const CTRL_2_TF: byte := 0x08

  /** Bit 7 of an alarm register: set means "do not match this field". */
  const ALARM_DISABLE: byte := 0x80
  const CTRL_1_DEFAULT: byte := 0x00
  const CTRL_2_DEFAULT: byte := 0x00

  /** `datetime_t`: a 16-bit year and 8-bit other fields. The weekday runs
      from 0 (Sunday) to 6 (Saturday). */
  datatype Datetime = Datetime(year: word, month: byte, day: byte, dotw: byte,
                               hour: byte, min: byte, sec: byte)

  /** The two driver copies. */
  datatype Port = Arduino | EspIdf

  /** A calendar-valid time of day and date, leaving the year aside. */
  predicate ValidTime(t: Datetime) {
    t.sec < 60 && t.min < 60 && t.hour < 24
  }

  predicate ValidDate(t: Datetime) {
    1 <= t.day <= 31 && t.dotw < 7 && 1 <= t.month <= 12
  }

  // ---------------------------------------------------------------------
  // BCD

  /** A byte whose two nibbles are both decimal digits. */
  predicate IsBcd(b: byte) {
    b >> 4 <= 9 && b & 0x0F <= 9
  }

  /** `decToBcd` of the Arduino copy (a `uint8_t` parameter): tens in the
      high nibble, units in the low one, truncated to a byte. */
  function DecToBcd(v: byte): (b: byte)
    ensures v < 160 ==> b >> 4 == v / 10 && b & 0x0F == v % 10
    ensures v < 100 ==> IsBcd(b)
  {
    (v / 10) * 16 + v % 10
  }

  /** `bcdToDec`: high nibble times ten plus low nibble. The C function
      returns an `int`, but the value never exceeds 165 and is always
      stored in a byte field. */
  function BcdToDec(b: byte): (v: byte)
    ensures v <= 165
    ensures IsBcd(b) ==> v < 100
  {
    (b / 16) * 10 + b % 16
  }

  /** The encoding is undone by the decoding for every value whose tens fit
      in a nibble, which is 0..159 and not only 0..99. */
  lemma BcdRoundTrip(v: byte)
    requires v < 160
    ensures BcdToDec(DecToBcd(v)) == v
  {
  }

  /** In the other direction, every well-formed BCD byte is what the
      encoder makes of its decoded value. */
  lemma BcdInverse(b: byte)
    requires IsBcd(b)
    ensures DecToBcd(BcdToDec(b)) == b
  {
  }

  /** `decToBcd` of the ESP-IDF copy takes an `int`: the C division and
      remainder truncate toward zero, and the sum is cast to `uint8_t`. */
  function EspDecToBcd(val: int): (b: byte)
    ensures 0 <= val < 256 ==> b == DecToBcd(ByteOf(val))
  {
    var b := Wrap8(CDiv(val, 10) * 16 + CRem(val, 10));
    if 0 <= val < 256 then
      EspAgreesOnBytes(ByteOf(val));
      SameValueSameByte(b, DecToBcd(ByteOf(val)));
      b
    else b
  }

  lemma DecToBcdValue(v: byte)
    ensures DecToBcd(v) as int == (v as int / 10 * 16 + v as int % 10) % 256
  {
    var q, r := v / 10, v % 10;
    DivMod10(v);
    Pack(q, r);
  }

  lemma DivMod10(v: byte)
    ensures (v / 10) as int == v as int / 10 && (v % 10) as int == v as int % 10
    ensures v / 10 < 26 && v % 10 < 10
  {
  }

  lemma Pack(q: byte, r: byte)
    requires q < 26 && r < 10
    ensures (q * 16 + r) as int == (q as int * 16 + r as int) % 256
  {
  }

  lemma EspAgreesOnBytes(v: byte)
    ensures (CDiv(v as int, 10) * 16 + CRem(v as int, 10)) % 256 == DecToBcd(v) as int
  {
    DecToBcdValue(v);
  }

  /** The BCD byte each copy writes for the year. The Arduino copy first
      squeezes `year - 1970` into its `uint8_t` parameter; the ESP-IDF copy
      passes the `int` difference, possibly negative. */
  function YearByte(port: Port, year: word): (b: byte)
    ensures port.Arduino? ==> b == DecToBcd(LowByte(year - YEAR_OFFSET))
    ensures port.EspIdf? ==> b == EspDecToBcd(year as int - 1970)
  {
    match port
    case Arduino => DecToBcd(LowByte(year - YEAR_OFFSET))
    case EspIdf => EspDecToBcd(year as int - 1970)
  }

  lemma YearDifference(year: word)
    requires 1970 <= year as int <= 2225
    ensures LowByte(year - YEAR_OFFSET) as int == year as int - 1970
  {
  }

  /** From 1970 to 2225 the difference fits a byte and the two copies
      write the same year byte. */
  lemma YearBytesAgree(year: word)
    requires 1970 <= year as int <= 2225
    ensures YearByte(Arduino, year) == YearByte(EspIdf, year)
  {
    YearDifference(year);
    var v := LowByte(year - YEAR_OFFSET);
    SameValueSameByte(ByteOf(year as int - 1970), v);
  }

  /** Below 1970 they part: for 1969 the Arduino copy encodes 255 (0x95
      after truncation), the ESP-IDF copy encodes -1 (0xFF). */
  lemma YearBytesDifferBefore1970()
    ensures YearByte(Arduino, 1969) == 0x95
    ensures YearByte(EspIdf, 1969) == 0xFF
  {
    assert (CDiv(-1, 10) * 16 + CRem(-1, 10)) % 256 == 255 by {
      assert CDiv(-1, 10) == 0;
    }
    SameValueSameByte(YearByte(EspIdf, 1969), 0xFF);
  }

  // ---------------------------------------------------------------------
  // Bus transactions

  /** `PCF85063A_Init`: control register 1 gets the default value with the
      12.5 pF load capacitance selected. */
  function Init(): (ops: seq<Op>)
    ensures ops == [Write([CTRL_1_ADDR, 0x01])]
  {
    [WriteByte(CTRL_1_ADDR, CTRL_1_DEFAULT | CTRL_1_CAP_SEL)]
  }

  /** `PCF85063A_Reset`: as `Init`, plus the software-reset bit. */
  function Reset(): (ops: seq<Op>)
    ensures ops == [Write([CTRL_1_ADDR, 0x11])]
  {
    [WriteByte(CTRL_1_ADDR, CTRL_1_DEFAULT | CTRL_1_CAP_SEL | CTRL_1_SR)]
  }

  /** `PCF85063A_Set_Time`: one burst of three BCD bytes from the seconds
      register. */
  function SetTime(t: Datetime): (op: Op)
    ensures op.Write? && |op.bytes| == 4 && op.bytes[0] == SECOND_ADDR
    ensures ValidTime(t) ==> BcdToDec(op.bytes[1]) == t.sec && BcdToDec(op.bytes[2]) == t.min
                             && BcdToDec(op.bytes[3]) == t.hour
  {
    Write([SECOND_ADDR, DecToBcd(t.sec), DecToBcd(t.min), DecToBcd(t.hour)])
  }

  /** `PCF85063A_Set_Date`: one burst of four BCD bytes from the day
      register; the year goes out as its distance from 1970. */
  function SetDate(port: Port, t: Datetime): (op: Op)
    ensures op.Write? && |op.bytes| == 5 && op.bytes[0] == DAY_ADDR
    ensures ValidDate(t) ==> BcdToDec(op.bytes[1]) == t.day && BcdToDec(op.bytes[2]) == t.dotw
                             && BcdToDec(op.bytes[3]) == t.month
    ensures op.bytes[4] == YearByte(port, t.year)
  {
    Write([DAY_ADDR, DecToBcd(t.day), DecToBcd(t.dotw), DecToBcd(t.month), YearByte(port, t.year)])
  }

  /** `PCF85063A_Set_All`: all seven time and date bytes in one burst from
      the seconds register. */
  function SetAll(port: Port, t: Datetime): (op: Op)
    ensures op.Write? && |op.bytes| == 8 && op.bytes[0] == SECOND_ADDR
    ensures op.bytes[1..4] == SetTime(t).bytes[1..]
    ensures op.bytes[4..] == SetDate(port, t).bytes[1..]
  {
    Write([SECOND_ADDR, DecToBcd(t.sec), DecToBcd(t.min), DecToBcd(t.hour),
           DecToBcd(t.day), DecToBcd(t.dotw), DecToBcd(t.month), YearByte(port, t.year)])
  }

  /** `PCF85063A_Read_now`: the seven bytes read from the seconds register,
      each masked to the bits its field uses; the year byte is not masked
      and 1970 is added to it. */
  function ReadNow(received: seq<byte>): (t: Datetime)
    requires |received| == 7
    ensures t.sec == BcdToDec(received[0] & 0x7F) && t.min == BcdToDec(received[1] & 0x7F)
    ensures t.hour == BcdToDec(received[2] & 0x3F) && t.day == BcdToDec(received[3] & 0x3F)
    ensures t.dotw == BcdToDec(received[4] & 0x07) && t.month == BcdToDec(received[5] & 0x1F)
    ensures t.year as int == BcdToDec(received[6]) as int + 1970
    ensures t.sec <= 85 && t.min <= 85 && t.hour <= 45 && t.day <= 45 && t.dotw <= 7 && t.month <= 25
    ensures 1970 <= t.year as int <= 2135
  {
    Datetime(year := BcdToDec(received[6]) as word + YEAR_OFFSET,
             month := BcdToDec(received[5] & 0x1F),
             day := BcdToDec(received[3] & 0x3F),
             dotw := BcdToDec(received[4] & 0x07),
             hour := BcdToDec(received[2] & 0x3F),
             min := BcdToDec(received[1] & 0x7F),
             sec := BcdToDec(received[0] & 0x7F))
  }

  /** The bits outside each field's mask do not reach the result: bit 7
      of the seconds and minutes registers and the unused top bits of
      hours, day, weekday and month. */
  lemma ReadNowIgnoresUnusedBits(a: seq<byte>, b: seq<byte>)
    requires |a| == 7 && |b| == 7
    requires a[0] & 0x7F == b[0] & 0x7F && a[1] & 0x7F == b[1] & 0x7F
    requires a[2] & 0x3F == b[2] & 0x3F && a[3] & 0x3F == b[3] & 0x3F
    requires a[4] & 0x07 == b[4] & 0x07 && a[5] & 0x1F == b[5] & 0x1F && a[6] == b[6]
    ensures ReadNow(a) == ReadNow(b)
  {
  }

  /** A set oscillator-stop flag leaves the time read unchanged. */
  lemma OscillatorStopIgnored(a: seq<byte>)
    requires |a| == 7
    ensures ReadNow(a[0 := a[0] | 0x80]) == ReadNow(a)
  {
    var a' := a[0 := a[0] | 0x80];
    assert a'[0] & 0x7F == a[0] & 0x7F;
    ReadNowIgnoresUnusedBits(a', a);
  }

  /** The transaction `Read_now` issues. */
  function ReadNowOps(): (ops: seq<Op>)
    ensures ops == [Read(SECOND_ADDR, 7)]
  {
    [Read(SECOND_ADDR, 7)]
  }

  /** `PCF85063A_Enable_Alarm`: control register 2 with the alarm interrupt
      enabled and the alarm flag cleared. */
  function EnableAlarm(): (ops: seq<Op>)
    ensures |ops| == 1 && ops[0].Write? && ops[0].bytes == [CTRL_2_ADDR, 0x80]
    ensures ops[0].bytes[1] & CTRL_2_AIE != 0 && ops[0].bytes[1] & CTRL_2_AF == 0
  {
    [WriteByte(CTRL_2_ADDR, (CTRL_2_DEFAULT | CTRL_2_AIE) & !CTRL_2_AF)]
  }

  /** `PCF85063A_Get_Alarm_Flag`: the control-2 byte read back, keeping only
      the alarm flag and alarm-interrupt-enable bits. */
  function GetAlarmFlag(raw: byte): (r: (byte, seq<Op>))
    ensures BitSet(r.0, 7) == BitSet(raw, 7) && BitSet(r.0, 6) == BitSet(raw, 6)
    ensures r.0 & 0x3F == 0
    ensures r.1 == [Read(CTRL_2_ADDR, 1)]
  {
    (raw & (CTRL_2_AF | CTRL_2_AIE), [Read(CTRL_2_ADDR, 1)])
  }

  /** `PCF85063A_Set_Alarm`: seconds, minutes and hours with their disable
      bit cleared, then day and weekday disabled, in one burst from the
      alarm-seconds register. */
  function SetAlarm(t: Datetime): (op: Op)
    ensures op.Write? && |op.bytes| == 6 && op.bytes[0] == SECOND_ALARM
    ensures forall i :: 1 <= i < 4 ==> !BitSet(op.bytes[i], 7)
    ensures op.bytes[4] == ALARM_DISABLE && op.bytes[5] == ALARM_DISABLE
    ensures ValidTime(t) ==> BcdToDec(op.bytes[1]) == t.sec && BcdToDec(op.bytes[2]) == t.min
                             && BcdToDec(op.bytes[3]) == t.hour
  {
    Write([SECOND_ALARM,
           DecToBcd(t.sec) & !ALARM_DISABLE,
           DecToBcd(t.min) & !ALARM_DISABLE,
           DecToBcd(t.hour) & !ALARM_DISABLE,
           ALARM_DISABLE,
           ALARM_DISABLE])
  }

  /** How many bytes `Read_Alarm` reads from the alarm-seconds register. */
  function AlarmReadLength(port: Port): (n: nat)
    ensures 6 <= n <= 7
    ensures n == 7 <==> port.EspIdf?
  {
    match port
    case Arduino => 6
    case EspIdf => 7
  }

  /** `PCF85063A_Read_Alarm`: decodes seconds, minutes, hours, day and
      weekday from the bytes read; the month and year of the caller's
      structure are left as they were. */
  function ReadAlarm(port: Port, prev: Datetime, received: seq<byte>): (t: Datetime)
    requires |received| == AlarmReadLength(port)
    ensures t.month == prev.month && t.year == prev.year
    ensures t.sec == BcdToDec(received[0] & 0x7F) && t.min == BcdToDec(received[1] & 0x7F)
    ensures t.hour == BcdToDec(received[2] & 0x3F) && t.day == BcdToDec(received[3] & 0x3F)
    ensures t.dotw == BcdToDec(received[4] & 0x07)
  {
    prev.(sec := BcdToDec(received[0] & 0x7F),
          min := BcdToDec(received[1] & 0x7F),
          hour := BcdToDec(received[2] & 0x3F),
          day := BcdToDec(received[3] & 0x3F),
          dotw := BcdToDec(received[4] & 0x07))
  }

  // ---------------------------------------------------------------------
  // The register file

  /** The chip's registers after a burst write: the first byte of the
      transfer selects the register, the rest land at consecutive
      addresses. */
  function ApplyWrite(regs: seq<byte>, op: Op): (r: seq<byte>)
    requires |regs| == REGISTER_COUNT
    requires op.Write? && |op.bytes| >= 1
    requires op.bytes[0] as int + |op.bytes| - 1 <= REGISTER_COUNT
    ensures |r| == REGISTER_COUNT
    ensures forall i :: 1 <= i < |op.bytes| ==> r[op.bytes[0] as int + i - 1] == op.bytes[i]
    ensures forall i :: 0 <= i < REGISTER_COUNT && !(op.bytes[0] as int <= i < op.bytes[0] as int + |op.bytes| - 1)
              ==> r[i] == regs[i]
  {
    var start := op.bytes[0] as int;
    regs[..start] + op.bytes[1..] + regs[start + |op.bytes| - 1..]
  }

  /** The bytes a burst read of `len` registers from `start` returns. */
  function ReadBurst(regs: seq<byte>, start: byte, len: nat): (r: seq<byte>)
    requires start as int + len <= |regs|
    ensures |r| == len
    ensures forall i :: 0 <= i < len ==> r[i] == regs[start as int + i]
  {
    regs[start..start as int + len]
  }

  /** Setting the time and then the date leaves the registers exactly as
      one `Set_All` does. */
  lemma SetTimeThenDate(port: Port, t: Datetime, regs: seq<byte>)
    requires |regs| == REGISTER_COUNT
    ensures ApplyWrite(ApplyWrite(regs, SetTime(t)), SetDate(port, t)) == ApplyWrite(regs, SetAll(port, t))
  {
    var a := ApplyWrite(ApplyWrite(regs, SetTime(t)), SetDate(port, t));
    var b := ApplyWrite(regs, SetAll(port, t));
    assert forall i :: 0 <= i < REGISTER_COUNT ==> a[i] == b[i];
  }

  /** The year register for 1970..2069 is well-formed BCD, the range the
      chip's year counter holds. */
  lemma YearByteIsBcd(port: Port, year: word)
    requires 1970 <= year as int <= 2069
    ensures IsBcd(YearByte(port, year))
  {
    YearDifference(year);
    YearBytesAgree(year);
  }

  lemma YearRoundTrip(port: Port, year: word)
    requires 1970 <= year as int <= 2129
    ensures BcdToDec(YearByte(port, year)) as word + YEAR_OFFSET == year
  {
    YearDifference(year);
    YearBytesAgree(year);
    BcdRoundTrip(LowByte(year - YEAR_OFFSET));
  }

  /** What `Set_All` wrote, `Read_now` returns, for every valid date and
      time and every year from 1970 to 2129. */
  lemma SetAllReadNow(port: Port, t: Datetime, regs: seq<byte>)
    requires |regs| == REGISTER_COUNT
    requires ValidTime(t) && ValidDate(t)
    requires 1970 <= t.year as int <= 2129
    ensures ReadNow(ReadBurst(ApplyWrite(regs, SetAll(port, t)), SECOND_ADDR, 7)) == t
  {
    var got := ReadBurst(ApplyWrite(regs, SetAll(port, t)), SECOND_ADDR, 7);
    YearRoundTrip(port, t.year);
    assert got == SetAll(port, t).bytes[1..];
  }

  /** From 2130 on, the tens of the year difference no longer fit a nibble
      and the year reads back wrapped: 2130 comes back as 1970. */
  lemma YearWrapsAt2130(port: Port)
    ensures YearByte(port, 2130) == 0x00
    ensures ReadNow([0, 0, 0, 1, 0, 1, YearByte(port, 2130)]).year == 1970
  {
    YearBytesAgree(2130);
  }

  /** The year byte for 2095 is 0xC5: a tens digit of 12 in the high
      nibble, which is not BCD. */
  lemma Year2095Byte(port: Port)
    ensures YearByte(port, 2095) == 0xC5
    ensures !IsBcd(YearByte(port, 2095))
  {
    YearBytesAgree(2095);
  }

  /** Reading an alarm back after setting it gives its seconds, minutes and
      hours, and day and weekday 0 because those registers hold only the
      disable bit. */
  lemma SetAlarmReadAlarm(port: Port, t: Datetime, prev: Datetime, regs: seq<byte>)
    requires |regs| == REGISTER_COUNT
    requires ValidTime(t)
    ensures ReadAlarm(port, prev, ReadBurst(ApplyWrite(regs, SetAlarm(t)), SECOND_ALARM, AlarmReadLength(port)))
            == prev.(sec := t.sec, min := t.min, hour := t.hour, day := 0, dotw := 0)
  {
    var op := SetAlarm(t);
    var got := ReadBurst(ApplyWrite(regs, op), SECOND_ALARM, AlarmReadLength(port));
    BurstReadsBack(regs, op, AlarmReadLength(port), 5);
    AlarmFieldBack(op.bytes[1], t.sec);
    AlarmFieldBack(op.bytes[2], t.min);
    AlarmFieldBack(op.bytes[3], t.hour);
    assert got[3] & 0x3F == 0 && got[4] & 0x07 == 0;
  }

  /** A burst read from where a burst write started returns the written
      bytes. */
  lemma BurstReadsBack(regs: seq<byte>, op: Op, len: nat, n: nat)
    requires |regs| == REGISTER_COUNT
    requires op.Write? && |op.bytes| >= 1 && op.bytes[0] as int + |op.bytes| - 1 <= REGISTER_COUNT
    requires op.bytes[0] as int + len <= REGISTER_COUNT && n <= len && n < |op.bytes|
    ensures forall k :: 0 <= k < n ==> ReadBurst(ApplyWrite(regs, op), op.bytes[0], len)[k] == op.bytes[k + 1]
  {
  }

  /** An alarm field written with its disable bit clear reads back as the
      value it encodes, after the reader's 7-bit mask. */
  lemma AlarmFieldBack(b: byte, v: byte)
    requires !BitSet(b, 7) && BcdToDec(b) == v
    ensures BcdToDec(b & 0x7F) == v
  {
    assert b & 0x7F == b;
  }

  // ---------------------------------------------------------------------
  // Text

  /** `" %d.%d.%d  %d %d:%d:%d "` over year, month, day, weekday, hour,
      minute and second. */
  function DatetimeFormat(): seq<Text.Slot> {
    Text.FieldsSeparatedBy(" ", [".", ".", "  ", " ", ":", ":", " "])
  }

  function DatetimeFields(t: Datetime): (ns: seq<nat>)
    ensures |ns| == 7
  {
    [t.year as nat, t.month as nat, t.day as nat, t.dotw as nat, t.hour as nat, t.min as nat, t.sec as nat]
  }

  lemma FormatFacts()
    ensures Text.FieldCount(DatetimeFormat()) == 7
    ensures Text.Delimited(DatetimeFormat())
  {
    Text.FieldsSeparatedByFacts(" ", [".", ".", "  ", " ", ":", ":", " "]);
  }

  /** `datetime_to_str`: the seven numbers in decimal without padding,
      in the order year, month, day, weekday, hour, minute, second. They
      can be read back in order, so two different datetimes never print
      the same string. */
  function DatetimeToStr(t: Datetime): (s: string)
    ensures s == " " + Text.NatToDecimal(t.year as nat) + "." + Text.NatToDecimal(t.month as nat)
      + "." + Text.NatToDecimal(t.day as nat) + "  " + Text.NatToDecimal(t.dotw as nat)
      + " " + Text.NatToDecimal(t.hour as nat) + ":" + Text.NatToDecimal(t.min as nat)
      + ":" + Text.NatToDecimal(t.sec as nat) + " "
    ensures Text.Scan(DatetimeFormat(), s) == Optional.Some(DatetimeFields(t))
  {
    FormatFacts();
    Text.ScanFormat(DatetimeFormat(), DatetimeFields(t));
    DatetimeText(t);
    Text.Format(DatetimeFormat(), DatetimeFields(t))
  }

  /** The datetime format prints each field after its separator. */
  lemma DatetimeText(t: Datetime)
    ensures Text.FieldCount(DatetimeFormat()) == 7
    ensures Text.Format(DatetimeFormat(), DatetimeFields(t))
      == " " + Text.NatToDecimal(t.year as nat) + "." + Text.NatToDecimal(t.month as nat)
      + "." + Text.NatToDecimal(t.day as nat) + "  " + Text.NatToDecimal(t.dotw as nat)
      + " " + Text.NatToDecimal(t.hour as nat) + ":" + Text.NatToDecimal(t.min as nat)
      + ":" + Text.NatToDecimal(t.sec as nat) + " "
  {
    var f := DatetimeFields(t);
    var s1, a1 := ["."], [f[0]];
    var s2, a2 := s1 + ["."], a1 + [f[1]];
    var s3, a3 := s2 + ["  "], a2 + [f[2]];
    var s4, a4 := s3 + [" "], a3 + [f[3]];
    var s5, a5 := s4 + [":"], a4 + [f[4]];
    var s6, a6 := s5 + [":"], a5 + [f[5]];
    var s7, a7 := s6 + [" "], a6 + [f[6]];
    assert s7 == [".", ".", "  ", " ", ":", ":", " "] && a7 == f;
    Text.FormatSeparated(" ", s7, f);
    assert Text.Joined(" ", [], []) == " ";
    Text.JoinedStep(" ", [], [], ".", f[0]);
    assert [] + ["."] == s1 && [] + [f[0]] == a1;
    Text.JoinedStep(" ", s1, a1, ".", f[1]);
    Text.JoinedStep(" ", s2, a2, "  ", f[2]);
    Text.JoinedStep(" ", s3, a3, " ", f[3]);
    Text.JoinedStep(" ", s4, a4, ":", f[4]);
    Text.JoinedStep(" ", s5, a5, ":", f[5]);
    Text.JoinedStep(" ", s6, a6, " ", f[6]);
  }

  /** Single-digit fields print as one digit: nothing is zero-padded. */
  lemma DatetimeToStrExample(t: Datetime)
    requires t == Datetime(2025, 7, 30, 3, 9, 5, 0)
    ensures DatetimeToStr(t) == " 2025.7.30  3 9:5:0 "
  {
    var s := DatetimeToStr(t);
    DigitsOf(t, s);
  }

  /** The decimal texts of the example's fields. */
  lemma DigitsOf(t: Datetime, s: string)
    requires t == Datetime(2025, 7, 30, 3, 9, 5, 0)
    requires s == " " + Text.NatToDecimal(t.year as nat) + "." + Text.NatToDecimal(t.month as nat)
      + "." + Text.NatToDecimal(t.day as nat) + "  " + Text.NatToDecimal(t.dotw as nat)
      + " " + Text.NatToDecimal(t.hour as nat) + ":" + Text.NatToDecimal(t.min as nat)
      + ":" + Text.NatToDecimal(t.sec as nat) + " "
    ensures s == " 2025.7.30  3 9:5:0 "
  {
    assert Text.NatToDecimal(2025) == "2025" by {
      assert Text.NatToDecimal(20) == "20";
      assert Text.NatToDecimal(202) == Text.NatToDecimal(20) + "2";
    }
    assert Text.NatToDecimal(30) == "30";
  }
}
