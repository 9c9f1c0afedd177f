/**
 The I2C IO-expander driver (`IO_EXTENSION_*`): eight GPIO lines, a PWM
 output and an ADC behind a register protocol at address 0x24.

 The chip's output register is never read back. The driver keeps a shadow
 byte of the last value written and changes one bit of it per call, then
 writes the whole byte.
 */
module IoExtension {
  import opened Bytes
  import opened I2cBus

  const ADDRESS: byte := 0x24

  // Register (command) codes
  const REG_MODE: byte := 0x02
  const REG_OUTPUT: byte := 0x03
  const REG_INPUT: byte := 0x04
  const REG_PWM: byte := 0x05
  const REG_ADC: byte := 0x06
  const REG_RTC_INT: byte := 0x07

  // Pin numbers
  const IO_0: nat := 0
  const IO_1: nat := 1   // touch reset
  const IO_2: nat := 2   // LCD backlight
  const IO_3: nat := 3   // LCD reset
  const IO_4: nat := 4   // SD card chip select
  const IO_5: nat := 5   // USB / CAN select
  const IO_6: nat := 6
  const IO_7: nat := 7

  // Isolated digital inputs and outputs of the board
  const DI0: nat := IO_0
  const DI1: nat := IO_5
  const DO0: nat := IO_6
  const DO1: nat := IO_7

  /** The shadow state held in `io_extension_obj_t`. */
  datatype Device = Device(lastIo: byte, lastOd: byte)

  /** The driver's full-scale PWM level: higher requests are cut down to it
      so that the backlight never switches fully off. */
  const PWM_MAX_LEVEL: byte := 95

  /** `1 << pin` truncated to the shadow's eight bits. The shift is done on
      a C `int`, so a pin of 8 or more leaves no bit in the byte (and 31 or
      more would overflow the `int`). */
  function PinMask(pin: nat): (m: byte)
    requires pin < 31
    ensures pin < 8 ==> m == BitMask(pin)
    ensures pin >= 8 ==> m == 0
  {
    if pin < 8 then BitMask(pin) else 0
  }

  /** `IO_EXTENSION_Init`: all lines to output mode, both shadows to 0xFF. */
  function Init(): (r: (Device, seq<Op>))
    ensures r.1 == [WriteByte(REG_MODE, 0xFF)]
    ensures r.0.lastIo == 0xFF && r.0.lastOd == 0xFF
  {
    (Device(0xFF, 0xFF), [WriteByte(REG_MODE, 0xFF)])
  }

  /** `IO_EXTENSION_IO_Mode(mask)`: the mode byte goes out verbatim and no
      shadow is kept for it. */
  function IoMode(d: Device, mask: byte): (r: (Device, seq<Op>))
    ensures r.0 == d
    ensures r.1 == [Write([REG_MODE, mask])]
  {
    (d, [WriteByte(REG_MODE, mask)])
  }

  /** `IO_EXTENSION_Output(pin, value)`: a value of exactly 1 sets the pin's
      shadow bit, any other value clears it; the whole shadow is written. */
  function Output(d: Device, pin: nat, value: byte): (r: (Device, seq<Op>))
    requires pin < 31
    ensures pin < 8 ==> (BitSet(r.0.lastIo, pin) <==> value == 1)
    ensures forall j :: 0 <= j < 8 && j != pin ==> (BitSet(r.0.lastIo, j) <==> BitSet(d.lastIo, j))
    ensures pin >= 8 ==> r.0.lastIo == d.lastIo
    ensures r.0.lastOd == d.lastOd
    ensures r.1 == [Write([REG_OUTPUT, r.0.lastIo])]
  {
    var io := if pin >= 8 then d.lastIo
              else if value == 1 then SetBit(d.lastIo, pin)
              else ClearBit(d.lastIo, pin);
    (d.(lastIo := io), [WriteByte(REG_OUTPUT, io)])
  }

  /** `IO_EXTENSION_Input(pin)`: one byte is read from the input register
      and the pin's bit is returned as 0 or 1. `raw` is the byte the chip
      returned. */
  function Input(d: Device, pin: nat, raw: byte): (r: (Device, byte, seq<Op>))
    requires pin < 31
    ensures r.1 == 1 <==> pin < 8 && BitSet(raw, pin)
    ensures r.1 == 0 || r.1 == 1
    ensures r.0 == d
    ensures r.2 == [Read(REG_INPUT, 1)]
  {
    var v: byte := if raw & PinMask(pin) != 0 then 1 else 0;
    (d, v, [Read(REG_INPUT, 1)])
  }

  /** The duty level `IO_EXTENSION_Pwm_Output` scales, after its clamp. */
  function PwmLevel(value: byte): (level: byte)
    ensures level <= PWM_MAX_LEVEL
    ensures value < PWM_MAX_LEVEL ==> level == value
    ensures value >= PWM_MAX_LEVEL ==> level == PWM_MAX_LEVEL
  {
    if value >= PWM_MAX_LEVEL then PWM_MAX_LEVEL else value
  }

  /** `IO_EXTENSION_Pwm_Output(value)`: the clamped level is scaled to a byte
      and written to the PWM register. The floating-point scaling
      `level * (255 / 100.0)` is passed in as `scale`. */
  function PwmOutput(d: Device, value: byte, scale: byte -> byte): (r: (Device, seq<Op>))
    ensures r.0 == d
    ensures r.1 == [Write([REG_PWM, scale(PwmLevel(value))])]
  {
    (d, [WriteByte(REG_PWM, scale(PwmLevel(value)))])
  }

  /** Every request from 95 upwards writes the same PWM byte, whatever the
      scaling. */
  lemma PwmSaturates(d: Device, v: byte, scale: byte -> byte)
    requires v >= PWM_MAX_LEVEL
    ensures PwmOutput(d, v, scale) == PwmOutput(d, PWM_MAX_LEVEL, scale)
  {
  }

  /** `IO_EXTENSION_Adc_Input`: the two bytes read from the ADC register,
      joined little-endian. */
  function AdcInput(d: Device, received: seq<byte>): (r: (Device, word, seq<Op>))
    requires |received| == 2
    ensures LowByte(r.1) == received[0] && HighByte(r.1) == received[1]
    ensures r.0 == d
    ensures r.2 == [Read(REG_ADC, 2)]
  {
    (d, ReadWordValue(received), [Read(REG_ADC, 2)])
  }

  /** `IO_EXTENSION_Rtc_Int_Read`: a word is read from the RTC-interrupt
      register and returned through a `uint8_t`, so only its low byte
      survives. */
  function RtcIntRead(d: Device, received: seq<byte>): (r: (Device, byte, seq<Op>))
    requires |received| == 2
    ensures r.1 == received[0]
    ensures r.0 == d
    ensures r.2 == [Read(REG_RTC_INT, 2)]
  {
    (d, LowByte(ReadWordValue(received)), [Read(REG_RTC_INT, 2)])
  }

  /** From `Init`, clearing pin 5 and then setting pin 2 leaves 0xDF: bit 2
      set, bit 5 clear, every other bit still 1. */
  lemma OutputScenario()
    ensures Output(Output(Init().0, 5, 0).0, 2, 1).0.lastIo == 0xDF
  {
  }

  /** Writing the same pin twice keeps only the second value. */
  lemma OutputLastWins(d: Device, pin: nat, v1: byte, v2: byte)
    requires pin < 31
    ensures Output(Output(d, pin, v1).0, pin, v2).0 == Output(d, pin, v2).0
  {
  }

  /** Updates of two different pins commute: neither disturbs the other. */
  lemma OutputCommutes(d: Device, p: nat, vp: byte, q: nat, vq: byte)
    requires p < 8 && q < 8 && p != q
    ensures Output(Output(d, p, vp).0, q, vq).0 == Output(Output(d, q, vq).0, p, vp).0
  {
  }

  /** A pin driven to the level it already has leaves the shadow unchanged,
      though the byte is still written. */
  lemma OutputNoChange(d: Device, pin: nat, value: byte)
    requires pin < 8
    requires value == 1 <==> BitSet(d.lastIo, pin)
    ensures Output(d, pin, value).0 == d
  {
  }
}
