/**
 The I2C transport as the drivers see it, reduced to the transactions they
 issue. The transport itself is not modelled: a driver operation returns
 the list of transactions it performs, and the bytes a read returns are
 parameters of the operation.

 Framing follows the board's `DEV_I2C_*` helpers: a register write is one
 transfer `[cmd, value]`, a burst write is `[first register, values…]`,
 and a read sends the register byte and then receives `len` bytes.
 */
module I2cBus {
  import opened Bytes

  datatype Op =
    | Write(bytes: seq<byte>)        // DEV_I2C_Write_Nbyte / DEV_I2C_Write_Byte
    | Read(reg: byte, len: nat)      // DEV_I2C_Read_Nbyte / DEV_I2C_Read_Word

  /** `DEV_I2C_Write_Byte(cmd, value)`: one two-byte transfer. */
  function WriteByte(cmd: byte, value: byte): (op: Op)
    ensures op.Write? && |op.bytes| == 2
    ensures op.bytes[0] == cmd && op.bytes[1] == value
  {
    Write([cmd, value])
  }

  /** `DEV_I2C_Read_Word(cmd)`: two bytes received, joined little-endian. */
  function ReadWordValue(received: seq<byte>): (w: word)
    requires |received| == 2
    ensures LowByte(w) == received[0] && HighByte(w) == received[1]
  {
    WordSplits(received[0], received[1]);
    Word(received[0], received[1])
  }
}
