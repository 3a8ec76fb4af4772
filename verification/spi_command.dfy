/**
 The first byte of every SPI transfer to the ADXL345 carries, besides the
 register address in its low six bits, a read flag (bit 7) and a
 multi-byte flag (bit 6). `readBytes` and `writeBytes` of the SPI program
 set these flags on the address the caller placed in `data[0]` before the
 transfer; everything else in the buffer is sent as it is.
 */
module SpiCommand {
  import opened Base
  import opened Adxl345

  const READ_BIT: bv8 := 0x80
  const MULTI_BIT: bv8 := 0x40
  const ADDRESS_MASK: bv8 := 0x3F

  /** `data[0]` after `readBytes(h, data, count)` has set its flags. */
  function ReadCommand(first: bv8, count: int): (cmd: bv8)
    ensures cmd & READ_BIT == READ_BIT
    ensures cmd & ADDRESS_MASK == first & ADDRESS_MASK
    ensures cmd & MULTI_BIT == MULTI_BIT <==> count > 1 || first & MULTI_BIT == MULTI_BIT
  {
    var c := first | READ_BIT;
    if count > 1 then c | MULTI_BIT else c
  }

  /** `data[0]` after `writeBytes(h, data, count)` has set its flag. */
  function WriteCommand(first: bv8, count: int): (cmd: bv8)
    ensures cmd & READ_BIT == first & READ_BIT
    ensures cmd & ADDRESS_MASK == first & ADDRESS_MASK
    ensures cmd & MULTI_BIT == MULTI_BIT <==> count > 1 || first & MULTI_BIT == MULTI_BIT
    ensures count <= 1 ==> cmd == first
  {
    if count > 1 then first | MULTI_BIT else first
  }

  /** The bytes `readBytes` hands to the transfer: the first `count`
      bytes of the buffer, the first one flagged, the rest untouched. */
  function ReadFrame(data: seq<bv8>, count: nat): (tx: seq<bv8>)
    requires 1 <= count <= |data|
    ensures |tx| == count && tx[1..] == data[1..count]
    ensures tx[0] & READ_BIT == READ_BIT
    ensures tx[0] & ADDRESS_MASK == data[0] & ADDRESS_MASK
  {
    [ReadCommand(data[0], count)] + data[1..count]
  }

  /** The bytes `writeBytes` sends: the first `count` bytes of the buffer,
      the first one flagged. */
  function WriteFrame(data: seq<bv8>, count: nat): (tx: seq<bv8>)
    requires 1 <= count <= |data|
    ensures |tx| == count && tx[1..] == data[1..count]
    ensures tx[0] & ADDRESS_MASK == data[0] & ADDRESS_MASK
  {
    [WriteCommand(data[0], count)] + data[1..count]
  }

  /** How the sensor reads the first byte of a transfer. */
  datatype Header = Header(read: bool, multiByte: bool, register: bv8)

  function Interpret(cmd: bv8): Header
  {
    Header(cmd & READ_BIT != 0, cmd & MULTI_BIT != 0, cmd & ADDRESS_MASK)
  }

  /** For every register address (six bits), the sensor sees a read of that
      register, multi-byte exactly when more than one byte is transferred. */
  lemma InterpretRead(reg: bv8, count: int)
    requires reg <= ADDRESS_MASK
    ensures Interpret(ReadCommand(reg, count)) == Header(true, count > 1, reg)
  {
  }

  /** For every register address, the sensor sees a write of that register,
      multi-byte exactly when more than one byte is transferred. */
  lemma InterpretWrite(reg: bv8, count: int)
    requires reg <= ADDRESS_MASK
    ensures Interpret(WriteCommand(reg, count)) == Header(false, count > 1, reg)
  {
  }

  /** The identity check builds its command as `DEVID | READ_BIT` directly,
      which is what `readBytes` would send for a one-byte read. */
  const IdFrame: seq<bv8> := [DEVID as bv8 | READ_BIT, 0x00]

  /** The sample read: `data[0] = DATAX0; readBytes(h, data, 7)`. */
  function SampleFrame(data: seq<bv8>): (tx: seq<bv8>)
    requires |data| == 7
    ensures |tx| == 7 && tx[1..] == data[1..]
    ensures tx[0] == 0xF2
  {
    ReadFrame([DATAX0 as bv8] + data[1..], 7)
  }

  /** A two-byte write sends the register with the multi-byte flag, then
      the value. */
  lemma WriteFrameOfPair(reg: bv8, val: bv8)
    ensures WriteFrame([reg, val], 2) == [reg | MULTI_BIT, val]
  {
    assert [reg, val][1..2] == [val];
  }

  /** The configuration transfers: `data[0] = reg; data[1] = value;
      writeBytes(h, data, 2)` for each configuration pair. Each writes the
      configured value to the configured register, in order; because the
      count includes the command byte, the multi-byte flag is set on every
      one of them. */
  function ConfigFrames(): (frames: seq<seq<bv8>>)
    ensures |frames| == |ConfigWrites|
    ensures frames == [[0x6C, 0x0F], [0x71, 0x0B], [0x6D, 0x08]]
  {
    assert BW_RATE as bv8 == 0x2C && DATA_FORMAT as bv8 == 0x31 && POWER_CTL as bv8 == 0x2D;
    assert DATA_FORMAT_B as bv8 == 0x0B;
    WriteFrameOfPair(0x2C, 0x0F);
    WriteFrameOfPair(0x31, 0x0B);
    WriteFrameOfPair(0x2D, 0x08);
    [WriteFrame([BW_RATE as bv8, 0x0F], 2),
     WriteFrame([DATA_FORMAT as bv8, DATA_FORMAT_B as bv8], 2),
     WriteFrame([POWER_CTL as bv8, 0x08], 2)]
  }

  lemma IdFrameIsSingleRegisterRead()
    ensures IdFrame[0] == ReadCommand(DEVID as bv8, 1)
    ensures Interpret(IdFrame[0]) == Header(true, false, DEVID as bv8)
  {
  }

  /** The sample read addresses DATAX0 as a multi-byte read, whatever the
      buffer held from the previous transfer. */
  lemma SampleFrameReadsDataRegisters(data: seq<bv8>)
    requires |data| == 7
    ensures SampleFrame(data)[0] == 0xF2
    ensures Interpret(SampleFrame(data)[0]) == Header(true, true, DATAX0 as bv8)
  {
  }

  /** Each configuration transfer writes the configured value to the
      configured register, in order. */
  lemma ConfigFramesWriteConfiguration()
    ensures forall k :: 0 <= k < |ConfigFrames()| ==>
      |ConfigFrames()[k]| == 2 &&
      Interpret(ConfigFrames()[k][0]) == Header(false, true, ConfigWrites[k].0 as bv8) &&
      ConfigFrames()[k][1] == ConfigWrites[k].1 as bv8
  {
    assert Interpret(0x6C) == Header(false, true, BW_RATE as bv8);
    assert Interpret(0x71) == Header(false, true, DATA_FORMAT as bv8);
    assert Interpret(0x6D) == Header(false, true, POWER_CTL as bv8);
  }
}
