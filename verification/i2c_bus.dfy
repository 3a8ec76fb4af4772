/**
 Register access of the I2C program. `adxl_read` first writes the one-byte
 register address and gives up with -1 unless exactly one byte was written;
 otherwise it returns whatever `read(2)` returns, and `read` fills the
 front of the caller's buffer. `adxl_write` sends the register and the
 value as one two-byte write. The operating system's answers are inputs.
 */
module I2cBus {
  import opened Base
  import opened Adxl345

  /** What `read(2)` did: delivered some bytes, or failed with -1. */
  datatype OsRead = Delivered(bytes: seq<byte>) | ReadError

  /** Return value of `adxl_read`, the caller's buffer afterwards, and
      whether the read was issued at all. */
  datatype ReadCall = ReadCall(ret: int, buf: seq<byte>, readIssued: bool)

  /** `adxl_read(reg, buf, len)`, where `written` is what the write of the
      register address returned and `os` what the read then did. */
  function AdxlRead(buf: seq<byte>, len: nat, written: int, os: OsRead): (r: ReadCall)
    requires len <= |buf|
    requires os.Delivered? ==> |os.bytes| <= len
    ensures |r.buf| == |buf|
    ensures written != 1 ==> r == ReadCall(-1, buf, false)
    ensures written == 1 ==> r.readIssued
    ensures written == 1 && os.ReadError? ==> r.ret == -1
    ensures written == 1 && os.Delivered? ==> r.ret == |os.bytes| && r.buf[..r.ret] == os.bytes
    ensures r.ret >= 0 ==> os.Delivered? && r.ret <= len && r.buf[..r.ret] == os.bytes && r.buf[r.ret..] == buf[r.ret..]
    ensures r.ret < 0 ==> r.buf == buf
  {
    if written != 1 then ReadCall(-1, buf, false)
    else match os
      case ReadError => ReadCall(-1, buf, true)
      case Delivered(bytes) => ReadCall(|bytes|, bytes + buf[|bytes|..], true)
  }

  /** The configuration writes, in order: each `adxl_write(reg, val)` is
      one two-byte write of the register, then the value. */
  function ConfigFrames(): (frames: seq<seq<byte>>)
    ensures |frames| == |ConfigWrites|
    ensures forall k :: 0 <= k < |frames| ==>
      frames[k] == [ConfigWrites[k].0, ConfigWrites[k].1]
    ensures frames == [[0x2C, 0x0F], [0x31, 0x0B], [0x2D, 0x08]]
  {
    [[BW_RATE, 0x0F], [DATA_FORMAT, DATA_FORMAT_B], [POWER_CTL, 0x08]]
  }

  /** `adxl_read(0x00, &id, 1) != 1 || id != 0xE5` is false: the identity
      check passes. `id` starts as 0. It passes exactly when the address
      write succeeded and the read delivered the single byte 0xE5. */
  predicate IdCheckPasses(written: int, os: OsRead): (ok: bool)
    requires os.Delivered? ==> |os.bytes| <= 1
    ensures ok <==> written == 1 && os == Delivered([0xE5])
  {
    var r := AdxlRead([0], 1, written, os);
    assert written == 1 && os.Delivered? && |os.bytes| == 1 ==> r.buf == os.bytes;
    r.ret == 1 && r.buf[0] == EXPECTED_DEVID
  }

  /** One sample read, `adxl_read(DATAX0, data, 6) == 6`, decoded; `stale`
      is whatever the uninitialised buffer held. */
  function SampleRead(stale: seq<byte>, written: int, os: OsRead): (r: Option<RawSample>)
    requires |stale| == 6
    requires os.Delivered? ==> |os.bytes| <= 6
    ensures r.Some? <==> written == 1 && os.Delivered? && |os.bytes| == 6
    ensures r.Some? ==> r.value == DecodeAxes(os.bytes)
  {
    var call := AdxlRead(stale, 6, written, os);
    if call.ret != 6 then None
    else
      assert call.buf == os.bytes;
      Some(DecodeAxes(call.buf))
  }

  /** A sensor that holds sample `s` in its data registers is read back as
      `s`, whatever the buffer held before. */
  lemma SampleReadRoundTrip(stale: seq<byte>, s: RawSample)
    requires |stale| == 6
    ensures SampleRead(stale, 1, Delivered(EncodeAxes(s))) == Some(s)
  {
    DecodeEncodeAxes(s);
  }
}
