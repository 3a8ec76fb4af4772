/**
 What both programs know about the ADXL345 itself: register addresses, the
 expected device identity, the fixed configuration sequence, the frequency
 bounds, how one axis is assembled from its little-endian byte pair into a
 two's-complement 16-bit value, and how a raw value is scaled to physical
 units.
 */
module Adxl345 {
  import opened Base

  const DEVID: byte := 0x00
  const EXPECTED_DEVID: byte := 0xE5
  const BW_RATE: byte := 0x2C
  const DATA_FORMAT: byte := 0x31
  const DATA_FORMAT_B: byte := 0x0B
  const POWER_CTL: byte := 0x2D
  const DATAX0: byte := 0x32

  const FreqDefault: real := 250.0
  const FreqMax: real := 3200.0

  /** `c == 'q' || c == 'Q'`: the key that stops acquisition. */
  predicate IsQuitKey(key: Option<char>)
  {
    key.Some? && (key.value == 'q' || key.value == 'Q')
  }

  /** The supported sampling frequencies, in Hz. */
  predicate ValidFreq(f: real) { 1.0 <= f <= FreqMax }

  /** First line of a saved file, in both programs. */
  const CsvHeader: string := "time,x,y,z"

  /** A saved file: the header line, then one row per reading. The
      decimal formatting of the rows is not modelled. */
  datatype SavedFile = SavedFile(header: string, rows: seq<Reading>)

  /** Capacity of the save buffer and period of the periodic flush. */
  const FlushEvery: nat := 1000

  /** Full-scale range (2 * 16 g) divided by the 8192 counts it spans. */
  const AccConversion: real := 2.0 * 16.0 / 8192.0

  /** The register writes that configure the sensor, in order:
      output rate, full-resolution +/-16 g data format, measurement mode. */
  const ConfigWrites: seq<(byte, byte)> :=
    [(BW_RATE, 0x0F), (DATA_FORMAT, DATA_FORMAT_B), (POWER_CTL, 0x08)]

  /** The values an `int16_t` holds. */
  type int16 = v: int | -0x8000 <= v < 0x8000

  /** The unsigned 16-bit pattern of a byte pair: the value `hi*256 + lo`. */
  function Word(lo: byte, hi: byte): int
  {
    hi * 256 + lo
  }

  /** The source assembles the pattern as `(hi << 8) | lo`; since the low
      byte occupies only the low eight bits, the bitwise OR is the sum
      `Word` computes. */
  lemma WordIsShiftOr(lo: bv16, hi: bv16)
    requires lo < 256 && hi < 256
    ensures (hi << 8) | lo == hi * 256 + lo
    ensures ((hi << 8) | lo) & 0xFF == lo && (hi << 8) | lo >> 8 == hi
  {
  }

  /** Conversion of a 16-bit unsigned pattern to `int16_t`: reduction
      modulo 2^16 into the signed range. */
  function ToInt16(w: int): (v: int16)
    requires 0 <= w < 0x1_0000
    ensures v % 0x1_0000 == w
  {
    if w < 0x8000 then w else w - 0x1_0000
  }

  /** One axis, from its low byte and its high byte: the value whose
      16-bit pattern the pair spells, negative exactly when the top bit of
      the high byte is set. */
  function Decode16(lo: byte, hi: byte): (v: int16)
    ensures v % 0x1_0000 == hi * 256 + lo
    ensures v < 0 <==> hi >= 0x80
  {
    ToInt16(Word(lo, hi))
  }

  /** The little-endian byte pair (low, high) the sensor sends for `v`. */
  function Encode16(v: int16): (pair: (byte, byte))
  {
    (v % 256, (v % 0x1_0000) / 256)
  }

  /** Decoding inverts little-endian encoding for every 16-bit value. */
  lemma DecodeEncode16(v: int16)
    ensures Decode16(Encode16(v).0, Encode16(v).1) == v
  {
    var (lo, hi) := Encode16(v);
    if v >= 0 {
      assert v % 0x1_0000 == v;
    } else {
      assert v % 0x1_0000 == v + 0x1_0000;
      assert v % 256 == (v + 0x1_0000) % 256;
    }
    assert Word(lo, hi) == v % 0x1_0000;
  }

  /** Every byte pair is the encoding of exactly the value it decodes to. */
  lemma EncodeDecode16(lo: byte, hi: byte)
    ensures Encode16(Decode16(lo, hi)) == (lo, hi)
  {
    var w := Word(lo, hi);
    assert w % 256 == lo && w / 256 == hi;
    if w >= 0x8000 {
      assert (w - 0x1_0000) % 256 == w % 256;
    }
  }

  datatype RawSample = RawSample(x: int16, y: int16, z: int16)

  /** The three axes from the six data registers DATAX0..DATAZ1, low byte
      first for each axis. */
  function DecodeAxes(b: seq<byte>): (s: RawSample)
    requires |b| == 6
    ensures EncodeAxes(s) == b
  {
    EncodeDecode16(b[0], b[1]);
    EncodeDecode16(b[2], b[3]);
    EncodeDecode16(b[4], b[5]);
    RawSample(Decode16(b[0], b[1]), Decode16(b[2], b[3]), Decode16(b[4], b[5]))
  }

  /** The six data-register bytes the sensor holds for a sample. */
  function EncodeAxes(s: RawSample): (b: seq<byte>)
    ensures |b| == 6
  {
    [Encode16(s.x).0, Encode16(s.x).1,
     Encode16(s.y).0, Encode16(s.y).1,
     Encode16(s.z).0, Encode16(s.z).1]
  }

  lemma DecodeEncodeAxes(s: RawSample)
    ensures DecodeAxes(EncodeAxes(s)) == s
  {
    DecodeEncode16(s.x);
    DecodeEncode16(s.y);
    DecodeEncode16(s.z);
  }

  lemma EncodeDecodeAxes(b: seq<byte>)
    requires |b| == 6
    ensures EncodeAxes(DecodeAxes(b)) == b
  {
    EncodeDecode16(b[0], b[1]);
    EncodeDecode16(b[2], b[3]);
    EncodeDecode16(b[4], b[5]);
  }

  /** A raw value in physical units (g): exactly a 256th of it. */
  function Scale(raw: int16): (g: real)
    ensures g * 256.0 == raw as real
    ensures -128.0 <= g < 128.0
  {
    assert AccConversion == 1.0 / 256.0;
    raw as real * AccConversion
  }

  /** The conversion factor is exactly 1/256, so scaling is exact and
      maps the 16-bit range onto [-128, 128 - 1/256]. */
  lemma ScaleExact(raw: int16)
    ensures AccConversion == 1.0 / 256.0
    ensures Scale(raw) * 256.0 == raw as real
    ensures -128.0 <= Scale(raw) <= 128.0 - 1.0 / 256.0
    ensures Scale(0x7FFF) == 127.99609375
    ensures Scale(-0x8000) == -128.0
  {
    assert AccConversion == 1.0 / 256.0;
    assert Scale(raw) == raw as real / 256.0;
    assert -32768.0 <= raw as real <= 32767.0;
  }

  /** Distinct raw values give distinct physical values. */
  lemma ScaleInjective(a: int16, b: int16)
    requires Scale(a) == Scale(b)
    ensures a == b
  {
    ScaleExact(a);
    ScaleExact(b);
  }

  /** A converted sample: seconds since the start of acquisition and the
      three axes in g. */
  datatype Reading = Reading(t: real, x: real, y: real, z: real)

  function Convert(t: real, s: RawSample): (r: Reading)
    ensures r.t == t
    ensures r.x * 256.0 == s.x as real && r.y * 256.0 == s.y as real && r.z * 256.0 == s.z as real
  {
    ScaleExact(s.x);
    ScaleExact(s.y);
    ScaleExact(s.z);
    Reading(t, Scale(s.x), Scale(s.y), Scale(s.z))
  }
}
