/** The 40-bit frame of the DHT22: how it is accumulated bit by bit, how it
    is split into humidity, temperature and checksum, how the checksum is
    validated and how the raw fields become a reading.

    Readings are kept in integer tenths (of a percent, of a degree Celsius):
    the firmware divides by ten in floating point, which is not modelled.
 */
module Dht22Frame {
  import opened Dht22Timing

  type Byte = b: int | 0 <= b < 0x100
  type Word = w: int | 0 <= w < 0x1_0000
  type Quad = q: int | 0 <= q < 0x1_0000_0000_0000_0000

  /** Bits in one frame. */
  const FrameBits: nat := 40

  /** Calibration offset added to every temperature: -2.0 degrees, in tenths. */
  const Offset: int := -20

  /** The cached reading, in tenths of a degree and tenths of a percent. */
  datatype Reading = Reading(temperature: int, humidity: int)

  /** The three fields of a frame, most significant first. */
  datatype Fields = Fields(humidity: Word, temperature: Word, crc: Byte)

  function Pow2(n: nat): (p: nat)
    ensures p >= 1
  {
    if n == 0 then 1 else 2 * Pow2(n - 1)
  }

  lemma {:induction false} Pow2Monotone(i: nat, j: nat)
    requires i <= j
    ensures Pow2(i) <= Pow2(j)
  {
    if i < j {
      Pow2Monotone(i, j - 1);
    }
  }

  lemma {:induction false} Pow2Add(a: nat, b: nat)
    ensures Pow2(a + b) == Pow2(a) * Pow2(b)
  {
    if a > 0 {
      Pow2Add(a - 1, b);
    }
  }

  lemma Pow2Forty()
    ensures Pow2(39) == 0x80_0000_0000 && Pow2(FrameBits) == 0x100_0000_0000
  {
    assert Pow2(2) == 4;
    assert Pow2(4) == 16;
    Pow2Add(4, 4);
    Pow2Add(8, 8);
    Pow2Add(16, 16);
    Pow2Add(32, 8);
  }

  /** The accumulator shifted left by one, as a 64-bit unsigned value. */
  function ShiftLeft(rx: Quad): (r: Quad)
    ensures rx < 0x8000_0000_0000_0000 ==> r == 2 * rx
    ensures r % 2 == 0
  {
    (rx * 2) % 0x1_0000_0000_0000_0000
  }

  /** Splits the low 40 bits of the accumulator: the checksum is the last
      byte received, the temperature the 16 bits before it and the humidity
      the 16 bits before those. */
  function Split(rx: Quad): (f: Fields)
  {
    Fields((rx / 0x100_0000) % 0x1_0000, (rx / 0x100) % 0x1_0000, rx % 0x100)
  }

  /** The three fields of a 40-bit frame put together give the frame back. */
  lemma {:induction false} SplitJoin(rx: Quad)
    requires rx < 0x100_0000_0000
    ensures var f := Split(rx); rx == f.humidity * 0x100_0000 + f.temperature * 0x100 + f.crc
  {
  }

  /** The 40-bit frame holding the given fields, whatever its checksum byte. */
  function Join(f: Fields): (rx: Quad)
    ensures rx < 0x100_0000_0000
  {
    f.humidity * 0x100_0000 + f.temperature * 0x100 + f.crc
  }

  /** Splitting a joined frame gives its fields back. */
  lemma {:induction false} SplitOfJoin(f: Fields)
    ensures Split(Join(f)) == f
  {
    var rx := Join(f);
    var g := Split(rx);
    SplitJoin(rx);
    UniqueDigits(g.humidity, g.temperature, g.crc, f.humidity, f.temperature, f.crc);
  }

  /** The checksum the sensor sends: the sum of the four data bytes,
      truncated to eight bits. */
  function Checksum(humidity: Word, temperature: Word): (s: Byte)
  {
    (humidity / 0x100 + humidity % 0x100 + temperature / 0x100 + temperature % 0x100) % 0x100
  }

  /** Converts valid raw fields: the humidity is the 16-bit field, the
      temperature a sign-and-magnitude value (bit 15 is the sign) plus the
      calibration offset. */
  function Convert(f: Fields): (r: Reading)
    ensures r.humidity == f.humidity
    ensures f.temperature < 0x8000 ==> r.temperature == f.temperature + Offset
    ensures f.temperature >= 0x8000 ==> r.temperature == 0x8000 - f.temperature + Offset
    ensures -0x7FFF + Offset <= r.temperature <= 0x7FFF + Offset
  {
    var sign := if f.temperature / 0x8000 == 1 then -1 else 1;
    var magnitude := f.temperature % 0x8000;
    Reading(sign * magnitude + Offset, f.humidity)
  }

  /** Validates the checksum and converts the fields; None on a mismatch. */
  function Decode(f: Fields): (r: Option<Reading>)
    ensures r.Some? <==> Checksum(f.humidity, f.temperature) == f.crc
    ensures r.Some? ==> r.value == Convert(f) && r.value.humidity == f.humidity
  {
    if Checksum(f.humidity, f.temperature) == f.crc then Some(Convert(f)) else None
  }

  /** The 40-bit frame a sensor sends for the given raw fields. */
  function Encode(humidity: Word, temperature: Word): (rx: Quad)
    ensures rx < 0x100_0000_0000
  {
    humidity * 0x100_0000 + temperature * 0x100 + Checksum(humidity, temperature)
  }

  /** Splitting an encoded frame gives back its fields with a checksum that validates. */
  lemma {:induction false} SplitEncode(humidity: Word, temperature: Word)
    ensures Split(Encode(humidity, temperature)) == Fields(humidity, temperature, Checksum(humidity, temperature))
    ensures Decode(Split(Encode(humidity, temperature))).Some?
  {
    var rx := Encode(humidity, temperature);
    var f := Split(rx);
    var c := Checksum(humidity, temperature);
    SplitJoin(rx);
    UniqueDigits(f.humidity, f.temperature, f.crc, humidity, temperature, c);
  }

  /** A 40-bit frame validates exactly when it is the encoding of its own data fields. */
  lemma {:induction false} DecodeIffEncoded(rx: Quad)
    requires rx < 0x100_0000_0000
    ensures Decode(Split(rx)).Some? <==> rx == Encode(Split(rx).humidity, Split(rx).temperature)
  {
    var f := Split(rx);
    SplitJoin(rx);
    SplitEncode(f.humidity, f.temperature);
  }

  lemma UniqueDigits(h: Word, t: Word, c: Byte, h': Word, t': Word, c': Byte)
    requires h * 0x100_0000 + t * 0x100 + c == h' * 0x100_0000 + t' * 0x100 + c'
    ensures h == h' && t == t' && c == c'
  {
  }

  /** The 16-bit sign-and-magnitude code of a temperature in tenths. */
  function SignMagnitude(v: int): (w: Word)
    requires -0x7FFF <= v <= 0x7FFF
  {
    if v < 0 then 0x8000 - v else v
  }

  /** Converting the sign-and-magnitude code of a value gives the value back,
      shifted by the calibration offset. */
  lemma {:induction false} ConvertSignMagnitude(humidity: Word, v: int, crc: Byte)
    requires -0x7FFF <= v <= 0x7FFF
    ensures Convert(Fields(humidity, SignMagnitude(v), crc)) == Reading(v + Offset, humidity)
  {
  }

  /** The last `n` bits of `f`, most significant first: the order in which
      the sensor sends them. */
  function Bits(f: nat, n: nat): (bits: seq<Bit>)
    ensures |bits| == n
  {
    if n == 0 then [] else Bits(f / 2, n - 1) + [f % 2]
  }

  /** The value the firmware's accumulator holds after shifting in `bits`
      from zero, one bit at a time. */
  function Accumulate(bits: seq<Bit>): (acc: nat)
  {
    if bits == [] then 0 else 2 * Accumulate(bits[..|bits| - 1]) + bits[|bits| - 1]
  }

  /** Accumulating n bits stays below 2^n. */
  lemma {:induction false} AccumulateBound(bits: seq<Bit>)
    ensures Accumulate(bits) < Pow2(|bits|)
  {
    if bits != [] {
      AccumulateBound(bits[..|bits| - 1]);
    }
  }

  /** Shifting in the bits of a value gives the value back. */
  lemma {:induction false} AccumulateBits(f: nat, n: nat)
    requires f < Pow2(n)
    ensures Accumulate(Bits(f, n)) == f
  {
    if n > 0 {
      var bits := Bits(f, n);
      assert bits[..n - 1] == Bits(f / 2, n - 1) && bits[n - 1] == f % 2;
      assert Pow2(n) == 2 * Pow2(n - 1);
      assert f / 2 < Pow2(n - 1);
      AccumulateBits(f / 2, n - 1);
      assert Accumulate(bits) == 2 * (f / 2) + f % 2;
    }
  }
}
