/** Integer helpers of the sensor test program: big-endian assembly of the
    bytes the sensors send (the barometer's PROM words and ADC samples, the
    accelerometer's axes), the PROM read command, and the memory test
    pattern. The C shifts and ors are written as arithmetic: `b << 8 | c`
    with `c < 256` is `b * 256 + c`. */
module SensorWords {
  import Crc4
  import opened Common

  const Uint32Limit: nat := 0x1_0000_0000

  function Pow256(k: nat): (p: nat)
    ensures p >= 1
    decreases k
  {
    if k == 0 then 1 else 256 * Pow256(k - 1)
  }

  /** The unsigned value of a byte string, most significant byte first. */
  function BigEndian(bytes: seq<Byte>): (n: nat)
    ensures n < Pow256(|bytes|)
    decreases |bytes|
  {
    if |bytes| == 0 then 0
    else BigEndian(bytes[..|bytes| - 1]) * 256 + bytes[|bytes| - 1]
  }

  /** The `k` bytes, most significant first, of a value below 256^k. */
  function ToBigEndian(n: nat, k: nat): (bytes: seq<Byte>)
    requires n < Pow256(k)
    ensures |bytes| == k
    decreases k
  {
    if k == 0 then [] else ToBigEndian(n / 256, k - 1) + [n % 256]
  }

  /** Encoding after decoding gives back the bytes. */
  lemma {:induction false} BigEndianRoundTrip(bytes: seq<Byte>)
    ensures ToBigEndian(BigEndian(bytes), |bytes|) == bytes
    decreases |bytes|
  {
    if |bytes| > 0 {
      var n := |bytes| - 1;
      BigEndianRoundTrip(bytes[..n]);
      assert bytes == bytes[..n] + [bytes[n]];
    }
  }

  /** Decoding after encoding gives back the value. */
  lemma {:induction false} ToBigEndianRoundTrip(n: nat, k: nat)
    requires n < Pow256(k)
    ensures BigEndian(ToBigEndian(n, k)) == n
    decreases k
  {
    if k > 0 {
      ToBigEndianRoundTrip(n / 256, k - 1);
      var bs := ToBigEndian(n, k);
      assert bs[..k - 1] == ToBigEndian(n / 256, k - 1);
    }
  }

  /** Different byte strings of one length are different values. */
  lemma BigEndianInjective(a: seq<Byte>, b: seq<Byte>)
    requires |a| == |b| && BigEndian(a) == BigEndian(b)
    ensures a == b
  {
    BigEndianRoundTrip(a);
    BigEndianRoundTrip(b);
  }

  // ---------------------------------------------------------------------
  // Barometer.

  /** The PROM read command for coefficient `word`: base 0xA0 plus the
      word index shifted left by one. */
  function PromCommand(word: nat): (cmd: Byte)
    requires word < Crc4.PromWords
    ensures 0xA0 <= cmd <= 0xAE && cmd % 2 == 0
    ensures (cmd - 0xA0) / 2 == word
  {
    0xA0 + 2 * word
  }

  /** A 16-bit word from two bytes received first byte high, the
      `(b0 << 8) | b1` both the PROM read and the accelerometer read use. */
  function WordOf(b0: Byte, b1: Byte): (w: nat)
    ensures w < 0x1_0000
    ensures w / 256 == b0 && w % 256 == b1
  {
    BigEndianTwo(b0, b1);
    BigEndian([b0, b1])
  }

  /** The PROM word is the value of the 16-bit word the checksum reads:
      the first byte is its high byte. */
  lemma PromWordIsCrcWord(w: Crc4.Word16)
    ensures WordOf(w.hi as nat, w.lo as nat) == Crc4.Value(w)
  {
    var h, l: nat := w.hi as nat, w.lo as nat;
    FromDivMod(Crc4.Value(w), h, l);
    FromDivMod(WordOf(h, l), h, l);
  }

  lemma FromDivMod(v: nat, h: nat, l: nat)
    requires v / 256 == h && v % 256 == l
    ensures v == 256 * h + l
  {
  }

  lemma BigEndianTwo(b0: Byte, b1: Byte)
    ensures BigEndian([b0, b1]) == b0 * 256 + b1
  {
    assert [b0, b1][..1] == [b0];
    assert [b0][..0] == [];
  }

  lemma BigEndianThree(b0: Byte, b1: Byte, b2: Byte)
    ensures BigEndian([b0, b1, b2]) == b0 * 0x1_0000 + b1 * 256 + b2
  {
    assert [b0, b1, b2][..2] == [b0, b1];
    BigEndianTwo(b0, b1);
  }

  /** A 24-bit ADC sample from three bytes, first byte most significant. */
  function AdcSample(b0: Byte, b1: Byte, b2: Byte): (d: nat)
    ensures d < 0x100_0000
    ensures d / 0x1_0000 == b0 && (d / 256) % 256 == b1 && d % 256 == b2
  {
    BigEndianThree(b0, b1, b2);
    BigEndian([b0, b1, b2])
  }

  // ---------------------------------------------------------------------
  // Accelerometer.

  /** The `(int16_t)` cast of a 16-bit unsigned value: two's complement. */
  function Int16(u: nat): (v: int)
    requires u < 0x1_0000
    ensures -0x8000 <= v < 0x8000
    ensures (v + 0x1_0000) % 0x1_0000 == u
  {
    if u >= 0x8000 then u - 0x1_0000 else u
  }

  /** The 16-bit pattern of an `int16_t` value. */
  function Uint16(v: int): (u: nat)
    requires -0x8000 <= v < 0x8000
    ensures u < 0x1_0000
  {
    if v < 0 then v + 0x1_0000 else v
  }

  lemma Int16RoundTrip(v: int)
    requires -0x8000 <= v < 0x8000
    ensures Int16(Uint16(v)) == v
  {
  }

  lemma Uint16RoundTrip(u: nat)
    requires u < 0x1_0000
    ensures Uint16(Int16(u)) == u
  {
  }

  /** C division by 16 on a signed value: the quotient is truncated toward
      zero (Dafny's `/` rounds toward minus infinity for negatives). */
  function DivTrunc16(x: int): (q: int)
    ensures x >= 0 ==> 16 * q <= x < 16 * q + 16
    ensures x < 0 ==> 16 * q - 16 < x <= 16 * q
  {
    if x >= 0 then x / 16 else -((-x) / 16)
  }

  /** One accelerometer axis in milli-g: the signed big-endian 16-bit
      reading divided by 16. */
  function AccelAxis(hi: Byte, lo: Byte): (a: int)
    ensures -2048 <= a <= 2047
    ensures var raw := Int16(WordOf(hi, lo));
            (raw >= 0 ==> 16 * a <= raw < 16 * a + 16)
            && (raw < 0 ==> 16 * a - 16 < raw <= 16 * a)
  {
    DivTrunc16(Int16(WordOf(hi, lo)))
  }

  /** Truncation is symmetric: negating the reading negates the axis (which
      Dafny's flooring division alone would not give). */
  lemma DivTrunc16Odd(x: int)
    ensures DivTrunc16(-x) == -DivTrunc16(x)
  {
  }

  /** The axis bounds are reached: the most negative reading gives -2048,
      the most positive 2047. */
  lemma AccelAxisExtremes()
    ensures AccelAxis(0x80, 0x00) == -2048
    ensures AccelAxis(0x7F, 0xFF) == 2047
    ensures AccelAxis(0xFF, 0xFF) == 0
  {
  }

  // ---------------------------------------------------------------------
  // Memory test pattern.

  /** TEST_MEM_CHUNKS and TEST_CHUNK_SIZE. */
  const TestChunks: nat := 500
  const TestChunkSize: nat := 256

  /** The `uint32_t` pattern stored at word `index` of chunk `chunk`. */
  function TestValue(chunk: nat, index: nat): (v: nat)
    ensures v < Uint32Limit
  {
    (chunk * 1753 + index * 37271) % Uint32Limit
  }

  /** Within the test's chunks no value wraps around. */
  lemma TestValueNoWrap(chunk: nat, index: nat)
    requires chunk < TestChunks && index < TestChunkSize
    ensures TestValue(chunk, index) == chunk * 1753 + index * 37271
  {
  }

  /** Every word of the test memory holds a different pattern, so a word
      copied to the wrong place is always caught. Since 37271 is 458 modulo
      1753 and 458 * 111 is 1 modulo 1753, equal patterns force equal
      indices. */
  lemma TestValueInjective(c1: nat, i1: nat, c2: nat, i2: nat)
    requires c1 < TestChunks && i1 < TestChunkSize
    requires c2 < TestChunks && i2 < TestChunkSize
    requires TestValue(c1, i1) == TestValue(c2, i2)
    ensures c1 == c2 && i1 == i2
  {
    TestValueNoWrap(c1, i1);
    TestValueNoWrap(c2, i2);
    var d := i2 - i1;
    var e := c1 - c2;
    assert e * 1753 == d * 37271;
    var k := e - 21 * d;
    assert k * 1753 == d * 458;
    var m := 111 * k - 29 * d;
    assert d == m * 1753;
  }
}
