/** The MS56XX PROM checksum: a 4-bit CRC computed over the eight 16-bit
    PROM words of the barometer, as the sensor test program computes it
    before trusting the calibration coefficients.

    A 16-bit quantity (a PROM word, or the `uint16_t` checksum register) is
    held as its two bytes, high and low: the shift carries bit 7 of the low
    byte into bit 0 of the high byte, and the taps 0x3000 lie in the high
    byte (0x30). */
module Crc4 {
  import Common

  /** Number of PROM words of an MS56XX sensor. */
  const PromWords: nat := 8

  /** A 16-bit value as its big-endian bytes; a PROM word's `hi` is the
      first byte the sensor sends. */
  datatype Word16 = Word16(hi: bv8, lo: bv8)

  function ByteXor(a: bv8, b: bv8): bv8 {
    a ^ b
  }

  function Xor(a: Word16, b: Word16): Word16 {
    Word16(ByteXor(a.hi, b.hi), ByteXor(a.lo, b.lo))
  }

  /** Xor of a byte into the low half of the register. */
  function XorByte(r: Word16, b: bv8): Word16 {
    Word16(r.hi, r.lo ^ b)
  }

  /** Shift left by one; bit 15 falls off, as the `uint16_t` assignment
      truncates it. */
  function Shift(r: Word16): Word16 {
    Word16((r.hi << 1) | (r.lo >> 7), r.lo << 1)
  }

  /** One of the eight rounds per byte: shift left, and xor 0x3000 (0x30 in
      the high byte) when bit 15 was set before the shift. */
  function Round(r: Word16): Word16 {
    if r.hi & 0x80 != 0 then Tap(Shift(r)) else Shift(r)
  }

  /** Xor with the polynomial taps 0x3000. */
  function Tap(r: Word16): Word16 {
    Word16(r.hi ^ 0x30, r.lo)
  }

  /** `n` rounds applied one after the other. */
  function Rounds(r: Word16, n: nat): Word16
    decreases n
  {
    if n == 0 then r else Round(Rounds(r, n - 1))
  }

  /** Folding one byte into the register: xor it into the low byte, then
      eight rounds. */
  function ByteStep(r: Word16, b: bv8): Word16 {
    Rounds(XorByte(r, b), 8)
  }

  /** The register after folding `bytes` in order, starting from `init`. */
  function Register(init: Word16, bytes: seq<bv8>): Word16
    decreases |bytes|
  {
    if |bytes| == 0 then init
    else ByteStep(Register(init, bytes[..|bytes| - 1]), bytes[|bytes| - 1])
  }

  /** The byte stream the checksum runs over: for word k, step 2k takes
      its high byte and step 2k+1 its low byte. */
  function PromBytes(words: seq<Word16>): (bytes: seq<bv8>)
    ensures |bytes| == 2 * |words|
  {
    seq(2 * |words|, i requires 0 <= i < 2 * |words| => PromByte(words, i))
  }

  /** Byte `i` of the stream: the high byte of word `i / 2` when `i` is
      even, its low byte when `i` is odd. */
  function PromByte(words: seq<Word16>, i: nat): bv8
    requires i < 2 * |words|
  {
    if i % 2 == 0 then words[i / 2].hi else words[i / 2].lo
  }

  /** The result nibble: bits 12..15 of the register. */
  function Nibble(r: Word16): bv8 {
    r.hi >> 4
  }

  lemma NibbleBound(r: Word16)
    ensures Nibble(r) <= 0xF
  {
  }

  const Zero: Word16 := Word16(0, 0)

  /** The 4-bit checksum: the top nibble of the register after all
      sixteen bytes, starting from zero. */
  function Crc4Of(words: seq<Word16>): (crc: bv8)
    ensures crc <= 0xF
  {
    var r := Register(Zero, PromBytes(words));
    NibbleBound(r);
    Nibble(r)
  }

  /** The checksum routine as written: one pass per byte, picking the high
      or low half of word `cnt >> 1` by the parity of `cnt`, and an inner
      count-down loop of eight rounds. */
  method ComputeCrc4(data: seq<Word16>) returns (crc: bv8)
    requires |data| == PromWords
    ensures crc == Crc4Of(data)
    ensures crc <= 0xF
  {
    ghost var bytes := PromBytes(data);
    var rem := Zero;
    var cnt: nat := 0;
    while cnt < 16
      invariant cnt <= 16
      invariant rem == Register(Zero, bytes[..cnt])
    {
      // For the unsigned counter, `cnt & 1` is `cnt % 2` and `cnt >> 1` is `cnt / 2`.
      var b: bv8;
      if cnt % 2 == 1 {
        b := data[cnt / 2].lo;
      } else {
        b := data[cnt / 2].hi;
      }
      assert b == bytes[cnt];
      rem := EightRounds(XorByte(rem, b));
      RegisterPrefix(bytes, cnt);
      cnt := cnt + 1;
    }
    assert bytes[..cnt] == bytes;
    crc := Nibble(rem);
    NibbleBound(rem);
  }

  /** The inner loop: eight rounds, counted down. */
  method EightRounds(start: Word16) returns (rem: Word16)
    ensures rem == Rounds(start, 8)
  {
    rem := start;
    var bit: nat := 8;
    while bit > 0
      invariant bit <= 8
      invariant rem == Rounds(start, 8 - bit)
    {
      RoundsStep(start, 8 - bit);
      rem := Round(rem);
      bit := bit - 1;
    }
  }

  lemma RoundsStep(r: Word16, n: nat)
    ensures Rounds(r, n + 1) == Round(Rounds(r, n))
  {
  }

  lemma RegisterPrefix(bytes: seq<bv8>, k: nat)
    requires k < |bytes|
    ensures Register(Zero, bytes[..k + 1]) == ByteStep(Register(Zero, bytes[..k]), bytes[k])
  {
    assert bytes[..k + 1][..k] == bytes[..k];
  }

  // ---------------------------------------------------------------------
  // The register as the C code's `uint16_t`.

  /** The unsigned value of a 16-bit quantity. */
  function Value(r: Word16): (v: nat)
    ensures v < 0x1_0000
    ensures v / 256 == r.hi as nat && v % 256 == r.lo as nat
  {
    Common.DivUnique(r.hi as nat * 256 + r.lo as nat, 256, r.hi as nat, r.lo as nat);
    r.hi as nat * 256 + r.lo as nat
  }

  /** A round tests bit 15 of the register and shifts the whole register
      left by one, truncated to 16 bits: `n_rem << 1` stored back into a
      `uint16_t`. The taps are then applied to the shifted value. */
  lemma RoundValue(r: Word16)
    ensures Value(Shift(r)) == (2 * Value(r)) % 0x1_0000
    ensures Round(r) == if Value(r) >= 0x8000 then Tap(Shift(r)) else Shift(r)
  {
    ShiftValue(r);
    TopBitValue(r);
  }

  lemma ShiftValue(r: Word16)
    ensures Value(Shift(r)) == (2 * Value(r)) % 0x1_0000
  {
    ShiftLoValue(r.lo);
    ShiftHiValue(r.hi, r.lo);
    ShiftArith(r.hi as nat, r.lo as nat);
  }

  /** Bit 15 is set exactly when the value is at least 0x8000. */
  lemma TopBitValue(r: Word16)
    ensures r.hi & 0x80 != 0 <==> Value(r) >= 0x8000
  {
    TopBitByte(r.hi);
  }

  lemma TopBitByte(h: bv8)
    ensures h & 0x80 != 0 <==> h as nat >= 128
  {
  }

  lemma ShiftLoValue(b: bv8)
    ensures (b << 1) as nat == (2 * b as nat) % 256
  {
  }

  lemma ShiftHiValue(h: bv8, l: bv8)
    ensures ((h << 1) | (l >> 7)) as nat == (2 * h as nat + l as nat / 128) % 256
  {
  }

  /** Doubling a 16-bit value given as two bytes: the low byte's top bit
      carries into the high byte, and the high byte's top bit is lost. */
  lemma ShiftArith(h: nat, l: nat)
    requires h < 256 && l < 256
    ensures 256 * ((2 * h + l / 128) % 256) + (2 * l) % 256 == (2 * (256 * h + l)) % 0x1_0000
  {
    var c, l0 := l / 128, l % 128;
    Common.DivUnique(2 * l, 256, c, 2 * l0);
    var q, h0 := (2 * h + c) / 256, (2 * h + c) % 256;
    Common.DivUnique(2 * (256 * h + l), 0x1_0000, q, 256 * h0 + 2 * l0);
  }

  /** The result is `(n_rem >> 12) & 0xF`: the top four bits of the
      register's value. */
  lemma NibbleValue(r: Word16)
    ensures Nibble(r) as nat == Value(r) / 0x1000
  {
    NibbleByte(r.hi);
    Common.DivUnique(Value(r), 0x1000, r.hi as nat / 16, (r.hi as nat % 16) * 256 + r.lo as nat);
  }

  lemma NibbleByte(h: bv8)
    ensures (h >> 4) as nat == h as nat / 16
  {
  }

  // ---------------------------------------------------------------------
  // Linearity. The bit facts are stated one at a time: each is a small
  // query on its own.

  /** Byte-wise and word-wise xor of two equally long sequences. */
  function XorBytes(xs: seq<bv8>, ys: seq<bv8>): (zs: seq<bv8>)
    requires |xs| == |ys|
    ensures |zs| == |xs|
  {
    seq(|xs|, i requires 0 <= i < |xs| => ByteXor(xs[i], ys[i]))
  }

  function XorWords(xs: seq<Word16>, ys: seq<Word16>): (zs: seq<Word16>)
    requires |xs| == |ys|
    ensures |zs| == |xs|
  {
    seq(|xs|, i requires 0 <= i < |xs| => Xor(xs[i], ys[i]))
  }

  lemma ShiftLinear(a: Word16, b: Word16)
    ensures Shift(Xor(a, b)) == Xor(Shift(a), Shift(b))
  {
    assert ((a.hi ^ b.hi) << 1) | ((a.lo ^ b.lo) >> 7)
        == ((a.hi << 1) | (a.lo >> 7)) ^ ((b.hi << 1) | (b.lo >> 7));
    assert (a.lo ^ b.lo) << 1 == (a.lo << 1) ^ (b.lo << 1);
  }

  lemma TopBitXor(a: bv8, b: bv8)
    ensures ((a ^ b) & 0x80 != 0) == ((a & 0x80 != 0) != (b & 0x80 != 0))
  {
  }

  lemma TapBoth(a: Word16, b: Word16)
    ensures Xor(Tap(a), Tap(b)) == Xor(a, b)
  {
    assert (a.hi ^ 0x30) ^ (b.hi ^ 0x30) == a.hi ^ b.hi;
  }

  lemma TapLeft(a: Word16, b: Word16)
    ensures Tap(Xor(a, b)) == Xor(Tap(a), b)
  {
    assert (a.hi ^ b.hi) ^ 0x30 == (a.hi ^ 0x30) ^ b.hi;
  }

  lemma TapRight(a: Word16, b: Word16)
    ensures Tap(Xor(a, b)) == Xor(a, Tap(b))
  {
    assert (a.hi ^ b.hi) ^ 0x30 == a.hi ^ (b.hi ^ 0x30);
  }

  lemma RoundLinearBoth(a: Word16, b: Word16)
    requires a.hi & 0x80 != 0 && b.hi & 0x80 != 0
    ensures Round(Xor(a, b)) == Xor(Round(a), Round(b))
  {
    ShiftLinear(a, b);
    TopBitXor(a.hi, b.hi);
    TapBoth(Shift(a), Shift(b));
  }

  lemma RoundLinearLeft(a: Word16, b: Word16)
    requires a.hi & 0x80 != 0 && b.hi & 0x80 == 0
    ensures Round(Xor(a, b)) == Xor(Round(a), Round(b))
  {
    ShiftLinear(a, b);
    TopBitXor(a.hi, b.hi);
    TapLeft(Shift(a), Shift(b));
  }

  lemma RoundLinearRight(a: Word16, b: Word16)
    requires a.hi & 0x80 == 0 && b.hi & 0x80 != 0
    ensures Round(Xor(a, b)) == Xor(Round(a), Round(b))
  {
    ShiftLinear(a, b);
    TopBitXor(a.hi, b.hi);
    TapRight(Shift(a), Shift(b));
  }

  lemma RoundLinearNeither(a: Word16, b: Word16)
    requires a.hi & 0x80 == 0 && b.hi & 0x80 == 0
    ensures Round(Xor(a, b)) == Xor(Round(a), Round(b))
  {
    ShiftLinear(a, b);
    TopBitXor(a.hi, b.hi);
  }

  /** One round is linear over xor. */
  lemma RoundLinear(a: Word16, b: Word16)
    ensures Round(Xor(a, b)) == Xor(Round(a), Round(b))
  {
    if a.hi & 0x80 != 0 {
      if b.hi & 0x80 != 0 { RoundLinearBoth(a, b); } else { RoundLinearLeft(a, b); }
    } else {
      if b.hi & 0x80 != 0 { RoundLinearRight(a, b); } else { RoundLinearNeither(a, b); }
    }
  }

  lemma {:induction false} RoundsLinear(a: Word16, b: Word16, n: nat)
    ensures Rounds(Xor(a, b), n) == Xor(Rounds(a, n), Rounds(b, n))
    decreases n
  {
    if n > 0 {
      RoundsLinear(a, b, n - 1);
      RoundLinear(Rounds(a, n - 1), Rounds(b, n - 1));
    }
  }

  lemma XorByteLinear(a: Word16, b: Word16, x: bv8, y: bv8)
    ensures XorByte(Xor(a, b), x ^ y) == Xor(XorByte(a, x), XorByte(b, y))
  {
  }

  lemma ByteStepLinear(a: Word16, b: Word16, x: bv8, y: bv8)
    ensures ByteStep(Xor(a, b), x ^ y) == Xor(ByteStep(a, x), ByteStep(b, y))
  {
    XorByteLinear(a, b, x, y);
    RoundsLinear(XorByte(a, x), XorByte(b, y), 8);
  }

  /** The register is linear over xor: folding the xor of two streams from
      the xor of two start values gives the xor of the two registers. */
  lemma {:induction false} RegisterLinear(a: Word16, b: Word16, xs: seq<bv8>, ys: seq<bv8>)
    requires |xs| == |ys|
    ensures Register(Xor(a, b), XorBytes(xs, ys)) == Xor(Register(a, xs), Register(b, ys))
    decreases |xs|
  {
    if |xs| > 0 {
      var n := |xs| - 1;
      var zs := XorBytes(xs, ys);
      assert zs[..n] == XorBytes(xs[..n], ys[..n]);
      RegisterLinear(a, b, xs[..n], ys[..n]);
      ByteStepLinear(Register(a, xs[..n]), Register(b, ys[..n]), xs[n], ys[n]);
    }
  }

  lemma PromBytesXor(p: seq<Word16>, q: seq<Word16>)
    requires |p| == |q|
    ensures PromBytes(XorWords(p, q)) == XorBytes(PromBytes(p), PromBytes(q))
  {
    forall i | 0 <= i < 2 * |p|
      ensures PromByte(XorWords(p, q), i) == ByteXor(PromByte(p, i), PromByte(q, i))
    {
      PromByteXor(p, q, i);
    }
  }

  lemma PromByteXor(p: seq<Word16>, q: seq<Word16>, i: nat)
    requires |p| == |q| && i < 2 * |p|
    ensures PromByte(XorWords(p, q), i) == ByteXor(PromByte(p, i), PromByte(q, i))
  {
    assert XorWords(p, q)[i / 2] == Xor(p[i / 2], q[i / 2]);
  }

  lemma NibbleXor(a: Word16, b: Word16)
    ensures Nibble(Xor(a, b)) == Nibble(a) ^ Nibble(b)
  {
  }

  /** The checksum is linear: corrupting a PROM by the error pattern `e`
      changes its checksum by the checksum of `e` alone, whatever the data.
      `CorruptionCaught` turns this into a statement about the check. */
  lemma Crc4Linear(p: seq<Word16>, e: seq<Word16>)
    requires |p| == |e|
    ensures Crc4Of(XorWords(p, e)) == Crc4Of(p) ^ Crc4Of(e)
  {
    PromBytesXor(p, e);
    assert Xor(Zero, Zero) == Zero;
    RegisterLinear(Zero, Zero, PromBytes(p), PromBytes(e));
    NibbleXor(Register(Zero, PromBytes(p)), Register(Zero, PromBytes(e)));
  }

  // ---------------------------------------------------------------------
  // PROM validation.

  /** The words as the sensor reader keeps them, and its `crc_ok` flag. */
  datatype PromState = PromState(prom: seq<Word16>, crcOk: bool)

  predicate AllZero(prom: seq<Word16>) {
    forall i :: 0 <= i < |prom| ==> prom[i] == Zero
  }

  /** Word 7 with its low byte (which carries the stored checksum) cleared,
      the effect of `&= 0xff00`. */
  function Masked(prom: seq<Word16>): (m: seq<Word16>)
    requires |prom| == PromWords
    ensures |m| == PromWords
    ensures forall i :: 0 <= i < 7 ==> m[i] == prom[i]
    ensures m[7].hi == prom[7].hi && m[7].lo == 0
  {
    prom[7 := Word16(prom[7].hi, 0)]
  }

  /** The checksum stored in a PROM: the low nibble of word 7. */
  function StoredCrc(prom: seq<Word16>): bv8
    requires |prom| == PromWords
  {
    prom[7].lo & 0x0F
  }

  /** The validation step after the eight words have been read: an
      all-zero PROM (no sensor answering) is left alone and `crc_ok` keeps
      its value; otherwise the stored nibble is compared with the checksum
      of the masked words, and the masked words are kept. */
  function ValidateProm(prom: seq<Word16>, crcOk: bool): (s: PromState)
    requires |prom| == PromWords
    ensures |s.prom| == PromWords
    ensures AllZero(prom) ==> s == PromState(prom, crcOk)
    ensures !AllZero(prom) ==> s.prom == Masked(prom)
  {
    if AllZero(prom) then PromState(prom, crcOk)
    else
      var masked := Masked(prom);
      PromState(masked, StoredCrc(prom) == Crc4Of(masked))
  }

  /** What a correctly programmed PROM holds: the checksum of the masked
      words in the low nibble of word 7. */
  function Seal(prom: seq<Word16>): (sealed: seq<Word16>)
    requires |prom| == PromWords
    ensures |sealed| == PromWords
    ensures Masked(sealed) == Masked(prom)
    ensures StoredCrc(sealed) == Crc4Of(Masked(prom))
  {
    var crc := Crc4Of(Masked(prom));
    SealNibble(prom[7].hi, crc);
    prom[7 := Word16(prom[7].hi, crc)]
  }

  lemma SealNibble(hi: bv8, crc: bv8)
    requires crc <= 0xF
    ensures crc & 0x0F == crc
  {
  }

  /** Round trip: a sealed PROM passes the check (unless it is blank, in
      which case the flag is untouched). */
  lemma SealedPromPasses(prom: seq<Word16>, crcOk: bool)
    requires |prom| == PromWords
    ensures var s := ValidateProm(Seal(prom), crcOk);
            s.crcOk == (if AllZero(Seal(prom)) then crcOk else true)
  {
  }

  /** The verdict, stated without the code's steps: a non-blank PROM
      passes exactly when its stored nibble agrees with a sealed copy. */
  lemma ValidateVerdict(prom: seq<Word16>, crcOk: bool)
    requires |prom| == PromWords
    requires !AllZero(prom)
    ensures ValidateProm(prom, crcOk).crcOk <==> StoredCrc(prom) == StoredCrc(Seal(prom))
  {
  }

  lemma FlipNibble(lo: bv8, flip: bv8)
    requires 0 < flip <= 0xF
    ensures (lo ^ flip) & 0x0F != lo & 0x0F
    ensures lo ^ flip != lo
  {
  }

  /** A damaged checksum nibble is always caught: flipping any non-empty
      set of bits of the nibble of a correctly sealed PROM makes it fail
      the check, and never turns it into a blank PROM. */
  lemma DamagedNibbleFails(prom: seq<Word16>, flip: bv8, crcOk: bool)
    requires |prom| == PromWords
    requires 0 < flip <= 0xF
    ensures var s := Seal(prom);
            var bad := s[7 := Word16(s[7].hi, s[7].lo ^ flip)];
            !AllZero(bad) && !ValidateProm(bad, crcOk).crcOk
  {
    var s := Seal(prom);
    var bad := s[7 := Word16(s[7].hi, s[7].lo ^ flip)];
    FlipNibble(s[7].lo, flip);
    assert Masked(bad) == Masked(s);
    if AllZero(bad) {
      assert bad[7] == Zero;
      assert AllZero(Masked(prom));
      BlankCrc(Masked(prom));
    }
  }

  /** An all-zero PROM has checksum zero, a consequence of linearity. */
  lemma BlankCrc(z: seq<Word16>)
    requires AllZero(z)
    ensures Crc4Of(z) == 0
  {
    assert XorWords(z, z) == z;
    Crc4Linear(z, z);
  }

  lemma KeepNibble(lo: bv8, bits: bv8)
    requires bits & 0x0F == 0
    ensures (lo ^ bits) & 0x0F == lo & 0x0F
  {
  }

  /** Bits 4..7 of word 7 are neither part of the stored checksum nor of
      the checksummed data: changing them never changes the verdict. */
  lemma ReservedBitsIgnored(prom: seq<Word16>, bits: bv8, crcOk: bool)
    requires |prom| == PromWords
    requires bits & 0x0F == 0
    requires !AllZero(prom) && !AllZero(prom[7 := Word16(prom[7].hi, prom[7].lo ^ bits)])
    ensures ValidateProm(prom[7 := Word16(prom[7].hi, prom[7].lo ^ bits)], crcOk).crcOk
            == ValidateProm(prom, crcOk).crcOk
  {
    var other := prom[7 := Word16(prom[7].hi, prom[7].lo ^ bits)];
    KeepNibble(prom[7].lo, bits);
    assert Masked(other) == Masked(prom);
  }

  lemma XorSame(a: bv8, b: bv8)
    ensures a == a ^ b <==> b == 0
  {
  }

  /** An error pattern with a zero low byte in word 7 commutes with the
      masking and leaves the stored checksum alone. */
  lemma MaskedXor(p: seq<Word16>, e: seq<Word16>)
    requires |p| == PromWords && |e| == PromWords
    requires e[7].lo == 0
    ensures Masked(XorWords(p, e)) == XorWords(Masked(p), e)
    ensures StoredCrc(XorWords(p, e)) == StoredCrc(p)
  {
    var m := Masked(XorWords(p, e));
    var x := XorWords(Masked(p), e);
    assert m[7] == x[7];
    forall i | 0 <= i < 7
      ensures m[i] == x[i]
    {
    }
  }

  /** The verdict on a PROM that passes, corrupted by such a pattern. */
  lemma CorruptionVerdict(p: seq<Word16>, e: seq<Word16>, crcOk: bool)
    requires |p| == PromWords && |e| == PromWords
    requires e[7].lo == 0
    ensures StoredCrc(p) == Crc4Of(Masked(p)) && !AllZero(XorWords(p, e)) ==>
              (ValidateProm(XorWords(p, e), crcOk).crcOk <==> Crc4Of(e) == 0)
  {
    MaskedXor(p, e);
    Crc4Linear(Masked(p), e);
    XorSame(StoredCrc(p), Crc4Of(e));
  }

  /** Which corruptions the check catches. Take a correctly sealed PROM and
      an error pattern `e` that leaves the byte holding the stored checksum
      alone (word 7's low byte). The corrupted PROM, if it is not blank,
      passes exactly when the checksum of `e` itself is 0. */
  lemma CorruptionCaught(prom: seq<Word16>, e: seq<Word16>, crcOk: bool)
    requires |prom| == PromWords && |e| == PromWords
    requires e[7].lo == 0
    ensures var bad := XorWords(Seal(prom), e);
            !AllZero(bad) ==> (ValidateProm(bad, crcOk).crcOk <==> Crc4Of(e) == 0)
  {
    CorruptionVerdict(Seal(prom), e, crcOk);
  }
}
