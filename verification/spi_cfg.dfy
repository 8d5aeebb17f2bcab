/** The SPI configuration word the sensor test program computes for a
    requested bus speed: the smallest divider index i (at most 7) for which
    the SPI kernel clock shifted right by i is at most the requested speed,
    with i placed in the MBR field of CFG1, together with an 8-bit frame
    size in the DSIZE field. The field holds the index, not the divider:
    on the STM32H7 an MBR value of i divides the kernel clock by 2^(i+1),
    so the hardware halves the clock once more than the loop computed. */
module SpiConfig {
  import opened Common

  const Uint32Limit: nat := 0x1_0000_0000

  /** The largest divider index the loop tries. */
  const MaxDivider: nat := 7

  /** SPI_CFG1_MBR_0: the lowest bit of the 3-bit MBR field, bit 28. */
  const MbrUnit: nat := 0x1000_0000

  /** SPI_CFG1_DSIZE_VALUE(7): frame size minus one in bits 4..0, that is,
      8-bit transfers. */
  const DsizeEightBits: nat := 7

  /** `x >> i` for an unsigned value. */
  function Shr(x: nat, i: nat): nat
    decreases i
  {
    if i == 0 then x else Shr(x, i - 1) / 2
  }

  function Pow2(i: nat): (p: nat)
    ensures p >= 1
    decreases i
  {
    if i == 0 then 1 else 2 * Pow2(i - 1)
  }

  lemma DivHalf(x: nat, p: nat)
    requires p >= 1
    ensures x / p / 2 == x / (2 * p)
  {
    var q := x / p / 2;
    var r := x - (2 * p) * q;
    assert x == p * (x / p) + x % p;
    assert x / p == 2 * q + (x / p) % 2;
    assert r == p * ((x / p) % 2) + x % p;
    assert 0 <= r < 2 * p;
    DivUnique(x, 2 * p, q, r);
  }

  /** Shifting right by `i` divides by 2^i. */
  lemma {:induction false} ShrIsDivision(x: nat, i: nat)
    ensures Shr(x, i) == x / Pow2(i)
    decreases i
  {
    if i > 0 {
      ShrIsDivision(x, i - 1);
      DivHalf(x, Pow2(i - 1));
    }
  }

  /** A larger shift never gives a larger value. */
  lemma {:induction false} ShrAntitone(x: nat, i: nat, j: nat)
    requires i <= j
    ensures Shr(x, j) <= Shr(x, i)
    decreases j - i
  {
    if i < j {
      ShrAntitone(x, i, j - 1);
    }
  }

  /** The divider index the configuration selects: the first `i` whose
      divided clock is at most the bus speed, or 7 when even 2^7 is not
      enough. */
  function DividerIndex(clock: nat, busSpeed: nat): (i: nat)
    ensures i <= MaxDivider
    ensures Shr(clock, i) <= busSpeed || i == MaxDivider
    ensures forall j :: 0 <= j < i ==> Shr(clock, j) > busSpeed
  {
    SearchFrom(clock, busSpeed, 0)
  }

  function SearchFrom(clock: nat, busSpeed: nat, i: nat): (k: nat)
    requires i <= MaxDivider
    requires forall j :: 0 <= j < i ==> Shr(clock, j) > busSpeed
    ensures i <= k <= MaxDivider
    ensures Shr(clock, k) <= busSpeed || k == MaxDivider
    ensures forall j :: 0 <= j < k ==> Shr(clock, j) > busSpeed
    decreases MaxDivider - i
  {
    if Shr(clock, i) <= busSpeed || i == MaxDivider then i
    else SearchFrom(clock, busSpeed, i + 1)
  }

  /** The MBR field (bits 30..28) of a CFG1 value. */
  function MbrField(cfg1: nat): nat {
    (cfg1 / MbrUnit) % 8
  }

  /** The DSIZE field (bits 4..0) of a CFG1 value. */
  function DsizeField(cfg1: nat): nat {
    cfg1 % 32
  }

  /** The configuration computation. The clock is the board's SPI kernel
      clock, a build-time constant of the board, so it is a parameter.
      The two fields do not overlap (`i * MBR_0` has bits 28 and up only,
      the DSIZE value bits 4..0 only), so the bitwise or is a sum. */
  method GetSpiCfg1(clock: nat, busSpeed: nat) returns (cfg1: nat)
    requires clock < Uint32Limit && busSpeed < Uint32Limit
    ensures cfg1 < Uint32Limit
    ensures MbrField(cfg1) == DividerIndex(clock, busSpeed)
    ensures DsizeField(cfg1) == DsizeEightBits
    ensures cfg1 == MbrField(cfg1) * MbrUnit + DsizeField(cfg1)
  {
    var freq := clock;
    var i: nat := 0;
    while freq > busSpeed && i < MaxDivider
      invariant i <= MaxDivider
      invariant freq == Shr(clock, i)
      invariant forall j :: 0 <= j < i ==> Shr(clock, j) > busSpeed
    {
      freq := freq / 2;
      i := i + 1;
    }
    IndexIsDividerIndex(clock, busSpeed, i);
    cfg1 := i * MbrUnit + DsizeEightBits;
    PackedFields(i);
  }

  /** The packed word holds the divider index in MBR and the frame size in
      DSIZE, and fits in 32 bits. */
  lemma PackedFields(i: nat)
    requires i <= MaxDivider
    ensures i * MbrUnit + DsizeEightBits < Uint32Limit
    ensures MbrField(i * MbrUnit + DsizeEightBits) == i
    ensures DsizeField(i * MbrUnit + DsizeEightBits) == DsizeEightBits
  {
    var c := i * MbrUnit + DsizeEightBits;
    DivUnique(c, MbrUnit, i, DsizeEightBits);
    assert MbrUnit == 32 * 0x80_0000;
    DivUnique(c, 32, i * 0x80_0000, DsizeEightBits);
  }

  /** The divider index is determined by its characterisation. */
  lemma IndexIsDividerIndex(clock: nat, busSpeed: nat, i: nat)
    requires i <= MaxDivider
    requires Shr(clock, i) <= busSpeed || i == MaxDivider
    requires forall j :: 0 <= j < i ==> Shr(clock, j) > busSpeed
    ensures i == DividerIndex(clock, busSpeed)
  {
  }

  /** The divided clock does not exceed the bus speed whenever some divider
      up to 2^7 achieves it; and, when the index is not 0, the next smaller
      divider would have been too fast. */
  lemma DividerMeetsBusSpeed(clock: nat, busSpeed: nat)
    ensures var i := DividerIndex(clock, busSpeed);
            (clock / Pow2(MaxDivider) <= busSpeed ==> clock / Pow2(i) <= busSpeed)
            && (i > 0 ==> clock / Pow2(i - 1) > busSpeed)
  {
    var i := DividerIndex(clock, busSpeed);
    ShrIsDivision(clock, i);
    ShrIsDivision(clock, MaxDivider);
    if i > 0 {
      ShrIsDivision(clock, i - 1);
    }
  }

  /** Asking for a faster bus never selects a larger divider. */
  lemma DividerAntitone(clock: nat, slow: nat, fast: nat)
    requires slow <= fast
    ensures DividerIndex(clock, fast) <= DividerIndex(clock, slow)
  {
    var i := DividerIndex(clock, slow);
    if i < MaxDivider {
      assert Shr(clock, i) <= fast;
    }
  }

  /** A clock already at or below the bus speed is not divided at all. */
  lemma SlowClockUndivided(clock: nat, busSpeed: nat)
    requires clock <= busSpeed
    ensures DividerIndex(clock, busSpeed) == 0
  {
    assert Shr(clock, 0) == clock;
  }
}
