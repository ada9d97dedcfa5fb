/**
 * The two 32-bit round-up helpers of the PE auxiliaries agree: the mask-based
 * AlignToSize and the remainder-based alignOffset give the same value for any
 * power-of-two alignment that does not wrap past 2^32.
 */
module Alignment {
  import opened Bytes
  import opened PeAux

  /** Without wrap-around, AlignToSize masks n + a - 1 with ~(a - 1). */
  lemma AlignToSizeNoWrap(n: u32, a: u32)
    requires 1 <= a && n + a - 1 < TWO_32
    ensures AlignToSize(n, a) == And32(n + a - 1, TWO_32 - a)
  {
    assert Add32(n, Sub32(a, 1)) == n + a - 1;
    assert U32_MAX - Sub32(a, 1) == TWO_32 - a;
  }

  /** For a power-of-two alignment `a` the mask rounds n + a - 1 down to a multiple of a. */
  lemma {:induction false} AlignToSizeMasks(n: u32, a: u32, k: nat)
    requires k < 32 && a == Pow2(k) && n + a - 1 < TWO_32
    ensures AlignToSize(n, a) == (n + a - 1) - (n + a - 1) % a
  {
    AlignToSizeNoWrap(n, a);
    And32HighMask(n + a - 1, a, k);
  }

  /** A power of two below 2^32 fits a 32-bit alignment. */
  lemma Pow2Below32(k: nat)
    requires k < 32
    ensures Pow2(k) < TWO_32
  {
    Pow2Values();
    Pow2Mono(k, 31);
    Pow2Add(31, 1);
  }

  /**
   * For a power-of-two alignment and no wrap-around, AlignToSize agrees with
   * alignOffset: both give the least multiple of the alignment that is >= n.
   */
  lemma {:induction false} AlignToSizeRoundsUp(n: u32, k: nat)
    requires k < 32 && n + Pow2(k) - 1 < TWO_32
    ensures Pow2(k) < TWO_32
    ensures AlignToSize(n, Pow2(k)) == RoundUp(n, Pow2(k))
    ensures AlignToSize(n, Pow2(k)) == AlignOffset(n, Pow2(k))
  {
    Pow2Below32(k);
    var a: u32 := Pow2(k);
    AlignToSizeMasks(n, a, k);
    RoundDownIsRoundUp(n, a);
    var r := RoundUp(n, a);
    assert r < TWO_32;
    assert AlignOffset(n, a) == r % TWO_32 == r;
  }
}
