// Fixed-width unsigned integers, C-style wrap-around and little-endian
// encoding over byte sequences. The C++ library reads every on-disk record
// through little-endian byte streams; this module is that layer.
module Bytes {

  const TWO_8: int := 0x100
  const TWO_16: int := 0x1_0000
  const TWO_32: int := 0x1_0000_0000
  const TWO_64: int := 0x1_0000_0000_0000_0000

  type u8 = x: int | 0 <= x < 0x100
  type u16 = x: int | 0 <= x < 0x1_0000
  type u32 = x: int | 0 <= x < 0x1_0000_0000
  type u64 = x: int | 0 <= x < 0x1_0000_0000_0000_0000

  /** The all-ones 32-bit value that the library uses as "no value". */
  const U32_MAX: u32 := 0xFFFF_FFFF

  /** Unsigned 32-bit addition as the C++ `uint32_t + uint32_t` computes it. */
  function Add32(a: u32, b: u32): (r: u32)
    ensures a + b < TWO_32 ==> r == a + b
    ensures a + b >= TWO_32 ==> r == a + b - TWO_32
  {
    (a + b) % TWO_32
  }

  /** Unsigned 32-bit subtraction (wraps below zero). */
  function Sub32(a: u32, b: u32): (r: u32)
    ensures b <= a ==> r == a - b
    ensures a < b ==> r == a - b + TWO_32
  {
    (a - b) % TWO_32
  }

  /** Unsigned 64-bit addition. */
  function Add64(a: u64, b: u64): (r: u64)
    ensures a + b < TWO_64 ==> r == a + b
    ensures a + b >= TWO_64 ==> r == a + b - TWO_64
  {
    (a + b) % TWO_64
  }

  /** Truncation of any non-negative value to its low 32 bits. */
  function Trunc32(x: nat): (r: u32)
    ensures x < TWO_32 ==> r == x
    ensures r <= x
  {
    x % TWO_32
  }

  /** Truncation to the low 16 bits. */
  function Trunc16(x: nat): (r: u16)
    ensures x < TWO_16 ==> r == x
  {
    x % TWO_16
  }

  // ---------------------------------------------------------------------
  // Little-endian decoding of fields at a byte position

  function U16At(s: seq<u8>, at: nat): u16
    requires at + 2 <= |s|
  {
    s[at] as int + 0x100 * (s[at + 1] as int)
  }

  function U32At(s: seq<u8>, at: nat): u32
    requires at + 4 <= |s|
  {
    U16At(s, at) as int + 0x1_0000 * (U16At(s, at + 2) as int)
  }

  function U64At(s: seq<u8>, at: nat): u64
    requires at + 8 <= |s|
  {
    U32At(s, at) as int + 0x1_0000_0000 * (U32At(s, at + 4) as int)
  }

  // ---------------------------------------------------------------------
  // Little-endian encoding

  function Enc16(x: u16): (r: seq<u8>)
    ensures |r| == 2
  {
    [x % 0x100, x / 0x100]
  }

  function Enc32(x: u32): (r: seq<u8>)
    ensures |r| == 4
  {
    Enc16(x % 0x1_0000) + Enc16(x / 0x1_0000)
  }

  function Enc64(x: u64): (r: seq<u8>)
    ensures |r| == 8
  {
    Enc32(x % 0x1_0000_0000) + Enc32(x / 0x1_0000_0000)
  }

  lemma Dec16Enc16(x: u16, pre: seq<u8>, post: seq<u8>)
    ensures U16At(pre + Enc16(x) + post, |pre|) == x
  {
    var s := pre + Enc16(x) + post;
    assert s[|pre|] == x % 0x100 && s[|pre| + 1] == x / 0x100;
  }

  /** Decoding an encoded 32-bit field, wherever it sits, gives it back. */
  lemma Dec32Enc32(x: u32, pre: seq<u8>, post: seq<u8>)
    ensures U32At(pre + Enc32(x) + post, |pre|) == x
  {
    var lo, hi := x % 0x1_0000, x / 0x1_0000;
    var s := pre + Enc32(x) + post;
    assert s == pre + Enc16(lo) + (Enc16(hi) + post);
    Dec16Enc16(lo, pre, Enc16(hi) + post);
    assert s == (pre + Enc16(lo)) + Enc16(hi) + post;
    Dec16Enc16(hi, pre + Enc16(lo), post);
  }

  lemma Dec64Enc64(x: u64, pre: seq<u8>, post: seq<u8>)
    ensures U64At(pre + Enc64(x) + post, |pre|) == x
  {
    var lo, hi := x % 0x1_0000_0000, x / 0x1_0000_0000;
    var s := pre + Enc64(x) + post;
    assert s == pre + Enc32(lo) + (Enc32(hi) + post);
    Dec32Enc32(lo, pre, Enc32(hi) + post);
    assert s == (pre + Enc32(lo)) + Enc32(hi) + post;
    Dec32Enc32(hi, pre + Enc32(lo), post);
  }

  /** A slice of a slice is a slice of the whole. */
  lemma SliceOfSlice(s: seq<u8>, at: nat, n: nat, k: nat, w: nat)
    requires at + n <= |s| && k + w <= n
    ensures s[at..at + n][k..k + w] == s[at + k..at + k + w]
  {
    var t := s[at..at + n][k..k + w];
    assert forall j :: 0 <= j < w ==> t[j] == s[at + k + j];
  }

  /** A 16-bit field reads back from the two bytes that encode it. */
  lemma U16AtEnc(s: seq<u8>, at: nat, x: u16)
    requires at + 2 <= |s| && s[at..at + 2] == Enc16(x)
    ensures U16At(s, at) == x
  {
    assert s[at] == s[at..at + 2][0] && s[at + 1] == s[at..at + 2][1];
  }

  /** A 32-bit field reads back from the four bytes that encode it. */
  lemma U32AtEnc(s: seq<u8>, at: nat, x: u32)
    requires at + 4 <= |s| && s[at..at + 4] == Enc32(x)
    ensures U32At(s, at) == x
  {
    SliceOfSlice(s, at, 4, 0, 2);
    SliceOfSlice(s, at, 4, 2, 2);
    assert Enc32(x)[0..2] == Enc16(x % 0x1_0000) && Enc32(x)[2..4] == Enc16(x / 0x1_0000);
    U16AtEnc(s, at, x % 0x1_0000);
    U16AtEnc(s, at + 2, x / 0x1_0000);
  }

  lemma U64AtEnc(s: seq<u8>, at: nat, x: u64)
    requires at + 8 <= |s| && s[at..at + 8] == Enc64(x)
    ensures U64At(s, at) == x
  {
    SliceOfSlice(s, at, 8, 0, 4);
    SliceOfSlice(s, at, 8, 4, 4);
    assert Enc64(x)[0..4] == Enc32(x % 0x1_0000_0000) && Enc64(x)[4..8] == Enc32(x / 0x1_0000_0000);
    U32AtEnc(s, at, x % 0x1_0000_0000);
    U32AtEnc(s, at + 4, x / 0x1_0000_0000);
  }

  /** Decoding a 16-bit field and encoding it again restores the two bytes. */
  lemma Enc16Dec16(s: seq<u8>, at: nat)
    requires at + 2 <= |s|
    ensures Enc16(U16At(s, at)) == s[at..at + 2]
  {
  }

  /** Decoding a 32-bit field and encoding it again restores the four bytes. */
  lemma Enc32Dec32(s: seq<u8>, at: nat)
    requires at + 4 <= |s|
    ensures Enc32(U32At(s, at)) == s[at..at + 4]
  {
    var x := U32At(s, at);
    assert x % 0x1_0000 == U16At(s, at);
    assert x / 0x1_0000 == U16At(s, at + 2);
  }

  /** Bytes past the end of a sequence read as zero. */
  function ByteAt(s: seq<u8>, i: int): (b: u8)
    ensures 0 <= i < |s| ==> b == s[i]
    ensures !(0 <= i < |s|) ==> b == 0
  {
    if 0 <= i < |s| then s[i] else 0
  }

  // ---------------------------------------------------------------------
  // Bitwise AND on unsigned values, bit by bit

  function Pow2(k: nat): (r: nat)
    ensures r >= 1
  {
    if k == 0 then 1 else 2 * Pow2(k - 1)
  }

  lemma Pow2Add(a: nat, b: nat)
    ensures Pow2(a + b) == Pow2(a) * Pow2(b)
    decreases a
  {
    if a > 0 {
      Pow2Add(a - 1, b);
    }
  }

  lemma Pow2Values()
    ensures Pow2(12) == 0x1000 && Pow2(32) == TWO_32
  {
    assert Pow2(4) == 16;
    Pow2Add(4, 4);
    Pow2Add(8, 4);
    Pow2Add(8, 8);
    Pow2Add(16, 16);
  }

  /** The values of the top bits of 32- and 64-bit words. */
  lemma Pow2TopBits()
    ensures Pow2(31) == 0x8000_0000 && Pow2(63) == 0x8000_0000_0000_0000
  {
    Pow2Values();
    Pow2Add(32, 31);
  }

  /** The bitwise AND of two naturals, lowest bit first. */
  function BitAnd(x: nat, y: nat): (r: nat)
    ensures r <= x && r <= y
    decreases x
  {
    if x == 0 || y == 0 then 0
    else (if x % 2 == 1 && y % 2 == 1 then 1 else 0) + 2 * BitAnd(x / 2, y / 2)
  }

  /** The 32-bit AND, as C++ computes `x & y` on `uint32_t`. */
  function And32(x: u32, y: u32): (r: u32)
    ensures r <= x && r <= y
  {
    BitAnd(x, y)
  }

  /** Splitting a remainder by a power of two at the lowest bit. */
  lemma ModPow2Split(x: nat, k: nat)
    requires k >= 1
    ensures x % Pow2(k) == x % 2 + 2 * ((x / 2) % Pow2(k - 1))
  {
    var p := Pow2(k - 1);
    var q, r := x / 2, x % 2;
    assert x == 2 * q + r;
    assert q == p * (q / p) + q % p;
    assert x == (2 * p) * (q / p) + (2 * (q % p) + r);
    assert 0 <= 2 * (q % p) + r < 2 * p;
    DivModUnique(x, 2 * p, q / p, 2 * (q % p) + r);
  }

  lemma DivModUnique(x: nat, m: nat, d: nat, b: nat)
    requires m > 0 && b < m && x == m * d + b
    ensures x % m == b && x / m == d
  {
    var q, r := x / m, x % m;
    assert m * (q - d) == b - r;
    MulBound(m, q - d);
  }

  /** Reducing a summand modulo m first does not change the sum modulo m. */
  lemma AddMod(x: nat, y: nat, m: nat)
    requires m > 0
    ensures (x % m + y) % m == (x + y) % m
  {
    var q := x / m;
    assert x + y == m * q + (x % m + y);
    var t := x % m + y;
    DivModUnique(t, m, t / m, t % m);
    DivModUnique(x + y, m, q + t / m, t % m);
  }

  lemma MulBound(m: int, t: int)
    requires m > 0
    ensures t >= 1 ==> m * t >= m
    ensures t <= -1 ==> m * t <= -m
  {
  }

  lemma {:induction false} Pow2Mono(k: nat, w: nat)
    requires k <= w
    ensures Pow2(k) <= Pow2(w)
    decreases w
  {
    if k < w {
      Pow2Mono(k, w - 1);
    }
  }

  /** One step of BitAnd against an odd mask 2p - 1: the low bit of `x` is kept. */
  lemma OddMaskStep(x: nat, y: nat, p: nat, l: nat)
    requires x > 0 && p >= 1 && y == 2 * p - 1 && BitAnd(x / 2, p - 1) == l
    ensures BitAnd(x, y) == x % 2 + 2 * l
  {
    DivModUnique(y, 2, p - 1, 1);
  }

  /** One step of BitAnd against an even mask 2h: the low bit of `x` is cleared. */
  lemma EvenMaskStep(x: nat, y: nat, h: nat, l: nat)
    requires x > 0 && y == 2 * h && BitAnd(x / 2, h) == x / 2 - l
    ensures BitAnd(x, y) == x - (x % 2 + 2 * l)
  {
    if y > 0 {
      DivModUnique(y, 2, h, 0);
    }
  }

  /** The value of the `k` low bits of `x`, collected bit by bit. */
  function LowBits(x: nat, k: nat): nat
  {
    if k == 0 || x == 0 then 0 else x % 2 + 2 * LowBits(x / 2, k - 1)
  }

  /** `n` one bits: 2^n - 1. */
  function Ones(n: nat): nat
  {
    if n == 0 then 0 else 1 + 2 * Ones(n - 1)
  }

  /** `n` one bits above `k` zero bits: 2^(k+n) - 2^k. */
  function HighOnes(k: nat, n: nat): nat
  {
    if k == 0 then Ones(n) else 2 * HighOnes(k - 1, n)
  }

  lemma {:induction false} OnesIsPow2(n: nat)
    ensures Ones(n) == Pow2(n) - 1
    decreases n
  {
    if n > 0 {
      OnesIsPow2(n - 1);
    }
  }

  lemma {:induction false} HighOnesIsPow2(k: nat, n: nat)
    ensures HighOnes(k, n) == Pow2(k + n) - Pow2(k)
    decreases k
  {
    if k == 0 {
      OnesIsPow2(n);
    } else {
      HighOnesIsPow2(k - 1, n);
    }
  }

  /** The `k` low bits are the remainder by 2^k. */
  lemma {:induction false} LowBitsIsMod(x: nat, k: nat)
    ensures LowBits(x, k) == x % Pow2(k)
    decreases k
  {
    if x == 0 {
      DivModUnique(0, Pow2(k), 0, 0);
    } else if k > 0 {
      LowBitsIsMod(x / 2, k - 1);
      ModPow2Split(x, k);
    }
  }

  /** A value below 2^w is its own `w` low bits. */
  lemma {:induction false} LowBitsSmall(x: nat, w: nat)
    requires x < Pow2(w)
    ensures LowBits(x, w) == x
    decreases w
  {
    if x > 0 {
      LowBitsSmall(x / 2, w - 1);
    }
  }

  /** Masking with `k` one bits keeps the `k` low bits. */
  lemma {:induction false} LowMaskBits(x: nat, k: nat)
    ensures BitAnd(x, Ones(k)) == LowBits(x, k)
    decreases k
  {
    if k > 0 && x > 0 {
      LowMaskBits(x / 2, k - 1);
      OddMaskStep(x, Ones(k), Ones(k - 1) + 1, LowBits(x / 2, k - 1));
    }
  }

  /** Masking with the `k` low bits is the remainder by 2^k. */
  lemma LowMaskAnd(x: nat, k: nat)
    ensures BitAnd(x, Pow2(k) - 1) == x % Pow2(k)
  {
    OnesIsPow2(k);
    LowMaskBits(x, k);
    LowBitsIsMod(x, k);
  }

  /** Masking a value of `k + n` bits with the `n` bits above the `k` low ones clears those `k`. */
  lemma {:induction false} HighMaskBits(x: nat, k: nat, n: nat)
    requires LowBits(x, k + n) == x
    ensures BitAnd(x, HighOnes(k, n)) == x - LowBits(x, k)
    decreases k
  {
    if k == 0 {
      LowMaskBits(x, n);
    } else if x > 0 {
      assert x == 2 * (x / 2) + x % 2;
      HighMaskBits(x / 2, k - 1, n);
      EvenMaskStep(x, HighOnes(k, n), HighOnes(k - 1, n), LowBits(x / 2, k - 1));
    }
  }

  /** Masking with all but the `k` low bits of a `w`-bit value rounds down to a multiple of 2^k. */
  lemma HighMaskAnd(x: nat, k: nat, w: nat)
    requires k <= w && x < Pow2(w)
    ensures Pow2(k) <= Pow2(w)
    ensures BitAnd(x, Pow2(w) - Pow2(k)) == x - x % Pow2(k)
  {
    Pow2Mono(k, w);
    var n := w - k;
    HighOnesIsPow2(k, n);
    assert k + n == w;
    HighOnesMask(x, k, n);
  }

  /** HighMaskAnd with the mask written as HighOnes. */
  lemma HighOnesMask(x: nat, k: nat, n: nat)
    requires x < Pow2(k + n)
    ensures BitAnd(x, HighOnes(k, n)) == x - x % Pow2(k)
  {
    LowBitsSmall(x, k + n);
    HighMaskBits(x, k, n);
    LowBitsIsMod(x, k);
  }

  /** The 32-bit form of HighMaskAnd: `x & ~(2^k - 1)` clears the `k` low bits. */
  lemma And32HighMask(x: u32, a: nat, k: nat)
    requires k <= 32 && a == Pow2(k)
    ensures a <= TWO_32
    ensures And32(x, TWO_32 - a) == x - x % a
  {
    Pow2Values();
    HighMaskAnd(x, k, 32);
  }

  /** `x & 0xFF000000` on `uint32_t` is non-zero exactly when one of the top eight bits is set. */
  lemma TopByteMask(x: u32)
    ensures And32(x, 0xFF00_0000) != 0 <==> x >= 0x100_0000
  {
    Pow2Values();
    Pow2Add(12, 12);
    And32HighMask(x, 0x100_0000, 24);
  }

  // ---------------------------------------------------------------------
  // NUL-terminated strings

  /** Whether a byte sequence contains no NUL byte. */
  predicate NoNul(s: seq<u8>)
  {
    forall i :: 0 <= i < |s| ==> s[i] != 0
  }

  /**
   * The bytes of `s` from `from` up to (not including) the first NUL, the end
   * of `s`, or `maxLen` bytes, whichever comes first.
   */
  function StringAt(s: seq<u8>, from: nat, maxLen: nat): (r: seq<u8>)
    decreases maxLen
    ensures |r| <= maxLen
    ensures from + |r| <= |s| || r == []
    ensures from + |r| <= |s| ==> r == s[from..from + |r|]
    ensures NoNul(r)
    ensures |r| == maxLen || from + |r| >= |s| || s[from + |r|] == 0
  {
    if maxLen == 0 || from >= |s| || s[from] == 0 then []
    else [s[from]] + StringAt(s, from + 1, maxLen - 1)
  }

  /** The C string at the start of a buffer: everything before the first NUL. */
  function CString(s: seq<u8>): (r: seq<u8>)
    ensures |r| <= |s| && r == s[..|r|] && NoNul(r)
    ensures |r| == |s| || s[|r|] == 0
  {
    StringAt(s, 0, |s|)
  }

  /** Adding `n` to a 32-bit running total that tracks `exact` keeps tracking `exact + n`. */
  lemma AddStep(exact: nat, total: u32, n: nat)
    requires total == exact % TWO_32
    ensures Add32(total, Trunc32(n)) == (exact + n) % TWO_32
  {
    AddMod(exact, n % TWO_32, TWO_32);
    AddMod(n, exact, TWO_32);
    AddMod(exact, n, TWO_32);
    assert (exact % TWO_32 + n % TWO_32) % TWO_32 == (exact + n % TWO_32) % TWO_32;
    assert (n % TWO_32 + exact) % TWO_32 == (n + exact) % TWO_32;
  }

  /** Sequence concatenation regrouped. */
  lemma ConcatAssoc<T>(a: seq<T>, b: seq<T>, c: seq<T>)
    ensures a + b + c == a + (b + c)
  {
  }

  /** The C string in a fixed-size field: its bytes up to the first NUL, all of them without one. */
  lemma CStringUnique(s: seq<u8>, r: seq<u8>)
    requires |r| <= |s| && r == s[..|r|] && NoNul(r) && (|r| == |s| || s[|r|] == 0)
    ensures CString(s) == r
  {
  }

  /** `StringAt` stops exactly at the first NUL inside its window. */
  lemma {:induction false} StringAtFirstNul(s: seq<u8>, from: nat, maxLen: nat, k: nat)
    requires from + k < |s| && k < maxLen && s[from + k] == 0
    requires forall j :: from <= j < from + k ==> s[j] != 0
    ensures |StringAt(s, from, maxLen)| == k
    decreases k
  {
    if k > 0 {
      StringAtFirstNul(s, from + 1, maxLen - 1, k - 1);
    }
  }

  // ---------------------------------------------------------------------
  // Single bits and OR

  /** The bitwise OR of two naturals, lowest bit first. */
  function BitOr(x: nat, y: nat): (r: nat)
    decreases x + y
  {
    if x == 0 then y
    else if y == 0 then x
    else (if x % 2 == 1 || y % 2 == 1 then 1 else 0) + 2 * BitOr(x / 2, y / 2)
  }

  /** OR-ing a single bit above all the bits of `x` adds it. */
  lemma {:induction false} OrHighBit(x: nat, k: nat)
    requires x < Pow2(k)
    ensures BitOr(x, Pow2(k)) == x + Pow2(k)
    decreases k
  {
    if k > 0 && x > 0 {
      OrHighBit(x / 2, k - 1);
    }
  }

  /** The OR of two `w`-bit values is a `w`-bit value. */
  lemma {:induction false} BitOrBound(x: nat, y: nat, w: nat)
    requires x < Pow2(w) && y < Pow2(w)
    ensures BitOr(x, y) < Pow2(w)
    decreases w
  {
    if w > 0 && x > 0 && y > 0 {
      BitOrBound(x / 2, y / 2, w - 1);
    }
  }

  /** Bit `k` of `x`. */
  function Bit(x: nat, k: nat): (b: nat)
    ensures b < 2
  {
    if k == 0 then x % 2 else Bit(x / 2, k - 1)
  }

  /** AND with a single bit keeps that bit of `x`. */
  lemma {:induction false} AndOneBit(x: nat, k: nat)
    ensures BitAnd(x, Pow2(k)) == if Bit(x, k) == 1 then Pow2(k) else 0
    decreases k
  {
    if k == 0 {
      assert Pow2(0) == 1;
    } else {
      AndOneBit(x / 2, k - 1);
      var p := Pow2(k - 1);
      assert Pow2(k) % 2 == 0 && Pow2(k) / 2 == p;
      if x > 0 {
        assert BitAnd(x, Pow2(k)) == 2 * BitAnd(x / 2, p);
      }
    }
  }

  /** Adding a bit above all the bits of `x` sets that bit. */
  lemma {:induction false} HighBitSet(x: nat, k: nat)
    requires x < Pow2(k)
    ensures Bit(x + Pow2(k), k) == 1
    decreases k
  {
    if k > 0 {
      assert (x + Pow2(k)) / 2 == x / 2 + Pow2(k - 1);
      HighBitSet(x / 2, k - 1);
    }
  }

  /** The bit added above all the bits of `x` is the one an AND with it finds. */
  lemma HighBitAnd(x: nat, k: nat)
    requires x < Pow2(k)
    ensures BitAnd(x + Pow2(k), Pow2(k)) == Pow2(k)
  {
    HighBitSet(x, k);
    AndOneBit(x + Pow2(k), k);
  }

  /** A value below 2^k has bit `k` clear. */
  lemma {:induction false} BitBelow(x: nat, k: nat)
    requires x < Pow2(k)
    ensures Bit(x, k) == 0
    decreases k
  {
    if k > 0 {
      BitBelow(x / 2, k - 1);
    }
  }

  /** OR-ing in a bit that is already set changes nothing. */
  lemma {:induction false} OrSetBit(x: nat, k: nat)
    requires x < Pow2(k)
    ensures BitOr(x + Pow2(k), Pow2(k)) == x + Pow2(k)
    decreases k
  {
    if k > 0 {
      assert (x + Pow2(k)) / 2 == x / 2 + Pow2(k - 1);
      assert Pow2(k) % 2 == 0 && Pow2(k) / 2 == Pow2(k - 1);
      OrSetBit(x / 2, k - 1);
    }
  }
}
