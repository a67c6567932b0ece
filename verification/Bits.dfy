/** Bits of natural numbers: the C operators & | << >> on non-negative values, and
    reading a bit stream most significant bit first. */
module Bits {

  function Pow2(n: nat): (r: nat)
    ensures r > 0
  {
    if n == 0 then 1 else 2 * Pow2(n - 1)
  }

  function Bit(v: nat, i: nat): (r: nat)
    ensures r < 2
  {
    if i == 0 then v % 2 else Bit(v / 2, i - 1)
  }

  function And(a: nat, b: nat): nat {
    if a == 0 then 0 else (if a % 2 == 1 && b % 2 == 1 then 1 else 0) + 2 * And(a / 2, b / 2)
  }

  function Or(a: nat, b: nat): nat
    decreases a + b
  {
    if a == 0 then b
    else if b == 0 then a
    else (if a % 2 == 1 || b % 2 == 1 then 1 else 0) + 2 * Or(a / 2, b / 2)
  }

  function Shl(a: nat, n: nat): nat { if n == 0 then a else 2 * Shl(a, n - 1) }

  function Shr(a: nat, n: nat): nat { if n == 0 then a else Shr(a, n - 1) / 2 }

  /** The low n bits, v mod 2^n. */
  function Low(v: nat, n: nat): nat { if n == 0 then 0 else v % 2 + 2 * Low(v / 2, n - 1) }

  /** The first n bits of the stream v (lowest bit first) read as a number whose
      most significant bit came first. */
  function Msf(v: nat, n: nat): nat {
    if n == 0 then 0 else 2 * Msf(v, n - 1) + Bit(v, n - 1)
  }

  lemma {:induction false} BitZero(i: nat)
    ensures Bit(0, i) == 0
  {
    if i > 0 { BitZero(i - 1); }
  }

  lemma {:induction false} BitAnd(a: nat, b: nat, i: nat)
    ensures Bit(And(a, b), i) == if Bit(a, i) == 1 && Bit(b, i) == 1 then 1 else 0
    decreases i
  {
    if a == 0 { BitZero(i); }
    else if i > 0 { BitAnd(a / 2, b / 2, i - 1); }
  }

  lemma {:induction false} BitOr(a: nat, b: nat, i: nat)
    ensures Bit(Or(a, b), i) == if Bit(a, i) == 1 || Bit(b, i) == 1 then 1 else 0
    decreases i
  {
    if a == 0 || b == 0 { BitZero(i); }
    else if i > 0 { BitOr(a / 2, b / 2, i - 1); }
  }

  lemma {:induction false} BitShr(a: nat, n: nat, i: nat)
    ensures Bit(Shr(a, n), i) == Bit(a, i + n)
    decreases n
  {
    if n > 0 { BitShr(a, n - 1, i + 1); }
  }

  lemma {:induction false} BitShl(a: nat, n: nat, i: nat)
    ensures Bit(Shl(a, n), i) == if i < n then 0 else Bit(a, i - n)
    decreases n
  {
    if n > 0 {
      if i > 0 {
        BitShl(a, n - 1, i - 1);
        assert (2 * Shl(a, n - 1)) / 2 == Shl(a, n - 1);
      }
    }
  }

  /** Numbers below 2^n are determined by their n low bits. */
  lemma {:induction false} BitExt(a: nat, b: nat, n: nat)
    requires a < Pow2(n) && b < Pow2(n)
    requires forall i :: 0 <= i < n ==> Bit(a, i) == Bit(b, i)
    ensures a == b
    decreases n
  {
    if n > 0 {
      assert Bit(a, 0) == Bit(b, 0);
      forall i | 0 <= i < n - 1 ensures Bit(a / 2, i) == Bit(b / 2, i) {
        assert Bit(a, i + 1) == Bit(b, i + 1);
      }
      BitExt(a / 2, b / 2, n - 1);
    }
  }

  lemma {:induction false} BitHigh(a: nat, n: nat, i: nat)
    requires a < Pow2(n) && n <= i
    ensures Bit(a, i) == 0
    decreases n
  {
    if n == 0 { BitZero(i); } else { BitHigh(a / 2, n - 1, i - 1); }
  }

  lemma {:induction false} MsfBound(v: nat, n: nat)
    ensures Msf(v, n) < Pow2(n)
  {
    if n > 0 { MsfBound(v, n - 1); }
  }

  /** Msf reverses: bit i of the result is stream bit n - 1 - i. */
  lemma {:induction false} BitMsf(v: nat, n: nat, i: nat)
    requires i < n
    ensures Bit(Msf(v, n), i) == Bit(v, n - 1 - i)
    decreases n
  {
    if i > 0 {
      assert Msf(v, n) / 2 == Msf(v, n - 1);
      BitMsf(v, n - 1, i - 1);
    }
  }

  lemma {:induction false} MsfShift(v: nat, n: nat, m: nat)
    requires m <= n
    ensures Shr(Msf(v, n), n - m) == Msf(v, m)
    decreases n - m
  {
    if m < n {
      MsfShift(v, n, m + 1);
      assert Shr(Msf(v, n), n - m) == Shr(Msf(v, n), n - m - 1) / 2;
      assert Msf(v, m + 1) / 2 == Msf(v, m);
    }
  }

  /** Msf depends on the low bits only. */
  lemma {:induction false} MsfCong(v: nat, w: nat, n: nat)
    requires forall i :: 0 <= i < n ==> Bit(v, i) == Bit(w, i)
    ensures Msf(v, n) == Msf(w, n)
  {
    if n > 0 { MsfCong(v, w, n - 1); }
  }

  lemma {:induction false} LowBound(v: nat, n: nat)
    ensures Low(v, n) < Pow2(n)
  {
    if n > 0 { LowBound(v / 2, n - 1); }
  }

  lemma {:induction false} BitLow(v: nat, n: nat, i: nat)
    requires i < n
    ensures Bit(Low(v, n), i) == Bit(v, i)
    decreases n
  {
    if i > 0 {
      assert Low(v, n) / 2 == Low(v / 2, n - 1);
      BitLow(v / 2, n - 1, i - 1);
    }
  }

  lemma {:induction false} LowSmall(v: nat, n: nat)
    requires v < Pow2(n)
    ensures Low(v, n) == v
    decreases n
  {
    if n > 0 { LowSmall(v / 2, n - 1); }
  }

  /** Reversing s bits twice gives them back. */
  lemma MsfTwice(v: nat, s: nat)
    ensures Msf(Msf(v, s), s) == Low(v, s)
  {
    MsfBound(Msf(v, s), s);
    LowBound(v, s);
    forall i | 0 <= i < s ensures Bit(Msf(Msf(v, s), s), i) == Bit(Low(v, s), i) {
      BitMsf(Msf(v, s), s, i);
      BitMsf(v, s, s - 1 - i);
      BitLow(v, s, i);
    }
    BitExt(Msf(Msf(v, s), s), Low(v, s), s);
  }

  lemma MsfOfLow(v: nat, n: nat, s: nat)
    requires s <= n
    ensures Msf(Low(v, n), s) == Msf(v, s)
  {
    forall i | 0 <= i < s ensures Bit(Low(v, n), i) == Bit(v, i) { BitLow(v, n, i); }
    MsfCong(Low(v, n), v, s);
  }

  /** The low s bits of x are the reversal of c exactly when reading x gives c. */
  lemma ReverseIff(x: nat, c: nat, s: nat)
    requires c < Pow2(s)
    ensures Low(x, s) == Msf(c, s) <==> Msf(x, s) == c
  {
    MsfTwice(x, s);
    MsfTwice(c, s);
    LowSmall(c, s);
    MsfOfLow(x, s, s);
  }

  lemma {:induction false} ShlLess(k: nat, x: nat, d: nat)
    ensures k < Shl(x, d) <==> Shr(k, d) < x
  {
    if d > 0 {
      ShlShr(k, d);
      ShlLess(k / 2, x, d - 1);
    }
  }

  lemma {:induction false} ShlShr(k: nat, d: nat)
    requires d > 0
    ensures Shr(k, d) == Shr(k / 2, d - 1)
  {
    if d > 1 { ShlShr(k, d - 1); }
  }

  lemma {:induction false} ShlIsMul(a: nat, n: nat)
    ensures Shl(a, n) == a * Pow2(n)
  {
    if n > 0 {
      ShlIsMul(a, n - 1);
      assert a * Pow2(n) == 2 * (a * Pow2(n - 1));
    }
  }

  /** One line of stbi__bitreverse16: the groups of d bits change places. */
  function Swap(n: nat, hi: nat, lo: nat, d: nat): nat {
    Or(Shr(And(n, hi), d), Shl(And(n, lo), d))
  }

  /** stbi__bitreverse16: swap neighbours, pairs, nibbles, bytes. */
  function BitReverse16(n: nat): nat {
    var n1 := Swap(n, 0xAAAA, 0x5555, 1);
    var n2 := Swap(n1, 0xCCCC, 0x3333, 2);
    var n3 := Swap(n2, 0xF0F0, 0x0F0F, 4);
    Swap(n3, 0xFF00, 0x00FF, 8)
  }

  function Flip(i: nat, d: nat): int
    requires d > 0
  {
    if (i / d) % 2 == 0 then i + d else i - d
  }

  /** hi keeps the odd groups of d bits out of sixteen, lo the even ones. */
  ghost predicate Alternates(hi: nat, lo: nat, d: nat)
    requires d > 0
  {
    && (forall j :: 0 <= j < 16 ==> Bit(hi, j) == (j / d) % 2)
    && (forall j :: 16 <= j ==> Bit(hi, j) == 0)
    && (forall j :: 0 <= j ==> Bit(lo, j) == Bit(hi, j + d))
  }

  lemma SwapBit(n: nat, hi: nat, lo: nat, d: nat, i: nat)
    requires i < 16 && (d == 1 || d == 2 || d == 4 || d == 8) && Alternates(hi, lo, d)
    ensures 0 <= Flip(i, d) < 16
    ensures Bit(Swap(n, hi, lo, d), i) == Bit(n, Flip(i, d))
  {
    BitOr(Shr(And(n, hi), d), Shl(And(n, lo), d), i);
    BitShr(And(n, hi), d, i);
    BitShl(And(n, lo), d, i);
    BitAnd(n, hi, i + d);
    FlipRange(i, d);
    if i >= d {
      BitAnd(n, lo, i - d);
      assert Bit(lo, i - d) == Bit(hi, i);
    }
    assert Bit(hi, i + d) == if i + d < 16 then ((i + d) / d) % 2 else 0;
  }

  lemma FlipRange(i: nat, d: nat)
    requires i < 16 && (d == 1 || d == 2 || d == 4 || d == 8)
    ensures 0 <= Flip(i, d) < 16
    ensures ((i + d) / d) % 2 != (i / d) % 2
  {}

  /** A 16-bit constant read nibble by nibble. */
  lemma NibbleBit(m: nat, j: nat)
    requires j < 16
    ensures j >= 4 ==> Bit(m, j) == Bit(m / 16, j - 4)
  {
    if j >= 4 {
      assert Bit(m, j) == Bit(m / 2, j - 1) == Bit(m / 2 / 2, j - 2);
      assert Bit(m / 2 / 2, j - 2) == Bit(m / 2 / 2 / 2, j - 3) == Bit(m / 2 / 2 / 2 / 2, j - 4);
    }
  }

  lemma LowNibble(m: nat, j: nat)
    requires j < 4
    ensures m % 16 == 0xA ==> Bit(m, j) == j % 2
    ensures m % 16 == 0xC ==> Bit(m, j) == if j < 2 then 0 else 1
    ensures m % 16 == 0xF ==> Bit(m, j) == 1
    ensures m % 16 == 0x0 ==> Bit(m, j) == 0
  {
    assert Bit(m, 0) == m % 2 && Bit(m, 1) == m / 2 % 2;
    assert Bit(m, 2) == Bit(m / 2, 1) == m / 2 / 2 % 2;
    assert Bit(m, 3) == Bit(m / 2, 2) == Bit(m / 2 / 2, 1) == m / 2 / 2 / 2 % 2;
    assert j == 0 || j == 1 || j == 2 || j == 3;
  }

  /** Which bits the masks keep. */
  lemma Mask1(j: nat)
    requires j < 16
    ensures Bit(0xAAAA, j) == j % 2
  {
    if j < 4 { LowNibble(0xAAAA, j); }
    else if j < 8 { NibbleBit(0xAAAA, j); LowNibble(0xaaa, j - 4); }
    else if j < 12 { NibbleBit(0xAAAA, j); NibbleBit(0xaaa, j - 4); LowNibble(0xaa, j - 8); }
    else { NibbleBit(0xAAAA, j); NibbleBit(0xaaa, j - 4); NibbleBit(0xaa, j - 8); LowNibble(0xa, j - 12); }
  }

  lemma Mask2(j: nat)
    requires j < 16
    ensures Bit(0xCCCC, j) == j / 2 % 2
  {
    if j < 4 { LowNibble(0xCCCC, j); }
    else if j < 8 { NibbleBit(0xCCCC, j); LowNibble(0xccc, j - 4); }
    else if j < 12 { NibbleBit(0xCCCC, j); NibbleBit(0xccc, j - 4); LowNibble(0xcc, j - 8); }
    else { NibbleBit(0xCCCC, j); NibbleBit(0xccc, j - 4); NibbleBit(0xcc, j - 8); LowNibble(0xc, j - 12); }
  }

  lemma Mask4(j: nat)
    requires j < 16
    ensures Bit(0xF0F0, j) == j / 4 % 2
  {
    if j < 4 { LowNibble(0xF0F0, j); }
    else if j < 8 { NibbleBit(0xF0F0, j); LowNibble(0xf0f, j - 4); }
    else if j < 12 { NibbleBit(0xF0F0, j); NibbleBit(0xf0f, j - 4); LowNibble(0xf0, j - 8); }
    else { NibbleBit(0xF0F0, j); NibbleBit(0xf0f, j - 4); NibbleBit(0xf0, j - 8); LowNibble(0xf, j - 12); }
  }

  lemma Mask8(j: nat)
    requires j < 16
    ensures Bit(0xFF00, j) == j / 8 % 2
  {
    if j < 4 { LowNibble(0xFF00, j); }
    else if j < 8 { NibbleBit(0xFF00, j); LowNibble(0xff0, j - 4); }
    else if j < 12 { NibbleBit(0xFF00, j); NibbleBit(0xff0, j - 4); LowNibble(0xff, j - 8); }
    else { NibbleBit(0xFF00, j); NibbleBit(0xff0, j - 4); NibbleBit(0xff, j - 8); LowNibble(0xf, j - 12); }
  }

  lemma Constant(hi: nat, lo: nat, d: nat)
    requires hi < 0x10000 && d > 0 && lo == Shr(hi, d)
    requires forall j :: 0 <= j < 16 ==> Bit(hi, j) == (j / d) % 2
    ensures Alternates(hi, lo, d)
  {
    assert Pow2(8) == 0x100 && Pow2(16) == 0x10000;
    forall j | 16 <= j ensures Bit(hi, j) == 0 { BitHigh(hi, 16, j); }
    forall j | 0 <= j ensures Bit(lo, j) == Bit(hi, j + d) { BitShr(hi, d, j); }
  }

  lemma Constants()
    ensures Alternates(0xAAAA, 0x5555, 1) && Alternates(0xCCCC, 0x3333, 2)
    ensures Alternates(0xF0F0, 0x0F0F, 4) && Alternates(0xFF00, 0x00FF, 8)
  {
    forall j | 0 <= j < 16 ensures Bit(0xAAAA, j) == (j / 1) % 2 { Mask1(j); }
    forall j | 0 <= j < 16 ensures Bit(0xCCCC, j) == (j / 2) % 2 { Mask2(j); }
    forall j | 0 <= j < 16 ensures Bit(0xF0F0, j) == (j / 4) % 2 { Mask4(j); }
    forall j | 0 <= j < 16 ensures Bit(0xFF00, j) == (j / 8) % 2 { Mask8(j); }
    assert Shr(0xAAAA, 1) == 0x5555 && Shr(0xCCCC, 2) == 0x3333 && Shr(0xF0F0, 4) == 0x0F0F && Shr(0xFF00, 8) == 0x00FF;
    Constant(0xAAAA, 0x5555, 1);
    Constant(0xCCCC, 0x3333, 2);
    Constant(0xF0F0, 0x0F0F, 4);
    Constant(0xFF00, 0x00FF, 8);
  }

  lemma FlipAll(i: nat)
    requires i < 16
    ensures 0 <= Flip(i, 8) < 16 && 0 <= Flip(Flip(i, 8), 4) < 16 && 0 <= Flip(Flip(Flip(i, 8), 4), 2) < 16
    ensures Flip(Flip(Flip(Flip(i, 8), 4), 2), 1) == 15 - i
  {}

  /** bitreverse16 puts bit 15 - i at bit i, for the sixteen low bits. */
  lemma ReverseBit(n: nat, i: nat)
    requires i < 16
    ensures Bit(BitReverse16(n), i) == Bit(n, 15 - i)
  {
    Constants();
    FlipAll(i);
    var n1 := Swap(n, 0xAAAA, 0x5555, 1);
    var n2 := Swap(n1, 0xCCCC, 0x3333, 2);
    var n3 := Swap(n2, 0xF0F0, 0x0F0F, 4);
    SwapBit(n3, 0xFF00, 0x00FF, 8, i);
    SwapBit(n2, 0xF0F0, 0x0F0F, 4, Flip(i, 8));
    SwapBit(n1, 0xCCCC, 0x3333, 2, Flip(Flip(i, 8), 4));
    SwapBit(n, 0xAAAA, 0x5555, 1, Flip(Flip(Flip(i, 8), 4), 2));
  }

  lemma AndBound(a: nat, b: nat, n: nat)
    requires b < Pow2(n)
    ensures And(a, b) < Pow2(n)
    decreases n
  {
    if n == 0 { AndZero(a); } else if a != 0 { AndBound(a / 2, b / 2, n - 1); }
  }

  lemma {:induction false} AndZero(a: nat)
    ensures And(a, 0) == 0
  {
    if a != 0 { AndZero(a / 2); }
  }

  lemma {:induction false} OrBound(a: nat, b: nat, n: nat)
    requires a < Pow2(n) && b < Pow2(n)
    ensures Or(a, b) < Pow2(n)
    decreases n
  {
    if a != 0 && b != 0 && n > 0 { OrBound(a / 2, b / 2, n - 1); }
  }

  lemma LastSwapBound(n: nat)
    ensures Swap(n, 0xFF00, 0x00FF, 8) < Pow2(16)
  {
    assert Pow2(16) == 0x10000 && Pow2(8) == 0x100;
    AndBound(n, 0xFF00, 16);
    ShrBound(And(n, 0xFF00), 8);
    AndBound(n, 0x00FF, 8);
    ShlIsMul(And(n, 0x00FF), 8);
    OrBound(Shr(And(n, 0xFF00), 8), Shl(And(n, 0x00FF), 8), 16);
  }

  /** The whole of bitreverse16: it reads the sixteen low bits backwards. */
  lemma BitReverse16IsMsf(n: nat)
    ensures BitReverse16(n) == Msf(n, 16)
  {
    var r := BitReverse16(n);
    LastSwapBound(Swap(Swap(Swap(n, 0xAAAA, 0x5555, 1), 0xCCCC, 0x3333, 2), 0xF0F0, 0x0F0F, 4));
    MsfBound(n, 16);
    forall i | 0 <= i < 16 ensures Bit(r, i) == Bit(Msf(n, 16), i) {
      ReverseBit(n, i);
      BitMsf(n, 16, i);
    }
    BitExt(r, Msf(n, 16), 16);
  }

  lemma {:induction false} ShrBound(a: nat, n: nat)
    ensures Shr(a, n) <= a
  {
    if n > 0 { ShrBound(a, n - 1); }
  }

  /** stbi__bit_reverse: reverse sixteen bits and shift. */
  function BitReverse(v: nat, bits: nat): nat
    requires bits <= 16
  {
    Shr(BitReverse16(v), 16 - bits)
  }

  lemma BitReverseIsMsf(v: nat, bits: nat)
    requires bits <= 16
    ensures BitReverse(v, bits) == Msf(v, bits)
  {
    BitReverse16IsMsf(v);
    MsfShift(v, 16, bits);
  }

  /** Masking with 2^k - 1 keeps the k low bits. */
  lemma {:induction false} AndMask(i: nat, k: nat)
    ensures And(i, Pow2(k) - 1) == Low(i, k)
  {
    if k == 0 {
      AndZero(i);
    } else {
      assert (Pow2(k) - 1) / 2 == Pow2(k - 1) - 1;
      if i == 0 { LowZero(k); } else { AndMask(i / 2, k - 1); }
    }
  }

  lemma {:induction false} LowZero(k: nat)
    ensures Low(0, k) == 0
  {
    if k > 0 { LowZero(k - 1); }
  }

  lemma HalfMinus(i: nat, p: nat)
    requires i >= 2 * p
    ensures (i - 2 * p) / 2 == i / 2 - p && (i - 2 * p) % 2 == i % 2
  {}

  lemma {:induction false} LowMinus(i: nat, k: nat)
    requires i >= Pow2(k)
    ensures Low(i - Pow2(k), k) == Low(i, k)
  {
    if k > 0 {
      var p := Pow2(k - 1);
      HalfMinus(i, p);
      LowMinus(i / 2, k - 1);
    }
  }
}
