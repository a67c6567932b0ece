/** Canonical Huffman codes (section 3.2.2 of RFC 1951) and what it means for a
    symbol's code to lead a bit stream. */
module CanonicalCode {
  import opened Bits

  const MAX_BITS: nat := 15
  const MAX_SYMBOLS: nat := 288

  /** What the callers of stbi__zbuild_huffman pass: at most 288 lengths of at most 15 bits. */
  predicate ValidLens(lens: seq<nat>) {
    |lens| <= MAX_SYMBOLS && forall i :: 0 <= i < |lens| ==> lens[i] <= MAX_BITS
  }

  /** How many of the first n symbols have code length l. */
  function CountIn(lens: seq<nat>, n: nat, l: nat): (r: nat)
    requires n <= |lens|
    ensures r <= n
  {
    if n == 0 then 0 else CountIn(lens, n - 1, l) + if lens[n - 1] == l then 1 else 0
  }

  function Count(lens: seq<nat>, l: nat): nat { CountIn(lens, |lens|, l) }

  /** The numerical value of the first code of length l. */
  function First(lens: seq<nat>, l: nat): nat {
    if l <= 1 then 0 else 2 * (First(lens, l - 1) + Count(lens, l - 1))
  }

  /** How many symbols have a shorter, non-zero code length. */
  function FirstSymbol(lens: seq<nat>, l: nat): nat {
    if l <= 1 then 0 else FirstSymbol(lens, l - 1) + Count(lens, l - 1)
  }

  /** Codes of one length are consecutive, in symbol order. */
  function Code(lens: seq<nat>, i: nat): nat
    requires i < |lens|
  {
    First(lens, lens[i]) + CountIn(lens, i, lens[i])
  }

  // ---- the code that section 3.2.2 of RFC 1951 describes

  /** Symbol j comes right behind symbol i when symbols are ordered by length, then by number. */
  predicate Follows(lens: seq<nat>, i: nat, j: nat)
    requires i < |lens| && j < |lens|
  {
    0 < lens[i] && 0 < lens[j] &&
    if lens[i] == lens[j] then i < j && forall k :: i < k < j ==> lens[k] != lens[i]
    else
      && lens[i] < lens[j] && (forall k :: 0 <= k < |lens| ==> !(lens[i] < lens[k] < lens[j]))
      && (forall k :: i < k < |lens| ==> lens[k] != lens[i]) && (forall k :: 0 <= k < j ==> lens[k] != lens[j])
  }

  lemma {:induction false} NoneCounted(lens: seq<nat>, i: nat, j: nat, l: nat)
    requires i <= j <= |lens| && forall k :: i <= k < j ==> lens[k] != l
    ensures CountIn(lens, i, l) == CountIn(lens, j, l)
    decreases j
  {
    if i < j { NoneCounted(lens, i, j - 1, l); }
  }

  /** Lengths that no symbol has only double the next code. */
  lemma {:induction false} FirstSkips(lens: seq<nat>, l: nat, m: nat)
    requires 1 <= l < m && forall k :: 0 <= k < |lens| ==> !(l < lens[k] < m)
    ensures First(lens, m) == (First(lens, l) + Count(lens, l)) * Pow2(m - l)
    decreases m
  {
    if l < m - 1 {
      FirstSkips(lens, l, m - 1);
      NoneCounted(lens, 0, |lens|, m - 1);
      var x, p := First(lens, l) + Count(lens, l), Pow2(m - 1 - l);
      assert 2 * (x * p) == x * (2 * p);
    }
  }

  /** The next code is the code plus one, with zeros appended to the next length ... */
  lemma {:induction false} NextCode(lens: seq<nat>, i: nat, j: nat)
    requires i < |lens| && j < |lens| && Follows(lens, i, j)
    ensures lens[i] <= lens[j] && Code(lens, j) == (Code(lens, i) + 1) * Pow2(lens[j] - lens[i])
  {
    if lens[i] == lens[j] {
      NoneCounted(lens, i + 1, j, lens[i]);
    } else {
      NoneCounted(lens, i + 1, |lens|, lens[i]);
      NoneCounted(lens, 0, j, lens[j]);
      FirstSkips(lens, lens[i], lens[j]);
    }
  }

  /** ... and the first code is all zeros. */
  lemma {:induction false} FirstCode(lens: seq<nat>, i: nat)
    requires i < |lens| && 0 < lens[i]
    requires forall k :: 0 <= k < |lens| && 0 < lens[k] ==> lens[i] < lens[k] || (lens[i] == lens[k] && i <= k)
    ensures Code(lens, i) == 0
  {
    NoneCounted(lens, 0, i, lens[i]);
    FirstIsZero(lens, lens[i]);
  }

  lemma {:induction false} FirstIsZero(lens: seq<nat>, l: nat)
    requires forall k :: 0 <= k < |lens| ==> !(0 < lens[k] < l)
    ensures First(lens, l) == 0
    decreases l
  {
    if l > 1 {
      FirstIsZero(lens, l - 1);
      NoneCounted(lens, 0, |lens|, l - 1);
    }
  }

  function Place(lens: seq<nat>, i: nat): nat
    requires i < |lens|
  {
    FirstSymbol(lens, lens[i]) + CountIn(lens, i, lens[i])
  }

  /** The code of symbol i is the first bits of the stream, most significant first. */
  predicate Match(lens: seq<nat>, i: nat, v: nat) {
    i < |lens| && lens[i] > 0 && Msf(v, lens[i]) == Code(lens, i)
  }

  /** Every length has room for its codes. */
  predicate Fits(lens: seq<nat>, l: nat) { Count(lens, l) > 0 ==> First(lens, l) + Count(lens, l) <= Pow2(l) }

  predicate Accepted(lens: seq<nat>) { forall l :: 1 <= l <= MAX_BITS ==> Fits(lens, l) }

  // ---- counting

  lemma {:induction false} CountGrows(lens: seq<nat>, i: nat, j: nat, l: nat)
    requires i <= j <= |lens|
    ensures CountIn(lens, i, l) <= CountIn(lens, j, l)
    ensures i < j && lens[i] == l ==> CountIn(lens, i, l) < CountIn(lens, j, l)
    decreases j
  {
    if i < j { CountGrows(lens, i, j - 1, l); }
  }

  /** The r-th symbol of length l. */
  lemma {:induction false} Nth(lens: seq<nat>, n: nat, l: nat, r: nat) returns (i: nat)
    requires n <= |lens| && r < CountIn(lens, n, l)
    ensures i < n && lens[i] == l && CountIn(lens, i, l) == r
    decreases n
  {
    if lens[n - 1] == l && CountIn(lens, n - 1, l) == r {
      i := n - 1;
    } else {
      i := Nth(lens, n - 1, l, r);
    }
  }

  /** Symbols with positive length fill distinct places below 288. */
  lemma {:induction false} FirstSymbolGrows(lens: seq<nat>, l: nat, m: nat)
    requires 1 <= l < m
    ensures FirstSymbol(lens, l) + Count(lens, l) <= FirstSymbol(lens, m)
    decreases m
  {
    if l < m - 1 { FirstSymbolGrows(lens, l, m - 1); }
  }

  lemma PlaceInjective(lens: seq<nat>, i: nat, j: nat)
    requires i < |lens| && j < |lens| && lens[i] > 0 && lens[j] > 0 && i != j
    ensures Place(lens, i) != Place(lens, j)
  {
    CountGrows(lens, i, |lens|, lens[i]);
    CountGrows(lens, j, |lens|, lens[j]);
    if lens[i] == lens[j] {
      if i < j { CountGrows(lens, i, j, lens[i]); } else { CountGrows(lens, j, i, lens[i]); }
    } else if lens[i] < lens[j] {
      FirstSymbolGrows(lens, lens[i], lens[j]);
    } else {
      FirstSymbolGrows(lens, lens[j], lens[i]);
    }
  }

  /** All lengths below l together. */
  function CountBelow(lens: seq<nat>, n: nat, l: nat): nat
    requires n <= |lens|
  {
    if n == 0 then 0 else CountBelow(lens, n - 1, l) + if 1 <= lens[n - 1] < l then 1 else 0
  }

  lemma {:induction false} CountBelowStep(lens: seq<nat>, n: nat, l: nat)
    requires n <= |lens| && 1 <= l
    ensures CountBelow(lens, n, l + 1) == CountBelow(lens, n, l) + CountIn(lens, n, l)
    ensures CountBelow(lens, n, l) <= n && CountBelow(lens, n, 1) == 0
    decreases n
  {
    if n > 0 { CountBelowStep(lens, n - 1, l); }
  }

  lemma {:induction false} FirstSymbolIsCount(lens: seq<nat>, l: nat)
    requires 1 <= l
    ensures FirstSymbol(lens, l) == CountBelow(lens, |lens|, l) <= |lens|
    decreases l
  {
    CountBelowStep(lens, |lens|, l);
    if l > 1 {
      FirstSymbolIsCount(lens, l - 1);
      CountBelowStep(lens, |lens|, l - 1);
    }
  }

  lemma PlaceBound(lens: seq<nat>, i: nat)
    requires i < |lens| && lens[i] > 0
    ensures Place(lens, i) < |lens|
  {
    CountGrows(lens, i, |lens|, lens[i]);
    FirstSymbolIsCount(lens, lens[i] + 1);
    FirstSymbolGrows(lens, lens[i], lens[i] + 1);
  }

  // ---- the codes form a prefix code

  lemma {:induction false} FirstBound(lens: seq<nat>, l: nat)
    requires Accepted(lens) && 1 <= l <= MAX_BITS
    ensures First(lens, l) + Count(lens, l) <= Pow2(l)
    decreases l
  {
    if l > 1 { FirstBound(lens, l - 1); }
    assert Fits(lens, l);
  }

  lemma CodeBound(lens: seq<nat>, i: nat)
    requires ValidLens(lens) && Accepted(lens) && i < |lens| && lens[i] > 0
    ensures Code(lens, i) < First(lens, lens[i]) + Count(lens, lens[i]) <= Pow2(lens[i])
  {
    CountGrows(lens, i, |lens|, lens[i]);
    FirstBound(lens, lens[i]);
  }

  /** The first l stream bits come before the end of the codes of length l. */
  predicate Below(lens: seq<nat>, v: nat, l: nat) { Msf(v, l) < First(lens, l) + Count(lens, l) }

  /** At or after a length, streams that are past all its codes stay past. */
  lemma {:induction false} PastStaysPast(lens: seq<nat>, v: nat, l: nat, m: nat)
    requires 1 <= l < m && Msf(v, m) >= First(lens, m)
    ensures !Below(lens, v, l)
    decreases m
  {
    if l < m - 1 {
      assert Msf(v, m - 1) >= First(lens, m - 1) + Count(lens, m - 1);
      PastStaysPast(lens, v, l, m - 1);
    }
  }

  /** A matching code is found at the first length that is not past the stream. */
  lemma MatchBelow(lens: seq<nat>, v: nat, i: nat)
    requires Match(lens, i, v)
    ensures Below(lens, v, lens[i])
    ensures forall l :: 1 <= l < lens[i] ==> !Below(lens, v, l)
  {
    CountGrows(lens, i, |lens|, lens[i]);
    forall l | 1 <= l < lens[i] ensures !Below(lens, v, l) { PastStaysPast(lens, v, l, lens[i]); }
  }

  lemma BelowMatch(lens: seq<nat>, v: nat, l: nat) returns (i: nat)
    requires 1 <= l && Below(lens, v, l) && (l > 1 ==> !Below(lens, v, l - 1))
    ensures First(lens, l) <= Msf(v, l)
    ensures Match(lens, i, v) && lens[i] == l && CountIn(lens, i, l) == Msf(v, l) - First(lens, l)
  {
    i := Nth(lens, |lens|, l, Msf(v, l) - First(lens, l));
  }

  /** Below some length up to m means some code of length up to m matches. */
  lemma {:induction false} BelowFinds(lens: seq<nat>, v: nat, m: nat) returns (i: nat)
    requires 1 <= m && Below(lens, v, m)
    ensures Match(lens, i, v) && lens[i] <= m
    decreases m
  {
    if m > 1 && Below(lens, v, m - 1) { i := BelowFinds(lens, v, m - 1); }
    else { i := BelowMatch(lens, v, m); }
  }

  /** At most one code leads any stream. */
  lemma PrefixFree(lens: seq<nat>, v: nat, i: nat, j: nat)
    requires Match(lens, i, v) && Match(lens, j, v)
    ensures i == j
  {
    MatchBelow(lens, v, i);
    MatchBelow(lens, v, j);
    assert lens[i] == lens[j];
    if i < j { CountGrows(lens, i, j, lens[i]); }
    if j < i { CountGrows(lens, j, i, lens[i]); }
  }

  // ---- acceptance is the Kraft inequality

  /** The codes of length at most l, each weighted by its share 2^-length of all
      streams, in units of 2^-m. */
  function Kraft(lens: seq<nat>, l: nat, m: nat): nat
    requires l <= m
  {
    if l == 0 then 0 else Kraft(lens, l - 1, m) + Shl(Count(lens, l), m - l)
  }

  lemma {:induction false} ShlAdd(a: nat, b: nat, n: nat)
    ensures Shl(a + b, n) == Shl(a, n) + Shl(b, n)
  {
    if n > 0 { ShlAdd(a, b, n - 1); }
  }

  lemma {:induction false} ShlTwice(a: nat, n: nat)
    ensures Shl(2 * a, n) == Shl(a, n + 1)
  {
    if n > 0 { ShlTwice(a, n - 1); }
  }

  lemma {:induction false} ShlPow2(l: nat, n: nat)
    ensures Shl(Pow2(l), n) == Pow2(l + n)
  {
    if n > 0 { ShlPow2(l, n - 1); }
  }

  lemma {:induction false} ShlMonotone(a: nat, b: nat, n: nat)
    ensures a <= b <==> Shl(a, n) <= Shl(b, n)
  {
    if n > 0 { ShlMonotone(a, b, n - 1); }
  }

  lemma {:induction false} KraftIsFirst(lens: seq<nat>, l: nat, m: nat)
    requires 1 <= l <= m
    ensures Kraft(lens, l, m) == Shl(First(lens, l) + Count(lens, l), m - l)
    decreases l
  {
    ShlAdd(First(lens, l), Count(lens, l), m - l);
    if l == 1 {
      assert Kraft(lens, 0, m) == 0;
      ShlZero(m - l);
    } else {
      KraftIsFirst(lens, l - 1, m);
      ShlTwice(First(lens, l - 1) + Count(lens, l - 1), m - l);
    }
  }

  lemma {:induction false} ShlZero(n: nat)
    ensures Shl(0, n) == 0
  {
    if n > 0 { ShlZero(n - 1); }
  }

  lemma {:induction false} KraftGrows(lens: seq<nat>, l: nat, n: nat, m: nat)
    requires l <= n <= m
    ensures Kraft(lens, l, m) <= Kraft(lens, n, m)
    decreases n
  {
    if l < n { KraftGrows(lens, l, n - 1, m); }
  }

  /** Codes fit at length l exactly when their weight leaves room. */
  lemma RoomIsKraft(lens: seq<nat>, l: nat, m: nat)
    requires 1 <= l <= m
    ensures First(lens, l) + Count(lens, l) <= Pow2(l) <==> Kraft(lens, l, m) <= Pow2(m)
  {
    KraftIsFirst(lens, l, m);
    Room(First(lens, l) + Count(lens, l), l, m - l);
  }

  lemma Room(x: nat, l: nat, d: nat)
    ensures x <= Pow2(l) <==> Shl(x, d) <= Pow2(l + d)
  {
    ShlPow2(l, d);
    ShlMonotone(x, Pow2(l), d);
  }

  /** The builder accepts exactly the length lists that satisfy the Kraft
      inequality, sum of 2^-length at most one. */
  lemma AcceptedIsKraft(lens: seq<nat>)
    ensures Accepted(lens) <==> Kraft(lens, MAX_BITS, MAX_BITS) <= Pow2(MAX_BITS)
  {
    RoomIsKraft(lens, MAX_BITS, MAX_BITS);
    if Accepted(lens) { FirstBound(lens, MAX_BITS); }
    else {
      var l :| 1 <= l <= MAX_BITS && !Fits(lens, l);
      RoomIsKraft(lens, l, MAX_BITS);
      KraftGrows(lens, l, MAX_BITS, MAX_BITS);
    }
  }
}
