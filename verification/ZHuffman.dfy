/** stbi__zbuild_huffman and stbi__zhuffman_decode: a 512-entry table for codes of
    up to nine bits and a search over lengths for the rest. */
module ZHuffman {
  import opened Bits
  import opened CanonicalCode
  import opened ZStream

  const FAST_BITS: nat := 9

  /** A code short enough for the fast table that leads the stream x. */
  predicate ShortMatch(lens: seq<nat>, i: nat, x: nat) {
    Match(lens, i, x) && lens[i] <= FAST_BITS
  }

  /** What a fast entry must hold once the first n symbols are entered. */
  ghost predicate FastAt(lens: seq<nat>, n: nat, x: nat, e: nat) {
    || (e == 0 && forall i :: 0 <= i < n ==> !ShortMatch(lens, i, x))
    || (exists i :: 0 <= i < n && ShortMatch(lens, i, x) && e == 512 * lens[i] + i)
  }

  /** Numbers less than 2^s apart differ in their low s bits. */
  lemma {:induction false} LowDistinct(x: nat, y: nat, s: nat)
    requires x < y < x + Pow2(s)
    ensures Low(x, s) != Low(y, s)
    decreases s
  {
    if s > 0 && x % 2 == y % 2 { LowDistinct(x / 2, y / 2, s - 1); }
  }

  /** stbi__bit_reverse, called on the low bits of a code or of the buffer. */
  method ReverseBits(v: nat, bits: nat) returns (r: nat)
    requires bits <= 16
    ensures r == Msf(v, bits)
  {
    BitReverseIsMsf(v, bits);
    r := BitReverse(v, bits);
  }

  /** stbi__zhuffman.  Its arrays are embedded in the struct, so each is a
      sequence-valued field of fixed length. */
  class Table {
    var fast: seq<nat>
    var firstcode: seq<nat>
    var maxcode: seq<nat>
    var firstsymbol: seq<nat>
    var size: seq<nat>
    var value: seq<nat>

    ghost predicate Shape()
      reads this
    {
      && |fast| == 512 && |firstcode| == 16 && |maxcode| == 17 && |firstsymbol| == 16
      && |size| == MAX_SYMBOLS && |value| == MAX_SYMBOLS
    }

    constructor ()
      ensures Shape()
    {
      fast := seq(512, _ => 0);
      firstcode := seq(16, _ => 0);
      maxcode := seq(17, _ => 0);
      firstsymbol := seq(16, _ => 0);
      size := seq(MAX_SYMBOLS, _ => 0);
      value := seq(MAX_SYMBOLS, _ => 0);
    }

    /** The per-length row l. */
    static ghost predicate Row(lens: seq<nat>, l: nat, code: nat, symbol: nat, limit: nat) {
      && code == First(lens, l)
      && symbol == FirstSymbol(lens, l)
      && (l <= 16 ==> limit == Shl(First(lens, l) + Count(lens, l), 16 - l))
    }

    ghost predicate Rows(lens: seq<nat>, n: nat)
      requires Shape() && n <= 16
      reads this
    {
      forall l :: 1 <= l < n ==> Row(lens, l, firstcode[l], firstsymbol[l], maxcode[l])
    }

    /** The first n symbols are entered at their places. */
    ghost predicate Symbols(lens: seq<nat>, n: nat)
      requires Shape() && n <= |lens| <= MAX_SYMBOLS
      reads this
    {
      forall i :: 0 <= i < n && lens[i] > 0 ==>
        Place(lens, i) < MAX_SYMBOLS && size[Place(lens, i)] == lens[i] && value[Place(lens, i)] == i
    }

    ghost predicate Fast(lens: seq<nat>, n: nat)
      requires Shape()
      reads this
    {
      forall x :: 0 <= x < 512 ==> FastAt(lens, n, x, fast[x])
    }

    /** The table decodes lens. */
    ghost predicate Built(lens: seq<nat>)
      reads this
    {
      && Shape() && ValidLens(lens) && Accepted(lens)
      && Rows(lens, 16) && maxcode[16] == 0x10000
      && Symbols(lens, |lens|) && Fast(lens, |lens|)
    }

    /** The inner while loop: every entry whose low s bits are start receives v. */
    method FillFast(start: nat, s: nat, v: nat)
      requires Shape() && 1 <= s <= FAST_BITS && start < Pow2(s)
      modifies this`fast
      ensures Shape()
      ensures forall x :: 0 <= x < 512 ==> fast[x] == if Low(x, s) == start then v else old(fast[x])
    {
      var j := start;
      LowSmall(start, s);
      forall x | 0 <= x < start ensures Low(x, s) != start { LowDistinct(x, start, s); }
      while j < 512
        invariant |fast| == 512
        invariant Low(j, s) == start
        invariant forall x :: 0 <= x < 512 && x < j ==> fast[x] == if Low(x, s) == start then v else old(fast[x])
        invariant forall x :: 0 <= x < 512 && j <= x ==> fast[x] == old(fast[x])
        decreases 512 - j
      {
        fast := fast[j := v];
        LowMinus(j + Pow2(s), s);
        forall x | j < x < j + Pow2(s) ensures Low(x, s) != start { LowDistinct(j, x, s); }
        j := j + Pow2(s);
      }
    }

    /** How many codes of each length, `sizes[0]` being cleared. */
    static method CountSizes(lens: seq<nat>) returns (sizes: seq<nat>)
      requires ValidLens(lens)
      ensures |sizes| == 17 && sizes[0] == 0
      ensures forall l :: 1 <= l < 17 ==> sizes[l] == Count(lens, l)
    {
      sizes := seq(17, _ => 0);
      for i := 0 to |lens|
        invariant |sizes| == 17
        invariant forall l :: 0 <= l < 17 ==> sizes[l] == CountIn(lens, i, l)
      {
        sizes := sizes[lens[i] := sizes[lens[i]] + 1];
      }
      sizes := sizes[0 := 0];
    }

    static lemma OneShifted(i: nat)
      ensures Shl(1, i) == Pow2(i)
    {
      assert Pow2(0) == 1;
      ShlPow2(0, i);
    }

    /** No length may have more codes than there are strings of that length. */
    static lemma TooMany(lens: seq<nat>, l: nat)
      requires 1 <= l <= MAX_BITS && Count(lens, l) > Pow2(l)
      ensures !Accepted(lens)
    {
      assert !Fits(lens, l);
    }

    static method CheckSizes(ghost lens: seq<nat>, sizes: seq<nat>) returns (ok: bool)
      requires |sizes| == 17 && forall l :: 1 <= l < 17 ==> sizes[l] == Count(lens, l)
      ensures !ok ==> !Accepted(lens)
      ensures ok ==> forall l :: 1 <= l <= MAX_BITS ==> Count(lens, l) <= Pow2(l)
    {
      for i := 1 to 16
        invariant forall l :: 1 <= l < i ==> Count(lens, l) <= Pow2(l)
      {
        OneShifted(i);
        if sizes[i] > Shl(1, i) {
          TooMany(lens, i);
          return false;
        }
      }
      return true;
    }

    /** One round of the loop over lengths. */
    method AssignLength(i: nat, code: nat, k: nat, count: nat) returns (fits: bool)
      requires Shape() && 1 <= i < 16
      modifies this`firstcode, this`firstsymbol, this`maxcode
      ensures Shape()
      ensures fits <==> (count > 0 ==> code + count <= Pow2(i))
      ensures firstcode == old(firstcode)[i := code] && firstsymbol == old(firstsymbol)[i := k]
      ensures fits ==> maxcode == old(maxcode)[i := Shl(code + count, 16 - i)]
    {
      firstcode := firstcode[i := code];
      firstsymbol := firstsymbol[i := k];
      OneShifted(i);
      if count != 0 && code + count - 1 >= Shl(1, i) { return false; }
      maxcode := maxcode[i := Shl(code + count, 16 - i)];
      return true;
    }

    static ghost predicate FitUpTo(lens: seq<nat>, n: nat) { forall l :: 1 <= l < n ==> Fits(lens, l) }

    static lemma NextFirst(lens: seq<nat>, i: nat)
      requires 1 <= i
      ensures First(lens, i + 1) == Shl(First(lens, i) + Count(lens, i), 1)
      ensures FirstSymbol(lens, i + 1) == FirstSymbol(lens, i) + Count(lens, i)
    {
      assert Shl(First(lens, i) + Count(lens, i), 0) == First(lens, i) + Count(lens, i);
    }

    /** The loop over lengths: first codes, first symbols and shifted upper bounds. */
    method AssignCodes(ghost lens: seq<nat>, sizes: seq<nat>) returns (ok: bool, nextCode: seq<nat>)
      requires Shape()
      requires |sizes| == 17 && forall l :: 1 <= l < 17 ==> sizes[l] == Count(lens, l)
      modifies this`firstcode, this`firstsymbol, this`maxcode
      ensures Shape() && |nextCode| == 16
      ensures ok <==> Accepted(lens)
      ensures ok ==> Rows(lens, 16) && maxcode[16] == 0x10000
      ensures ok ==> forall l :: 1 <= l < 16 ==> nextCode[l] == First(lens, l)
    {
      nextCode := seq(16, _ => 0);
      var code, k, i := 0, 0, 1;
      while i < 16
        invariant Shape() && 1 <= i <= 16 && |nextCode| == 16
        invariant code == First(lens, i) && k == FirstSymbol(lens, i)
        invariant FitUpTo(lens, i)
        invariant Rows(lens, i)
        invariant forall l :: 1 <= l < i ==> nextCode[l] == firstcode[l]
      {
        nextCode := nextCode[i := code];
        var fits := AssignLength(i, code, k, sizes[i]);
        NextFirst(lens, i);
        if !fits {
          assert !Fits(lens, i);
          return false, nextCode;
        }
        assert Row(lens, i, firstcode[i], firstsymbol[i], maxcode[i]);
        assert Fits(lens, i);
        code := Shl(code + sizes[i], 1);
        k := k + sizes[i];
        i := i + 1;
      }
      maxcode := maxcode[16 := 0x10000];
      assert forall l :: 1 <= l < 16 ==> Row(lens, l, firstcode[l], firstsymbol[l], maxcode[l]);
      ok := true;
    }

    /** One round of the symbol loop, for a symbol of positive length. */
    method EnterSymbol(lens: seq<nat>, i: nat, code: nat)
      requires Shape() && ValidLens(lens) && Accepted(lens) && Rows(lens, 16)
      requires i < |lens| && lens[i] > 0 && code == Code(lens, i)
      requires Symbols(lens, i) && Fast(lens, i)
      modifies this`fast, this`size, this`value
      ensures Shape() && Symbols(lens, i + 1) && Fast(lens, i + 1)
    {
      var s := lens[i];
      assert Row(lens, s, firstcode[s], firstsymbol[s], maxcode[s]);
      var c := code - firstcode[s] + firstsymbol[s];
      assert c == Place(lens, i);
      PlaceBound(lens, i);
      forall j | 0 <= j < i && lens[j] > 0 ensures Place(lens, j) != c { PlaceInjective(lens, i, j); }
      size := size[c := s];
      value := value[c := i];
      if s <= FAST_BITS {
        CodeBound(lens, i);
        MsfBound(code, s);
        var j := ReverseBits(code, s);
        EnterFast(lens, i, j);
      } else {
        FastKeeps(lens, i);
      }
    }

    /** A symbol without a short code leaves the fast table right. */
    lemma FastKeeps(lens: seq<nat>, i: nat)
      requires Shape() && Fast(lens, i) && i < |lens| && (lens[i] == 0 || lens[i] > FAST_BITS)
      ensures Fast(lens, i + 1)
    {
      forall x | 0 <= x < 512 ensures FastAt(lens, i + 1, x, fast[x]) {
        assert FastAt(lens, i, x, fast[x]);
      }
    }

    /** Entering a short code: exactly the streams it leads receive its entry. */
    method EnterFast(lens: seq<nat>, i: nat, reversed: nat)
      requires Shape() && ValidLens(lens) && Accepted(lens)
      requires i < |lens| && 1 <= lens[i] <= FAST_BITS && Fast(lens, i)
      requires reversed == Msf(Code(lens, i), lens[i]) < Pow2(lens[i])
      modifies this`fast
      ensures Shape() && Fast(lens, i + 1)
    {
      var s := lens[i];
      CodeBound(lens, i);
      FillFast(reversed, s, 512 * s + i);
      forall x | 0 <= x < 512 ensures FastAt(lens, i + 1, x, fast[x]) {
        ReverseIff(x, Code(lens, i), s);
        assert FastAt(lens, i, x, old(fast[x]));
        if Low(x, s) == reversed { assert ShortMatch(lens, i, x); }
      }
    }

    /** The loop over symbols. */
    method EnterSymbols(lens: seq<nat>, codes: seq<nat>)
      requires Shape() && ValidLens(lens) && Accepted(lens) && Rows(lens, 16)
      requires |codes| == 16 && forall l :: 1 <= l < 16 ==> codes[l] == First(lens, l)
      requires Fast(lens, 0)
      modifies this`fast, this`size, this`value
      ensures Shape() && Symbols(lens, |lens|) && Fast(lens, |lens|)
    {
      var nextCode := codes;
      for i := 0 to |lens|
        invariant Shape() && |nextCode| == 16
        invariant forall l :: 1 <= l < 16 ==> nextCode[l] == First(lens, l) + CountIn(lens, i, l)
        invariant Symbols(lens, i) && Fast(lens, i)
      {
        var s := lens[i];
        if s != 0 {
          EnterSymbol(lens, i, nextCode[s]);
          nextCode := nextCode[s := nextCode[s] + 1];
        } else {
          FastKeeps(lens, i);
        }
      }
    }

    /** stbi__zbuild_huffman: succeeds exactly on the length lists whose codes fit,
        and then the table decodes them. */
    method Build(lens: seq<nat>) returns (ok: bool)
      requires Shape() && ValidLens(lens)
      modifies this
      ensures Shape()
      ensures ok <==> Accepted(lens)
      ensures ok ==> Built(lens)
    {
      var sizes := CountSizes(lens);
      fast := seq(512, _ => 0);
      assert Fast(lens, 0);
      ok := CheckSizes(lens, sizes);
      if !ok { return; }
      var nextCode;
      ok, nextCode := AssignCodes(lens, sizes);
      if ok { EnterSymbols(lens, nextCode); }
    }

    /** Decoding a stream v with result r: the one symbol whose code leads v, or
        -1 exactly when there is none. */
    static ghost predicate Decodes(lens: seq<nat>, v: nat, r: int) {
      && (r >= 0 ==> Match(lens, r, v))
      && (r < 0 ==> r == -1)
      && (forall i :: Match(lens, i, v) ==> i == r)
    }

    /** No code of up to nine bits leads v. */
    static ghost predicate OnlyLong(lens: seq<nat>, v: nat) {
      forall i: nat :: Match(lens, i, v) ==> lens[i] > FAST_BITS
    }

    static lemma FastAgrees(lens: seq<nat>, v: nat, x: nat, i: nat)
      requires x == Low(v, FAST_BITS) && i < |lens| && lens[i] <= FAST_BITS
      ensures Match(lens, i, x) <==> Match(lens, i, v)
    {
      MsfOfLow(v, FAST_BITS, lens[i]);
    }

    /** A filled fast entry is the decoding; an empty one means every code that
        leads v is longer than nine bits. */
    static lemma EntryParts(l: nat, i: nat)
      requires i < 512
      ensures (512 * l + i) % 512 == i && (512 * l + i) / 512 == l
    {}

    lemma FastEntry(lens: seq<nat>, v: nat)
      requires Built(lens) && Low(v, FAST_BITS) < 512
      ensures fast[Low(v, FAST_BITS)] != 0 ==>
        && Decodes(lens, v, fast[Low(v, FAST_BITS)] % 512)
        && lens[fast[Low(v, FAST_BITS)] % 512] == fast[Low(v, FAST_BITS)] / 512 <= FAST_BITS
      ensures fast[Low(v, FAST_BITS)] == 0 ==> OnlyLong(lens, v)
    {
      var x := Low(v, FAST_BITS);
      assert FastAt(lens, |lens|, x, fast[x]);
      if fast[x] != 0 {
        var i :| 0 <= i < |lens| && ShortMatch(lens, i, x) && fast[x] == 512 * lens[i] + i;
        EntryParts(lens[i], i);
        FastAgrees(lens, v, x, i);
        forall j | Match(lens, j, v) ensures j == i { PrefixFree(lens, v, i, j); }
      } else {
        forall i: nat | Match(lens, i, v) ensures lens[i] > FAST_BITS {
          if lens[i] <= FAST_BITS {
            FastAgrees(lens, v, x, i);
            assert ShortMatch(lens, i, x);
            assert false;
          }
        }
      }
    }

    /** Comparing with the shifted upper bound compares the first l bits. */
    lemma RowTest(lens: seq<nat>, v: nat, l: nat)
      requires Built(lens) && 1 <= l < 16
      ensures Msf(v, 16) < maxcode[l] <==> Below(lens, v, l)
      ensures Shr(Msf(v, 16), 16 - l) == Msf(v, l)
    {
      assert Row(lens, l, firstcode[l], firstsymbol[l], maxcode[l]);
      ShlLess(Msf(v, 16), First(lens, l) + Count(lens, l), 16 - l);
      MsfShift(v, 16, l);
    }

    /** The search of the slow path: the first length above nine whose codes are
        not all smaller than the stream, or 16. */
    method FindLength(k: nat, ghost lens: seq<nat>, ghost v: nat) returns (s: nat)
      requires Built(lens) && k == Msf(v, 16) && OnlyLong(lens, v)
      ensures FAST_BITS < s <= 16
      ensures forall l :: FAST_BITS <= l < s ==> !Below(lens, v, l)
      ensures s < 16 ==> Below(lens, v, s)
    {
      MsfBound(v, 16);
      assert Pow2(8) == 0x100 && Pow2(16) == 0x10000;
      NotBelowShort(lens, v);
      s := FAST_BITS + 1;
      while k >= maxcode[s]
        invariant FAST_BITS + 1 <= s <= 16
        invariant forall l :: FAST_BITS <= l < s ==> !Below(lens, v, l)
        decreases 16 - s
      {
        RowTest(lens, v, s);
        s := s + 1;
      }
      if s < 16 { RowTest(lens, v, s); }
    }

    /** The symbol at the place that the search arrives at. */
    lemma PlaceFound(lens: seq<nat>, v: nat, s: nat) returns (i: nat)
      requires Built(lens) && FAST_BITS < s < 16 && Below(lens, v, s) && !Below(lens, v, s - 1)
      ensures Decodes(lens, v, i) && i < |lens| && lens[i] == s
      ensures Place(lens, i) == Shr(Msf(v, 16), 16 - s) - firstcode[s] + firstsymbol[s] < MAX_SYMBOLS
      ensures size[Place(lens, i)] == s && value[Place(lens, i)] == i
    {
      i := BelowMatch(lens, v, s);
      RowTest(lens, v, s);
      assert Row(lens, s, firstcode[s], firstsymbol[s], maxcode[s]);
      forall j | Match(lens, j, v) ensures j == i { PrefixFree(lens, v, i, j); }
    }

    /** The search of the slow path and the symbol it ends at, or length 16. */
    method SlowSymbol(k: nat, ghost lens: seq<nat>, ghost v: nat) returns (s: nat, r: int)
      requires Built(lens) && k == Msf(v, 16) && OnlyLong(lens, v)
      ensures Decodes(lens, v, r)
      ensures if r < 0 then s == 16 else s == lens[r] < 16
    {
      s := FindLength(k, lens, v);
      if s == 16 {
        NoMatch(lens, v);
        return s, -1;
      }
      ghost var i := PlaceFound(lens, v, s);
      r := value[Shr(k, 16 - s) - firstcode[s] + firstsymbol[s]];
    }

    /** stbi__zhuffman_decode_slowpath, entered when no code of up to nine bits fits. */
    method DecodeSlow(a: BitReader, ghost lens: seq<nat>) returns (r: int)
      requires Built(lens) && a.Valid() && a.numBits >= 16 && OnlyLong(lens, a.Stream())
      modifies a
      ensures a.Valid() && Decodes(lens, old(a.Stream()), r)
      ensures a.Stream() == Shr(old(a.Stream()), if r < 0 then 0 else lens[r])
      ensures a.Consumed() == old(a.Consumed()) + if r < 0 then 0 else lens[r]
    {
      BufferedBits(a.codeBuffer, Value(a.data[a.pos..]), a.numBits);
      var k := ReverseBits(a.codeBuffer, 16);
      var s;
      s, r := SlowSymbol(k, lens, a.Stream());
      if s != 16 { a.Skip(s); }
    }

    static lemma BufferedBits(buffer: nat, rest: nat, n: nat)
      requires n >= 16
      ensures Msf(buffer, 16) == Msf(buffer + Shl(rest, n), 16)
    {
      LowOfSum(buffer, rest, n, 16);
      MsfOfLow(buffer, 16, 16);
      MsfOfLow(buffer + Shl(rest, n), 16, 16);
    }

    static lemma NotBelowShort(lens: seq<nat>, v: nat)
      requires OnlyLong(lens, v)
      ensures !Below(lens, v, FAST_BITS)
    {
      if Below(lens, v, FAST_BITS) {
        var i := BelowFinds(lens, v, FAST_BITS);
        assert false;
      }
    }

    static lemma NoMatch(lens: seq<nat>, v: nat)
      requires ValidLens(lens)
      requires OnlyLong(lens, v)
      requires forall l :: FAST_BITS <= l <= MAX_BITS ==> !Below(lens, v, l)
      ensures forall i :: !Match(lens, i, v)
    {
      forall i | Match(lens, i, v) ensures false { MatchBelow(lens, v, i); }
    }

    /** `fast[code_buffer & STBI__ZFAST_MASK]`. */
    method LookUp(a: BitReader) returns (b: nat)
      requires Shape() && a.Valid() && a.numBits >= FAST_BITS
      ensures Low(a.Stream(), FAST_BITS) < 512 && b == fast[Low(a.Stream(), FAST_BITS)]
    {
      assert Pow2(FAST_BITS) == 512;
      AndMask(a.codeBuffer, FAST_BITS);
      LowOfSum(a.codeBuffer, Value(a.data[a.pos..]), a.numBits, FAST_BITS);
      LowBound(a.Stream(), FAST_BITS);
      b := fast[And(a.codeBuffer, Pow2(FAST_BITS) - 1)];
    }

    /** stbi__zhuffman_decode: for every stream, the fast table and the slow path
        together return exactly the one symbol whose canonical code leads the
        stream and consume exactly that code, or fail, consuming nothing, exactly
        when no code leads it. */
    method Decode(a: BitReader, ghost lens: seq<nat>) returns (r: int)
      requires Built(lens) && a.Valid()
      modifies a
      ensures a.Valid() && Decodes(lens, old(a.Stream()), r)
      ensures a.Stream() == Shr(old(a.Stream()), if r < 0 then 0 else lens[r])
      ensures a.Consumed() == old(a.Consumed()) + if r < 0 then 0 else lens[r]
    {
      if a.numBits < 16 { a.FillBits(); }
      var b := LookUp(a);
      FastEntry(lens, a.Stream());
      if b != 0 {
        a.Skip(b / 512);
        return b % 512;
      }
      r := DecodeSlow(a, lens);
    }
  }

  /** The stream a compressor writes for the symbols, followed by tail. */
  function Encode(lens: seq<nat>, symbols: seq<nat>, tail: nat): nat
    requires forall i :: 0 <= i < |symbols| ==> symbols[i] < |lens|
  {
    if symbols == [] then tail
    else
      var l := lens[symbols[0]];
      Msf(Code(lens, symbols[0]), l) + Shl(Encode(lens, symbols[1..], tail), l)
  }

  /** Decoding undoes encoding, one symbol at a time: the code of the first symbol
      leads the encoded stream, and what remains after it is the encoding of the
      other symbols. */
  lemma EncodedLeads(lens: seq<nat>, symbols: seq<nat>, tail: nat)
    requires ValidLens(lens) && Accepted(lens) && symbols != []
    requires forall i :: 0 <= i < |symbols| ==> symbols[i] < |lens| && lens[symbols[i]] > 0
    ensures Match(lens, symbols[0], Encode(lens, symbols, tail))
    ensures Shr(Encode(lens, symbols, tail), lens[symbols[0]]) == Encode(lens, symbols[1..], tail)
  {
    var l, c := lens[symbols[0]], Code(lens, symbols[0]);
    var rest := Encode(lens, symbols[1..], tail);
    var v := Msf(c, l) + Shl(rest, l);
    CodeBound(lens, symbols[0]);
    LowOfSum(Msf(c, l), rest, l, l);
    MsfBound(c, l);
    LowSmall(Msf(c, l), l);
    ReverseIff(v, c, l);
    ShrOfSum(Msf(c, l), rest, l, l);
    ShrFits(Msf(c, l), l, l);
  }

  /** Decoding symbol after symbol gives the encoded sequence back and stops right
      behind it. */
  method DecodeAll(z: Table, a: BitReader, n: nat, ghost lens: seq<nat>, ghost symbols: seq<nat>, ghost tail: nat) returns (out: seq<int>)
    requires z.Built(lens) && ValidLens(lens) && Accepted(lens) && a.Valid() && n == |symbols|
    requires forall i :: 0 <= i < |symbols| ==> symbols[i] < |lens| && lens[symbols[i]] > 0
    requires a.Stream() == Encode(lens, symbols, tail)
    modifies a
    ensures a.Valid() && out == symbols && a.Stream() == tail
  {
    out := [];
    for k := 0 to n
      invariant a.Valid() && out == symbols[..k] && a.Stream() == Encode(lens, symbols[k..], tail)
    {
      EncodedLeads(lens, symbols[k..], tail);
      var r := z.Decode(a, lens);
      assert r == symbols[k..][0];
      assert symbols[k..][1..] == symbols[k + 1..];
      out := out + [r];
    }
  }
}
