/** The bit reader of the DEFLATE decoder: stbi__zget8, stbi__fill_bits and
    stbi__zreceive.  The bits still to be read form one number, lowest bit next,
    with zeros after the end of the input. */
module ZStream {
  import opened Bits
  import opened CanonicalCode

  type Byte = x: nat | x < 256

  /** Bytes in the order they are read. */
  function Value(d: seq<Byte>): nat { if d == [] then 0 else d[0] + 256 * Value(d[1..]) }

  lemma {:induction false} OrDisjoint(a: nat, b: nat, n: nat)
    requires a < Pow2(n)
    ensures Or(a, Shl(b, n)) == a + Shl(b, n)
    decreases n
  {
    if n > 0 && a != 0 && Shl(b, n) != 0 {
      assert Shl(b, n) / 2 == Shl(b, n - 1);
      OrDisjoint(a / 2, b, n - 1);
    }
  }

  lemma ShlByte(b: nat, n: nat)
    ensures Shl(256 * b, n) == Shl(b, n + 8)
  {
    ShlTwice(128 * b, n);
    ShlTwice(64 * b, n + 1);
    ShlTwice(32 * b, n + 2);
    ShlTwice(16 * b, n + 3);
    ShlTwice(8 * b, n + 4);
    ShlTwice(4 * b, n + 5);
    ShlTwice(2 * b, n + 6);
    ShlTwice(b, n + 7);
  }

  lemma AppendByte(a: nat, b: Byte, n: nat)
    requires a < Pow2(n)
    ensures a + Shl(b, n) < Pow2(n + 8)
  {
    assert Pow2(8) == 256 && Pow2(0) == 1;
    ShlPow2(0, n);
    ShlAdd(1, b, n);
    ShlMonotone(1 + b, 256, n);
    ShlPow2(8, n);
  }

  lemma {:induction false} ShrOfSum(a: nat, b: nat, m: nat, n: nat)
    requires n <= m
    ensures Shr(a + Shl(b, m), n) == Shr(a, n) + Shl(b, m - n)
  {
    if n > 0 { ShrOfSum(a, b, m, n - 1); }
  }

  lemma {:induction false} LowOfSum(a: nat, b: nat, m: nat, n: nat)
    requires n <= m
    ensures Low(a + Shl(b, m), n) == Low(a, n)
    decreases n
  {
    if n > 0 {
      assert (a + Shl(b, m)) / 2 == a / 2 + Shl(b, m - 1);
      LowOfSum(a / 2, b, m - 1, n - 1);
    }
  }

  lemma {:induction false} ShrFits(a: nat, m: nat, n: nat)
    requires n <= m && a < Pow2(m)
    ensures Shr(a, n) < Pow2(m - n)
  {
    if n > 0 { ShrFits(a, m, n - 1); }
  }

  class BitReader {
    const data: seq<Byte>
    var pos: nat
    var numBits: nat
    var codeBuffer: nat
    ghost var padding: nat      // zero bytes supplied after the end of data

    ghost predicate Valid()
      reads this
    {
      pos <= |data| && numBits <= 32 && codeBuffer < Pow2(numBits)
    }

    /** All bits not yet consumed. */
    ghost function Stream(): nat
      reads this
      requires pos <= |data|
    {
      codeBuffer + Shl(Value(data[pos..]), numBits)
    }

    /** How many bits have been consumed. */
    ghost function Consumed(): int
      reads this
    {
      8 * (pos + padding) - numBits
    }

    constructor (data: seq<Byte>)
      ensures Valid() && this.data == data && numBits == 0
      ensures Stream() == Value(data) && Consumed() == 0
    {
      this.data := data;
      pos, numBits, codeBuffer, padding := 0, 0, 0, 0;
      new;
      assert data[0..] == data;
    }

    /** stbi__fill_bits: one byte at a time until more than 24 bits are buffered. */
    method FillBits()
      requires Valid() && numBits <= 24
      modifies this
      ensures Valid() && 24 < numBits
      ensures Stream() == old(Stream()) && Consumed() == old(Consumed())
    {
      AddByte();
      while numBits <= 24
        invariant Valid() && Stream() == old(Stream()) && Consumed() == old(Consumed())
        decreases 32 - numBits
      {
        AddByte();
      }
    }

    /** One round of stbi__fill_bits, with stbi__zget8. */
    method AddByte()
      requires Valid() && numBits <= 24
      modifies this
      ensures Valid() && numBits == old(numBits) + 8
      ensures Stream() == old(Stream()) && Consumed() == old(Consumed())
    {
      var b: Byte := 0;
      ghost var rest := Value(data[pos..]);
      if pos < |data| {
        b := data[pos];
        assert data[pos..][1..] == data[pos + 1..];
        ghost var r := Value(data[pos + 1..]);
        assert rest == b + 256 * r;
        ShlAdd(b, 256 * r, numBits);
        ShlByte(r, numBits);
        pos := pos + 1;
      } else {
        assert data[pos..] == [];
        ShlZero(numBits);
        ShlZero(numBits + 8);
        padding := padding + 1;
      }
      OrDisjoint(codeBuffer, b, numBits);
      AppendByte(codeBuffer, b, numBits);
      codeBuffer := Or(codeBuffer, Shl(b, numBits));
      numBits := numBits + 8;
    }

    /** Dropping n buffered bits. */
    method Skip(n: nat)
      requires Valid() && n <= numBits
      modifies this
      ensures Valid() && pos == old(pos) && numBits == old(numBits) - n
      ensures Stream() == Shr(old(Stream()), n) && Consumed() == old(Consumed()) + n
    {
      ShrOfSum(codeBuffer, Value(data[pos..]), numBits, n);
      ShrFits(codeBuffer, numBits, n);
      codeBuffer := Shr(codeBuffer, n);
      numBits := numBits - n;
    }

    /** stbi__zreceive: the next n bits, lowest first, whatever is buffered. */
    method Receive(n: nat) returns (k: nat)
      requires Valid() && n <= 24
      modifies this
      ensures Valid()
      ensures k == Low(old(Stream()), n)
      ensures Stream() == Shr(old(Stream()), n) && Consumed() == old(Consumed()) + n
    {
      if numBits < n { FillBits(); }
      k := And(codeBuffer, Pow2(n) - 1);
      AndMask(codeBuffer, n);
      LowOfSum(codeBuffer, Value(data[pos..]), numBits, n);
      Skip(n);
    }
  }
}
