/** The integer transcoder: `putinteger` and `getinteger`. */
module Integers {
  import opened Base
  import opened Bits
  import opened ByteOrder

  function Pow256(n: nat): (r: nat)
    ensures r >= 1
  {
    if n == 0 then 1 else 256 * Pow256(n - 1)
  }

  /** Byte i, counted from the least significant end, of the two's complement of v: `(v >> 8*i) & 0xff`. */
  function ByteOf(v: int, i: nat): Byte
  {
    (v / Pow256(i)) % 256
  }

  /** The bytes `putinteger` emits for v in a field of the given size and order. */
  function IntegerBytes(v: int, endian: Endian, size: nat): (r: seq<Byte>)
    ensures |r| == size
  {
    if endian == Little then seq(size, i requires 0 <= i < size => ByteOf(v, i))
    else seq(size, i requires 0 <= i < size => ByteOf(v, size - 1 - i))
  }

  /** Unsigned little-endian value of a byte run: the sum of bs[i] * 256^i. */
  function LittleValue(bs: seq<Byte>): nat
  {
    if bs == [] then 0 else LittleValue(bs[..|bs| - 1]) + bs[|bs| - 1] * Pow256(|bs| - 1)
  }

  /** The unsigned value `getinteger` accumulates from a byte run in the given order. */
  function UnsignedValue(bs: seq<Byte>, endian: Endian): nat
  {
    if endian == Little then LittleValue(bs) else LittleValue(Reversed(bs))
  }

  /** Reading u as a size-byte two's-complement number. */
  function SignExtend(u: int, size: nat): int
    requires size >= 1
  {
    if u >= Pow256(size) / 2 then u - Pow256(size) else u
  }

  /** What `getinteger` returns for a byte run: unsigned, or sign-extended for lower-case options. */
  function IntegerValue(bs: seq<Byte>, endian: Endian, signed: bool): int
    requires signed ==> |bs| >= 1
  {
    var u := UnsignedValue(bs, endian);
    if signed then SignExtend(u, |bs|) else u
  }

  lemma {:induction false} LittleValueBound(bs: seq<Byte>)
    ensures LittleValue(bs) < Pow256(|bs|)
    decreases |bs|
  {
    if bs != [] {
      var n := |bs| - 1;
      LittleValueBound(bs[..n]);
      MulMonotone(bs[n], 255, Pow256(n));
      assert LittleValue(bs) <= Pow256(n) - 1 + 255 * Pow256(n);
    }
  }

  /** Adding one more byte on the most significant end of a little-endian prefix. */
  lemma LittleValueStep(bs: seq<Byte>, i: nat)
    requires i < |bs|
    ensures LittleValue(bs[..i + 1]) == LittleValue(bs[..i]) + bs[i] * Pow256(i)
  {
    assert bs[..i + 1][..i] == bs[..i];
  }

  /** The low n bytes of v, least significant first, have the value v mod 256^n. */
  lemma {:induction false} LittleBytesValue(v: int, n: nat)
    ensures LittleValue(IntegerBytes(v, Little, n)) == v % Pow256(n)
  {
    var bs := IntegerBytes(v, Little, n);
    if n == 0 {
      DivModUnique(v, 1, v, 0);
    } else {
      var a := Pow256(n - 1);
      var d := (v / a) % 256;
      assert bs[..n - 1] == IntegerBytes(v, Little, n - 1);
      assert bs[n - 1] == d;
      LittleBytesValue(v, n - 1);
      assert LittleValue(bs) == v % a + d * a;
      ModMul(v, a, 256);
      assert a * 256 == Pow256(n) && d * a == a * d;
    }
  }

  /** The big-endian run is the little-endian run reversed. */
  lemma BigIsReversedLittle(v: int, n: nat)
    ensures IntegerBytes(v, Big, n) == Reversed(IntegerBytes(v, Little, n))
  {
  }

  /** Unsigned round trip: `getinteger` of `putinteger(v)` in the same order is v mod 256^size. */
  lemma UnsignedRoundTrip(v: int, endian: Endian, size: nat)
    ensures UnsignedValue(IntegerBytes(v, endian, size), endian) == v % Pow256(size)
  {
    LittleBytesValue(v, size);
    if endian == Big {
      BigIsReversedLittle(v, size);
      ReversedTwice(IntegerBytes(v, Little, size));
    }
  }

  /** Sign extension yields a value of the field's signed range that agrees with u modulo 256^size. */
  lemma SignExtendRange(u: int, size: nat)
    requires size >= 1 && 0 <= u < Pow256(size)
    ensures -(Pow256(size) / 2) <= SignExtend(u, size) < Pow256(size) / 2
    ensures SignExtend(u, size) % Pow256(size) == u
    ensures (SignExtend(u, size) < 0) == (u >= Pow256(size) / 2)
  {
    var p := Pow256(size);
    assert p == 256 * Pow256(size - 1);
    if u >= p / 2 {
      DivModUnique(u - p, p, -1, u);
    } else {
      DivModUnique(u, p, 0, u);
    }
  }

  /** A value in the field's range decodes to itself: unsigned for upper-case options, signed for lower-case. */
  lemma IntegerRoundTrip(v: int, endian: Endian, size: nat, signed: bool)
    requires signed ==> size >= 1 && -(Pow256(size) / 2) <= v < Pow256(size) / 2
    requires !signed ==> 0 <= v < Pow256(size)
    ensures IntegerValue(IntegerBytes(v, endian, size), endian, signed) == v
  {
    UnsignedRoundTrip(v, endian, size);
    var p := Pow256(size);
    if signed {
      assert p == 256 * Pow256(size - 1);
      if v < 0 {
        DivModUnique(v, p, -1, v + p);
      } else {
        DivModUnique(v, p, 0, v);
      }
    } else {
      DivModUnique(v, p, 0, v);
    }
  }

  /** `putinteger`: appends the size low bytes of v to the buffer, in the requested order. */
  method PutInteger(b: seq<Byte>, v: int, endian: Endian, size: nat) returns (b': seq<Byte>)
    ensures b' == b + IntegerBytes(v, endian, size)
  {
    // The C code first converts the number to `unsigned long`; the model keeps v exact, and
    // (v / 256^i) % 256 is the byte `(value >> 8*i) & 0xff` of its two's complement.
    b' := b;
    if endian == Little {
      for i := 0 to size
        invariant b' == b + IntegerBytes(v, Little, size)[..i]
      {
        b' := b' + [(v / Pow256(i)) % 256];
      }
    } else {
      var i: int := size - 1;
      while i >= 0
        invariant -1 <= i < size
        invariant b' == b + IntegerBytes(v, Big, size)[..size - 1 - i]
      {
        ghost var all := IntegerBytes(v, Big, size);
        assert all[..size - i] == all[..size - 1 - i] + [ByteOf(v, i)];
        b' := b' + [(v / Pow256(i)) % 256];
        i := i - 1;
      }
    }
  }

  /** The accumulation loops of `getinteger`: the unsigned value of the size bytes at data[pos..]. */
  method ReadUnsigned(data: seq<Byte>, pos: nat, endian: Endian, size: nat) returns (l: nat)
    requires pos + size <= |data|
    ensures l == UnsignedValue(data[pos..pos + size], endian)
    ensures l < Pow256(size)
  {
    ghost var bs := data[pos..pos + size];
    // The shifted bytes occupy disjoint bits, so `l |= byte << 8*i` adds byte * 256^i.
    l := 0;
    if endian == Big {
      for i := 0 to size
        invariant l == LittleValue(Reversed(bs)[..i])
      {
        LittleValueStep(Reversed(bs), i);
        l := l + data[pos + size - i - 1] * Pow256(i);
      }
      assert Reversed(bs)[..size] == Reversed(bs);
    } else {
      for i := 0 to size
        invariant l == LittleValue(bs[..i])
      {
        LittleValueStep(bs, i);
        l := l + data[pos + i] * Pow256(i);
      }
      assert bs[..size] == bs;
    }
    LittleValueBound(if endian == Little then bs else Reversed(bs));
  }

  /** `getinteger`: the size bytes at data[pos..] read in the given order, sign-extended if signed. */
  method GetInteger(data: seq<Byte>, pos: nat, endian: Endian, signed: bool, size: nat) returns (r: int)
    requires pos + size <= |data|
    requires signed ==> size >= 1
    ensures r == IntegerValue(data[pos..pos + size], endian, signed)
    ensures !signed ==> 0 <= r < Pow256(size)
    ensures signed ==> -(Pow256(size) / 2) <= r < Pow256(size) / 2
  {
    var l := ReadUnsigned(data, pos, endian, size);
    if !signed {
      return l;
    }
    // l & (~0 << (8*size - 1)) is nonzero exactly when the top bit of the field is set; or-ing
    // that mask in and reading the result as a signed long subtracts 256^size.
    SignExtendRange(l, size);
    if l >= Pow256(size) / 2 {
      return l - Pow256(size);
    }
    return l;
  }
}
