/** The power-of-two bit tricks of the codec (`isp2` and the mask in `gettoalign`), on unbounded naturals. */
module Bits {

  function Pow2(k: nat): (r: nat)
    ensures r >= 1
  {
    if k == 0 then 1 else 2 * Pow2(k - 1)
  }

  /** Bitwise AND of two naturals, computed bit by bit from the least significant end. */
  function BitAnd(a: nat, b: nat): nat
    decreases a
  {
    if a == 0 || b == 0 then 0
    else 2 * BitAnd(a / 2, b / 2) + (if a % 2 == 1 && b % 2 == 1 then 1 else 0)
  }

  /** The `isp2` macro: x > 0 and x & (x - 1) == 0. */
  predicate IsP2(x: int)
  {
    x > 0 && BitAnd(x, x - 1) == 0
  }

  /** Reference meaning of "power of two". */
  ghost predicate IsPowerOfTwo(x: int)
  {
    exists k: nat :: Pow2(k) == x
  }

  lemma MulMonotone(a: int, b: int, c: int)
    requires 0 <= a <= b && c >= 0
    ensures a * c <= b * c
  {
    assert b * c - a * c == (b - a) * c;
  }

  /** A nonzero multiple of d is at least d away from zero. */
  lemma MulAwayFromZero(d: int, k: int)
    requires d > 0
    ensures k >= 1 ==> d * k >= d
    ensures k <= -1 ==> d * k <= -d
  {
    if k >= 1 {
      assert d * k == d + d * (k - 1);
    } else if k <= -1 {
      assert d * k == -d - d * (-k - 1);
    }
  }

  /** Euclidean division is determined by its quotient and remainder. */
  lemma DivModUnique(u: int, d: int, q: int, m: int)
    requires d > 0 && 0 <= m < d && u == d * q + m
    ensures u / d == q && u % d == m
  {
    var q0, m0 := u / d, u % d;
    assert u == d * q0 + m0;
    var k := q - q0;
    assert d * q == d * q0 + d * k;
    assert d * k == m0 - m;
    MulAwayFromZero(d, k);
  }

  lemma MulAssoc(a: int, b: int, c: int)
    ensures a * (b * c) == (a * b) * c
  {
  }

  lemma MulDistrib(a: int, x: int, y: int)
    ensures a * (x + y) == a * x + a * y
  {
  }

  /** Splitting a division by a product into two divisions. */
  lemma ModMul(u: int, a: int, b: int)
    requires a > 0 && b > 0
    ensures u % (a * b) == u % a + a * ((u / a) % b)
    ensures u / (a * b) == (u / a) / b
  {
    var q1, r1 := u / a, u % a;
    var q2, r2 := q1 / b, q1 % b;
    assert u == a * q1 + r1;
    assert q1 == b * q2 + r2;
    MulDistrib(a, b * q2, r2);
    MulAssoc(a, b, q2);
    assert u == (a * b) * q2 + (a * r2 + r1);
    MulMonotone(r2, b - 1, a);
    MulDistrib(a, b, -1);
    assert r2 * a == a * r2 && (b - 1) * a == a * (b - 1);
    assert 0 <= a * r2 + r1 < a * b;
    DivModUnique(u, a * b, q2, a * r2 + r1);
  }

  /** Masking with an odd number 2h - 1 keeps the low bit and masks the rest with h - 1. */
  lemma MaskStep(x: nat, h: nat)
    requires x > 0 && h >= 1
    ensures BitAnd(x, 2 * h - 1) == 2 * BitAnd(x / 2, h - 1) + x % 2
  {
    DivModUnique(2 * h - 1, 2, h - 1, 1);
  }

  /** Masking with 2^k - 1 keeps the remainder modulo 2^k: `len & (size - 1)` is `len % size`. */
  lemma {:induction false} MaskIsMod(x: nat, k: nat)
    ensures BitAnd(x, Pow2(k) - 1) == x % Pow2(k)
  {
    var p := Pow2(k);
    if k == 0 {
      assert p == 1;
      DivModUnique(x, 1, x, 0);
    } else if x == 0 {
      DivModUnique(0, p, 0, 0);
    } else {
      var h := Pow2(k - 1);
      assert p == 2 * h;
      MaskStep(x, h);
      MaskIsMod(x / 2, k - 1);
      ModMul(x, 2, h);
    }
  }

  lemma {:induction false} BitAndSelf(a: nat)
    ensures BitAnd(a, a) == a
  {
    if a > 0 {
      BitAndSelf(a / 2);
    }
  }

  lemma {:induction false} PowerOfTwoFromMask(x: nat)
    requires x > 0
    ensures BitAnd(x, x - 1) == 0 ==> IsPowerOfTwo(x)
  {
    if x == 1 {
      assert Pow2(0) == x;
    } else if x % 2 == 1 {
      BitAndSelf(x / 2);
      assert (x - 1) / 2 == x / 2;
      assert BitAnd(x, x - 1) == 2 * (x / 2);
    } else {
      assert (x - 1) / 2 == x / 2 - 1;
      assert BitAnd(x, x - 1) == 2 * BitAnd(x / 2, x / 2 - 1);
      PowerOfTwoFromMask(x / 2);
      if BitAnd(x, x - 1) == 0 {
        var k: nat :| Pow2(k) == x / 2;
        assert Pow2(k + 1) == x;
      }
    }
  }

  /** `isp2` accepts exactly the powers of two. */
  lemma IsP2Correct(x: int)
    ensures IsP2(x) <==> IsPowerOfTwo(x)
  {
    if x > 0 {
      PowerOfTwoFromMask(x);
    }
    if IsPowerOfTwo(x) {
      var k: nat :| Pow2(k) == x;
      MaskIsMod(x, k);
      DivModUnique(x, x, 1, 0);
    }
  }

  /** The exponent of a value accepted by `isp2`. */
  lemma Log2(x: int) returns (k: nat)
    requires IsP2(x)
    ensures Pow2(k) == x
  {
    IsP2Correct(x);
    k :| Pow2(k) == x;
  }

  /** The smaller of two powers of two is one. */
  lemma MinIsP2(a: int, b: int)
    requires IsP2(a) && IsP2(b)
    ensures IsP2(if a > b then b else a)
  {
  }
}
