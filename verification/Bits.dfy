/** Bitwise AND on non-negative integers, and the facts the rest of the project
    needs about it: AND works on separate bit fields independently, AND with a
    run of low ones is a remainder, AND with a run of high ones clears the rest. */
module Bits {

  function Pow2(n: nat): (p: nat)
    ensures p >= 1
  {
    if n == 0 then 1 else 2 * Pow2(n - 1)
  }

  function BitAnd(x: nat, y: nat): nat
    decreases x
  {
    if x == 0 then 0
    else (if x % 2 == 1 && y % 2 == 1 then 1 else 0) + 2 * BitAnd(x / 2, y / 2)
  }

  /** `x << n`, without an upper bound. */
  function Shl(n: nat, x: nat): (r: nat)
    ensures x == 0 ==> r == 0
  {
    if n == 0 then x else 2 * Shl(n - 1, x)
  }

  lemma {:induction false} ShlIsMul(n: nat, x: nat)
    ensures Shl(n, x) == Pow2(n) * x
  {
    if n != 0 {
      ShlIsMul(n - 1, x);
      assert 2 * (Pow2(n - 1) * x) == (2 * Pow2(n - 1)) * x;
    }
  }

  lemma Pow2Values()
    ensures Pow2(8) == 256 && Pow2(16) == 0x1_0000 && Pow2(32) == 0x1_0000_0000
  {
    assert Pow2(4) == 16;
    assert Pow2(8) == 256;
    assert Pow2(12) == 4096;
    assert Pow2(16) == 0x1_0000;
    assert Pow2(20) == 0x10_0000;
    assert Pow2(24) == 0x100_0000;
    assert Pow2(28) == 0x1000_0000;
  }

  lemma {:induction false} AndZero(x: nat)
    ensures BitAnd(x, 0) == 0
  {
    if x != 0 { AndZero(x / 2); }
  }

  /** AND does not mix the low k bits with the bits above them. */
  lemma {:induction false} AndFields(k: nat, xl: nat, xh: nat, yl: nat, yh: nat)
    requires xl < Pow2(k) && yl < Pow2(k)
    ensures BitAnd(xl + Shl(k, xh), yl + Shl(k, yh)) == BitAnd(xl, yl) + Shl(k, BitAnd(xh, yh))
  {
    hide BitAnd;
    if k == 0 {
      AndNothing(yl);
    } else {
      AndFields(k - 1, xl / 2, xh, yl / 2, yh);
      AndLowBit(xl, yl, Shl(k - 1, xh), Shl(k - 1, yh));
    }
  }

  lemma AndNothing(y: nat)
    ensures BitAnd(0, y) == 0
  {
  }

  lemma AndLowBit(xl: nat, yl: nat, px: nat, py: nat)
    ensures BitAnd(xl + 2 * px, yl + 2 * py) - BitAnd(xl, yl) == 2 * (BitAnd(xl / 2 + px, yl / 2 + py) - BitAnd(xl / 2, yl / 2))
  {
    var x, y := xl + 2 * px, yl + 2 * py;
    assert x / 2 == xl / 2 + px && y / 2 == yl / 2 + py;
    assert x % 2 == xl % 2 && y % 2 == yl % 2;
    if xl == 0 {
      assert BitAnd(xl, yl) == BitAnd(xl / 2, yl / 2) == 0;
      if x == 0 { assert BitAnd(x, y) == 0 && BitAnd(x / 2, y / 2) == 0; }
    }
  }

  lemma {:induction false} AndOnes(n: nat, x: nat)
    requires x < Pow2(n)
    ensures BitAnd(x, Pow2(n) - 1) == x
  {
    if n != 0 {
      AndOnes(n - 1, x / 2);
      assert (Pow2(n) - 1) / 2 == Pow2(n - 1) - 1;
    }
  }

  lemma MulGap(d: nat, a: nat, b: nat)
    ensures a < b ==> d * a + d <= d * b
  {
    if a < b {
      var k: nat := b - a - 1;
      assert d * (a + 1 + k) == d * a + d + d * k;
    }
  }

  lemma DivModUnique(x: nat, d: nat, q: nat, r: nat)
    requires d > 0 && r < d && x == d * q + r
    ensures x / d == q && x % d == r
  {
    var q', r' := x / d, x % d;
    MulGap(d, q', q);
    MulGap(d, q, q');
  }

  lemma Halving(x: nat, p: nat)
    requires p > 0
    ensures x / (2 * p) == (x / 2) / p
    ensures x % (2 * p) == 2 * ((x / 2) % p) + x % 2
  {
    var q, r := (x / 2) / p, (x / 2) % p;
    assert (2 * p) * q == 2 * (p * q);
    DivModUnique(x, 2 * p, q, 2 * r + x % 2);
  }

  /** `x & (2^n - 1)` is `x mod 2^n`. */
  lemma {:induction false} AndLowMask(n: nat, x: nat)
    ensures BitAnd(x, Pow2(n) - 1) == x % Pow2(n)
  {
    if n == 0 {
      AndZero(x);
    } else {
      AndLowMask(n - 1, x / 2);
      Halving(x, Pow2(n - 1));
      assert (Pow2(n) - 1) / 2 == Pow2(n - 1) - 1;
    }
  }

  lemma {:induction false} Pow2Monotone(j: nat, n: nat)
    requires j <= n
    ensures Pow2(j) <= Pow2(n)
  {
    if j < n { Pow2Monotone(j, n - 1); }
  }

  /** `x >> j`. */
  function Shr(j: nat, x: nat): nat { if j == 0 then x else Shr(j - 1, x / 2) }

  lemma {:induction false} ShrIsDiv(j: nat, x: nat)
    ensures Shr(j, x) == x / Pow2(j)
  {
    if j != 0 {
      ShrIsDiv(j - 1, x / 2);
      Halving(x, Pow2(j - 1));
    }
  }

  /** AND with the top `n - j` of `n` bits clears the low `j` bits and keeps the rest. */
  lemma {:induction false} AndHighMask(n: nat, j: nat, x: nat)
    requires j <= n && x < Pow2(n)
    ensures Pow2(j) <= Pow2(n)
    ensures BitAnd(x, Pow2(n) - Pow2(j)) == Shl(j, Shr(j, x))
  {
    hide BitAnd; hide Shl;
    Pow2Monotone(j, n);
    if j == 0 {
      AndOnes(n, x);
      assert Shl(0, x) == x by { ShlZero(x); }
    } else {
      AndHighMask(n - 1, j - 1, x / 2);
      AndDoubled(x, Pow2(n - 1) - Pow2(j - 1), j, Shr(j, x));
    }
  }

  lemma ShlZero(x: nat)
    ensures Shl(0, x) == x
  {
  }

  lemma AndDoubled(x: nat, y: nat, j: nat, h: nat)
    requires j > 0 && BitAnd(x / 2, y) == Shl(j - 1, h)
    ensures BitAnd(x, 2 * y) == Shl(j, h)
  {
    hide BitAnd;
    AndEven(x, y);
  }

  lemma AndEven(x: nat, y: nat)
    ensures BitAnd(x, 2 * y) == 2 * BitAnd(x / 2, y)
  {
    var d := 2 * y;
    assert d % 2 == 0 && d / 2 == y;
    if x != 0 {
      assert BitAnd(x, d) == 0 + 2 * BitAnd(x / 2, d / 2);
    }
  }

  lemma {:induction false} ShlInjective(n: nat, x: nat, y: nat)
    ensures Shl(n, x) == Shl(n, y) <==> x == y
  {
    if n != 0 { ShlInjective(n - 1, x, y); }
  }
}
