/** JavaScript's 32-bit integers, powers of two, and the bitwise "and" of natural numbers. */
module Bits {

  // ---------------------------------------------------------------------------
  // JavaScript 32-bit operators
  // ---------------------------------------------------------------------------

  const TWO_TO_32 := 0x1_0000_0000

  function ToUint32(x: int): nat {
    x % TWO_TO_32
  }

  function ToInt32(x: int): int {
    var u := ToUint32(x);
    if u >= 0x8000_0000 then u - TWO_TO_32 else u
  }

  function Pow2(n: nat): (p: nat)
    ensures p > 0
  {
    if n == 0 then 1 else 2 * Pow2(n - 1)
  }

  lemma {:induction false} DivTwice(n: nat, a: nat, b: nat)
    ensures n / Pow2(a + b) == n / Pow2(a) / Pow2(b)
  {
    PowAdds(a, b);
    DivDiv(n, Pow2(a), Pow2(b));
  }

  lemma {:induction false} PowAdds(a: nat, b: nat)
    ensures Pow2(a + b) == Pow2(a) * Pow2(b)
  {
    if a > 0 {
      PowAdds(a - 1, b);
    }
  }

  lemma DivDiv(n: nat, x: nat, y: nat)
    requires x > 0 && y > 0
    ensures x * y > 0 && n / (x * y) == n / x / y
  {
    var q := n / x;
    Product(x, y);
    NestedRemainder(n, x, y, q, n % x, q / y, q % y);
    QuotientUnique(n, x * y, q / y, x * (q % y) + n % x);
  }

  lemma NestedRemainder(n: nat, x: nat, y: nat, q: nat, t: nat, p: nat, r: nat)
    requires n == x * q + t && t < x
    requires q == y * p + r && r < y
    ensures n == (x * y) * p + (x * r + t) && x * r + t < x * y
  {
    Distribute(x, y, p, r);
    MulMono(x, r + 1, y);
    Successor(x, r);
  }

  lemma Successor(x: nat, r: nat)
    ensures x * (r + 1) == x * r + x
  {
  }

  lemma Product(x: nat, y: nat)
    requires x > 0 && y > 0
    ensures x * y > 0
  {
  }

  lemma Distribute(x: nat, y: nat, p: nat, r: nat)
    ensures x * (y * p + r) == (x * y) * p + x * r
  {
  }

  lemma MulMono(d: nat, a: nat, b: nat)
    requires a <= b
    ensures d * a <= d * b
  {
  }

  lemma QuotientUnique(n: nat, d: nat, q: nat, r: nat)
    requires n == d * q + r && r < d
    ensures n / d == q
  {
    var q' := n / d;
    assert d * q' <= n < d * q' + d;
    Distribute(d, 1, q, 1);
    Distribute(d, 1, q', 1);
    if q < q' {
      MulMono(d, q + 1, q');
    } else if q' < q {
      MulMono(d, q' + 1, q);
    }
  }

  lemma AddMultiple(r: nat, d: nat, m: nat)
    requires d > 0
    ensures (d * m + r) / d == m + r / d
  {
    Distribute(d, 1, m, r / d);
    QuotientUnique(d * m + r, d, m + r / d, r % d);
  }

  lemma Associate(x: nat, y: nat, z: nat)
    ensures (x * y) * z == x * (y * z)
  {
  }

  /** The 32-bit `x << k`, read as an unsigned number. */
  function ShiftLeft32(x: nat, k: nat): nat {
    ToUint32(x * Pow2(k))
  }

  function And(x: nat, y: nat): nat {
    if x == 0 || y == 0 then 0 else (x % 2) * (y % 2) + 2 * And(x / 2, y / 2)
  }

  lemma {:induction false} AndOnes(n: nat, w: nat)
    requires n < Pow2(w)
    ensures And(n, Pow2(w) - 1) == n
  {
    if n > 0 {
      AndOnes(n / 2, w - 1);
    }
  }

  /** Masking away the low `k` bits of a `w`-bit number. */
  lemma {:induction false} AndMask(n: nat, w: nat, k: nat)
    requires k <= w && n < Pow2(w)
    ensures Pow2(k) <= Pow2(w) && And(n, Pow2(w) - Pow2(k)) == n / Pow2(k) * Pow2(k)
  {
    if k == 0 {
      AndOnes(n, w);
    } else {
      AndMask(n / 2, w - 1, k - 1);
      HalveQuotient(n, Pow2(k - 1));
    }
  }

  lemma HalveQuotient(n: nat, p: nat)
    requires p > 0
    ensures n / (2 * p) * (2 * p) == 2 * (n / 2 / p * p)
  {
    DivDiv(n, 2, p);
  }

  lemma {:induction false} PowMono(a: nat, b: nat)
    requires a <= b
    ensures Pow2(a) <= Pow2(b)
  {
    if a < b {
      PowMono(a, b - 1);
    }
  }

  lemma SmallPowers()
    ensures Pow2(0) == 1 && Pow2(1) == 2 && Pow2(4) == 16 && Pow2(6) == 64 && Pow2(8) == 256 && Pow2(16) == 0x1_0000
  {
    PowAdds(2, 4);
    PowAdds(4, 4);
    PowAdds(8, 8);
  }

  lemma WordSize()
    ensures Pow2(32) == TWO_TO_32
  {
    SmallPowers();
    PowAdds(16, 16);
  }

  /** Masking away the low bits of a byte. */
  lemma AndByte(n: nat, k: nat, p: nat)
    requires n < 256 && k <= 8 && p == Pow2(k)
    ensures p <= 256 && And(n, 256 - p) == n / p * p
  {
    SmallPowers();
    AndMask(n, 8, k);
  }
}
