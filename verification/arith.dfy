/** Products, quotients and remainders, one small fact at a time. */
module Arith {

  lemma MulAtLeast(k: int, d: int)
    requires k >= 1 && d >= 0
    ensures k * d >= d
  {
  }

  lemma Distribute(a: int, b: int, d: int)
    ensures (a - b) * d == a * d - b * d
    ensures (a + b) * d == a * d + b * d
  {
  }

  lemma Associate(a: int, b: int, c: int)
    ensures (a * b) * c == a * (b * c)
  {
  }

  lemma Commute(a: int, b: int)
    ensures a * b == b * a
  {
  }

  lemma Positive(a: nat, b: nat)
    requires a > 0 && b > 0
    ensures a * b > 0
  {
  }

  lemma DivIdentity(a: nat, d: nat)
    requires d > 0
    ensures a == (a / d) * d + a % d && 0 <= a % d < d && 0 <= a / d
  {
  }

  lemma OnlyZero(k: int, d: int)
    requires d > 0 && -d < k * d < d
    ensures k == 0
  {
    if k >= 1 {
      MulAtLeast(k, d);
    } else if k <= -1 {
      MulAtLeast(-k, d);
    }
  }

  lemma ModUnique(a: nat, d: nat, q: nat, r: nat)
    requires r < d && a == q * d + r
    ensures a / d == q && a % d == r
  {
    DivIdentity(a, d);
    Distribute(q, a / d, d);
    OnlyZero(q - a / d, d);
  }

  lemma DigitBelow(hi: nat, p: nat, lo: nat, q: nat)
    requires hi < p && lo < q
    ensures hi * q + lo < p * q
  {
    MulAtLeast(p - hi, q);
    Distribute(p, hi, q);
  }

  /** The low digits of a: one group of digits, then the rest. */
  lemma ModSplit(a: nat, p: nat, q: nat)
    requires p > 0 && q > 0
    ensures p * q > 0 && a % (p * q) == ((a / q) % p) * q + a % q
  {
    var b, r := a / q, a % q;
    var hi, lo := b / p, b % p;
    DivIdentity(a, q);
    DivIdentity(b, p);
    Distribute(hi * p, lo, q);
    Associate(hi, p, q);
    DigitBelow(lo, p, r, q);
    Positive(p, q);
    ModUnique(a, p * q, hi, lo * q + r);
  }

  /** Shifting a value in keeps the digits below it. */
  lemma ModShift(a: nat, p: nat, f: nat, v: nat)
    requires p > 0 && v < f
    ensures p * f > 0 && (a * f + v) % (p * f) == (a % p) * f + v
  {
    var hi, lo := a / p, a % p;
    DivIdentity(a, p);
    Distribute(hi * p, lo, f);
    Associate(hi, p, f);
    DigitBelow(lo, p, v, f);
    Positive(p, f);
    ModUnique(a * f + v, p * f, hi, lo * f + v);
  }

  /** Wrapping at a multiple of m keeps the remainder by m. */
  lemma ModWrap(x: nat, m: nat, k: nat)
    requires m > 0 && k > 0
    ensures m * k > 0 && (x % (m * k)) % m == x % m
  {
    Positive(m, k);
    var w := m * k;
    var q, r := x / w, x % w;
    var q', r' := r / m, r % m;
    DivIdentity(x, w);
    DivIdentity(r, m);
    Commute(m, k);
    Associate(q, k, m);
    Distribute(q * k, q', m);
    ModUnique(x, m, q * k + q', r');
  }

  lemma CancelProduct(a: nat, b: nat, d: nat)
    requires d > 0 && a * d == b * d
    ensures a == b
  {
    Distribute(a, b, d);
    OnlyZero(a - b, d);
  }

  function Pow2(n: nat): nat { if n == 0 then 1 else 2 * Pow2(n - 1) }

  lemma {:induction false} Pow2Adds(m: nat, n: nat)
    ensures Pow2(m + n) == Pow2(m) * Pow2(n)
  {
    if m > 0 {
      Pow2Adds(m - 1, n);
      Associate(2, Pow2(m - 1), Pow2(n));
    }
  }

  lemma {:induction false} Pow2Positive(m: nat)
    ensures Pow2(m) > 0
  {
    if m > 0 {
      Pow2Positive(m - 1);
    }
  }

  lemma Pow2Values()
    ensures Pow2(5) == 32 && Pow2(8) == 256 && Pow2(32) == 0x1_0000_0000
  {
    assert Pow2(2) == 4 && Pow2(4) == 16;
    assert Pow2(6) == 64 && Pow2(8) == 256;
    Pow2Adds(8, 8);
    Pow2Adds(16, 16);
  }

  // Products and remainders under names of their own, so that a proof can hide them.

  function Times(a: nat, b: nat): nat { a * b }

  /** The low n bits. */
  function Low(a: nat, n: nat): nat
  {
    Pow2Positive(n);
    a % Pow2(n)
  }

  lemma TimesLaws(a: nat, b: nat, c: nat)
    ensures Times(Times(a, b), c) == Times(a, Times(b, c))
    ensures Times(a + b, c) == Times(a, c) + Times(b, c)
    ensures Times(1, c) == c == Times(c, 1) && Times(0, c) == 0
  {
    Associate(a, b, c);
    Distribute(a, b, c);
  }

  lemma Pow2Times(m: nat, n: nat)
    ensures Pow2(m + n) == Times(Pow2(m), Pow2(n)) > 0
  {
    Pow2Adds(m, n);
    Pow2Positive(m + n);
  }
}
