/** Quotients and remainders by a variable divisor. */
module Arithmetic {

  const TWO_32: nat := 0x1_0000_0000

  function Pow2(n: nat): (r: nat)
    ensures r > 0
  {
    if n == 0 then 1 else 2 * Pow2(n - 1)
  }

  lemma {:induction false} Pow2Add(a: nat, b: nat)
    ensures Pow2(a + b) == Pow2(a) * Pow2(b)
  {
    if a > 0 {
      Pow2Add(a - 1, b);
      Regroup(Pow2(a - 1), 2, Pow2(b));
      assert Pow2(a + b) == 2 * (Pow2(a - 1) * Pow2(b)) == (2 * Pow2(a - 1)) * Pow2(b);
    } else {
      assert Pow2(0) == 1;
    }
  }

  lemma MulBound(d: int, n: int)
    requires n >= 0
    ensures d >= 1 ==> d * n >= n
    ensures d <= -1 ==> d * n <= -n
  {
  }

  lemma Distribute(a: int, b: int, n: int)
    ensures (a + b) * n == a * n + b * n
  {
  }

  lemma Regroup(a: int, b: int, c: int)
    ensures (a * b) * c == a * (c * b)
  {
  }

  lemma DivModUnique(a: nat, n: nat, q: nat, r: nat)
    requires n > 0 && a == q * n + r && r < n
    ensures a / n == q && a % n == r
  {
    var q' := a / n;
    assert a == q' * n + a % n;
    Distribute(q, -q', n);
    MulBound(q - q', n);
  }

  lemma Split(a: nat, n: nat) returns (q: nat, r: nat)
    requires n > 0
    ensures a == q * n + r && r < n && q == a / n && r == a % n
  {
    q, r := a / n, a % n;
  }

  lemma SuccMod(k: nat, n: nat)
    requires n > 0
    ensures (k + 1) % n == if k % n == n - 1 then 0 else k % n + 1
  {
    var q, r := Split(k, n);
    if r == n - 1 {
      Distribute(q, 1, n);
      DivModUnique(k + 1, n, q + 1, 0);
    } else {
      DivModUnique(k + 1, n, q, r + 1);
    }
  }

  /** Taking the lowest digit off a remainder. */
  lemma LowestDigit(x: nat, base: nat, p: nat)
    requires base > 0 && p > 0
    ensures base * p > 0 && x % (base * p) / base == x / base % p && x % (base * p) % base == x % base
  {
    MulBound(base, p);
    var d, c := Split(x, base);
    var t, u := Split(d, p);
    DigitsBelow(u, base, p, c);
    TwoSplits(x, base, p, d, c, t, u);
    DivModUnique(x, base * p, t, u * base + c);
    DivModUnique(u * base + c, base, u, c);
  }

  /** A remainder of a remainder: two digits below two bases stay below their product. */
  lemma DigitsBelow(u: nat, a: nat, b: nat, r: nat)
    requires u < b && r < a
    ensures u * a + r < a * b
  {
    var p, q, s := u * a, b * a, (b - u) * a;
    Distribute(u, b - u, a);
    MulBound(b - u, a);
    assert q == p + s && s >= a;
    assert a * b == q;
  }

  lemma DivDiv(v: nat, a: nat, b: nat)
    requires a > 0 && b > 0
    ensures a * b > 0 && (v / a) / b == v / (a * b)
  {
    MulBound(a, b);
    var q, r := Split(v, a);
    var t, u := Split(q, b);
    DigitsBelow(u, a, b, r);
    TwoSplits(v, a, b, q, r, t, u);
    DivModUnique(v, a * b, t, u * a + r);
  }

  lemma TwoSplits(v: nat, a: nat, b: nat, q: nat, r: nat, t: nat, u: nat)
    requires v == q * a + r && q == t * b + u
    ensures v == t * (a * b) + (u * a + r)
  {
    Distribute(t * b, u, a);
    Regroup(t, b, a);
  }
}
