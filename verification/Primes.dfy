/** The first 64 primes, from which SHA-256 takes its constants. */
module Primes {
  import opened Arithmetic

  predicate Divides(d: nat, n: nat)
    requires d > 0
  {
    n % d == 0
  }

  ghost predicate IsPrime(n: nat) {
    n >= 2 && forall d :: 2 <= d < n ==> !Divides(d, n)
  }

  function Prime(t: nat): nat
    requires t < 64
  {
    match t
    case 0 => 2 case 1 => 3 case 2 => 5 case 3 => 7 case 4 => 11 case 5 => 13 case 6 => 17
    case 7 => 19 case 8 => 23 case 9 => 29 case 10 => 31 case 11 => 37 case 12 => 41 case 13 => 43
    case 14 => 47 case 15 => 53 case 16 => 59 case 17 => 61 case 18 => 67 case 19 => 71 case 20 => 73
    case 21 => 79 case 22 => 83 case 23 => 89 case 24 => 97 case 25 => 101 case 26 => 103 case 27 => 107
    case 28 => 109 case 29 => 113 case 30 => 127 case 31 => 131 case 32 => 137 case 33 => 139 case 34 => 149
    case 35 => 151 case 36 => 157 case 37 => 163 case 38 => 167 case 39 => 173 case 40 => 179 case 41 => 181
    case 42 => 191 case 43 => 193 case 44 => 197 case 45 => 199 case 46 => 211 case 47 => 223 case 48 => 227
    case 49 => 229 case 50 => 233 case 51 => 239 case 52 => 241 case 53 => 251 case 54 => 257 case 55 => 263
    case 56 => 269 case 57 => 271 case 58 => 277 case 59 => 281 case 60 => 283 case 61 => 293 case 62 => 307
    case _ => 311
  }

  /** Divisible by a prime up to 17. */
  predicate HasSmallFactor(n: nat) {
    n % 2 == 0 || n % 3 == 0 || n % 5 == 0 || n % 7 == 0 || n % 11 == 0 || n % 13 == 0 || n % 17 == 0
  }

  lemma ProductHasSmallFactor(f: nat, e: nat)
    requires 2 <= f <= 17
    ensures HasSmallFactor(f * e)
  {
    var p := if f % 2 == 0 then 2 else if f % 3 == 0 then 3 else f;
    var c := f / p;
    assert f == c * p && p in {2, 3, 5, 7, 11, 13, 17};
    MultipleOf(f * e, p, c, e);
  }

  lemma MultipleOf(n: nat, p: nat, c: nat, e: nat)
    requires p > 0 && n == (c * p) * e
    ensures n % p == 0
  {
    Regroup(c, p, e);
    assert c * (e * p) == (c * e) * p;
    DivModUnique(n, p, c * e, 0);
  }

  /** Below 324 trial division up to 17 decides. */
  lemma TrialDivision(n: nat)
    requires 2 <= n < 324
    ensures n > 17 ==> (IsPrime(n) <==> !HasSmallFactor(n))
  {
    if n > 17 && !HasSmallFactor(n) {
      forall d | 2 <= d < n ensures !Divides(d, n) {
        if Divides(d, n) { NoDivisor(n, d); }
      }
    }
    if n > 17 && HasSmallFactor(n) {
      assert Divides(2, n) || Divides(3, n) || Divides(5, n) || Divides(7, n)
             || Divides(11, n) || Divides(13, n) || Divides(17, n);
    }
  }

  lemma NoDivisor(n: nat, d: nat)
    requires 2 <= d < n < 324 && Divides(d, n)
    ensures HasSmallFactor(n)
  {
    var e, r := Split(n, d);
    if d <= 17 {
      ProductHasSmallFactor(d, e);
      assert d * e == e * d;
    } else {
      Cofactor(n, d, e);
      ProductHasSmallFactor(e, d);
    }
  }

  lemma Cofactor(n: nat, d: nat, e: nat)
    requires n == e * d && 17 < d < n < 324
    ensures 2 <= e <= 17
  {
  }

  lemma TableOfPrimes(t: nat)
    requires t < 64
    ensures Prime(t) < 324 && (Prime(t) <= 17 || !HasSmallFactor(Prime(t)))
    ensures t < 63 ==> Prime(t) < Prime(t + 1)
  {
  }

  /** The composite numbers up to the last prime of the table that 2, 3 and 5 do not divide. */
  predicate Rough(n: nat) {
    || n == 49 || n == 77 || n == 91 || n == 119 || n == 121 || n == 133 || n == 143
    || n == 161 || n == 169 || n == 187 || n == 203 || n == 209 || n == 217 || n == 221
    || n == 247 || n == 253 || n == 259 || n == 287 || n == 289 || n == 299 || n == 301
  }

  lemma GapsBelow22(t: nat, n: nat)
    requires t < 22 && Prime(t) < n < Prime(t + 1)
    ensures n % 2 == 0 || n % 3 == 0 || n % 5 == 0 || Rough(n)
  {
  }

  lemma GapsBelow36(t: nat, n: nat)
    requires 22 <= t < 36 && Prime(t) < n < Prime(t + 1)
    ensures n % 2 == 0 || n % 3 == 0 || n % 5 == 0 || Rough(n)
  {
  }

  lemma GapsBelow50(t: nat, n: nat)
    requires 36 <= t < 50 && Prime(t) < n < Prime(t + 1)
    ensures n % 2 == 0 || n % 3 == 0 || n % 5 == 0 || Rough(n)
  {
  }

  lemma GapsBelow63(t: nat, n: nat)
    requires 50 <= t < 63 && Prime(t) < n < Prime(t + 1)
    ensures n % 2 == 0 || n % 3 == 0 || n % 5 == 0 || Rough(n)
  {
  }

  lemma RoughIsComposite(n: nat)
    requires Rough(n)
    ensures HasSmallFactor(n)
  {
  }

  /** Nothing between two consecutive entries is prime. */
  lemma NoPrimeBetween(t: nat, n: nat)
    requires t < 63 && Prime(t) < n < Prime(t + 1)
    ensures !IsPrime(n)
  {
    if t < 22 {
      GapsBelow22(t, n);
    } else if t < 36 {
      GapsBelow36(t, n);
    } else if t < 50 {
      GapsBelow50(t, n);
    } else {
      GapsBelow63(t, n);
    }
    if Rough(n) { RoughIsComposite(n); }
    TableOfPrimes(t + 1);
    if n > 17 { TrialDivision(n); } else { SmallGap(t, n); }
  }

  lemma SmallGap(t: nat, n: nat)
    requires t < 63 && Prime(t) < n < Prime(t + 1) && n <= 17
    ensures !IsPrime(n)
  {
    assert n in {4, 6, 8, 9, 10, 12, 14, 15, 16};
    assert Divides(2, n) || Divides(3, n);
  }

  lemma SmallEntriesArePrime(n: nat)
    requires n in {2, 3, 5, 7, 11, 13, 17}
    ensures IsPrime(n)
  {
    forall d | 2 <= d < n ensures !Divides(d, n) {
      assert d < 17;
    }
  }

  lemma SmallEntries(t: nat)
    requires t < 64 && Prime(t) <= 17
    ensures Prime(t) in {2, 3, 5, 7, 11, 13, 17}
  {
  }

  lemma EntryIsPrime(t: nat)
    requires t < 64
    ensures IsPrime(Prime(t))
  {
    TableOfPrimes(t);
    if Prime(t) <= 17 {
      SmallEntries(t);
      SmallEntriesArePrime(Prime(t));
    } else {
      TrialDivision(Prime(t));
    }
  }

  lemma NextEntry(t: nat)
    requires t < 63
    ensures Prime(t) < Prime(t + 1)
  {
    TableOfPrimes(t);
  }

  ghost predicate Listed(t: nat, n: nat) {
    exists u :: 0 <= u < t && u < 64 && Prime(u) == n
  }

  lemma ListedUpTo(t: nat, n: nat)
    requires t < 64
    ensures Listed(t + 1, n) <==> Listed(t, n) || n == Prime(t)
  {
    if Listed(t, n) {
      var u :| 0 <= u < t && u < 64 && Prime(u) == n;
      assert 0 <= u < t + 1;
    }
  }

  /** What is listed before entry `t` is smaller. */
  lemma {:induction false} ListedIsSmaller(t: nat, n: nat)
    requires t < 64 && Listed(t, n)
    ensures n < Prime(t)
  {
    ListedUpTo(t - 1, n);
    NextEntry(t - 1);
    if n != Prime(t - 1) { ListedIsSmaller(t - 1, n); }
  }

  lemma PrimesBelowStep(t: nat, n: nat)
    requires t < 63 && (n < Prime(t) ==> (IsPrime(n) <==> Listed(t, n)))
    ensures n < Prime(t + 1) ==> (IsPrime(n) <==> Listed(t + 1, n))
  {
    ListedUpTo(t, n);
    if Listed(t, n) { ListedIsSmaller(t, n); }
    if n == Prime(t) { EntryIsPrime(t); }
    if Prime(t) < n < Prime(t + 1) { NoPrimeBetween(t, n); }
  }

  lemma {:induction false} PrimesBelow(t: nat, n: nat)
    requires t < 64
    ensures n < Prime(t) ==> (IsPrime(n) <==> Listed(t, n))
  {
    if t == 0 {
      assert Prime(0) == 2;
    } else {
      PrimesBelow(t - 1, n);
      PrimesBelowStep(t - 1, n);
    }
  }

  /** `Prime(t)` is prime, and the primes below it are exactly the entries before it. */
  lemma FirstPrimes(t: nat, n: nat)
    requires t < 64
    ensures IsPrime(Prime(t))
    ensures n < Prime(t) ==> (IsPrime(n) <==> exists u :: 0 <= u < t && Prime(u) == n)
  {
    EntryIsPrime(t);
    PrimesBelow(t, n);
  }
}
