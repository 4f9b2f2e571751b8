/** Table sizes: `is_prime` and `next_prime` of gnulib/lib/hash.c, over 64-bit `size_t`. */
module Primes {
  const WORD := 0x1_0000_0000_0000_0000
  const SIZE_MAX := WORD - 1
  const HALF_WORD_MAX := 0xFFFF_FFFF
  // No wider square than this one is representable without wrap-around.
  const LAST_EXACT_SQUARE := 0xFFFF_FFFE_0000_0001
  // The least square root of -7 modulo 2^64.
  const ROOT_OF_MINUS_SEVEN := 1852311383259529397

  ghost predicate Prime(n: int) {
    2 <= n && forall d :: 2 <= d < n ==> !Divides(d, n)
  }

  ghost predicate Divides(d: int, n: int) {
    d != 0 && n % d == 0
  }

  lemma MulMono(a: int, b: int, c: int, d: int)
    requires 0 <= a <= b && 0 <= c <= d
    ensures a * c <= b * d
  {
    calc {
      a * c;
    <= { assert (b - a) * c >= 0; }
      b * c;
    <= { assert b * (d - c) >= 0; }
      b * d;
    }
  }

  lemma MultipleIsDivisible(e: int, q: int)
    requires 0 < q && 0 < e
    ensures Divides(q, q * e)
  {
    var n := q * e;
    var r, k := n % q, n / q;
    assert n == q * k + r;
    assert r == q * (e - k) by { assert q * (e - k) == q * e - q * k; }
    if 1 <= e - k { MulMono(q, q, 1, e - k); }
    assert q * (k - e) == -(q * (e - k));
    if 1 <= k - e { MulMono(q, q, 1, k - e); }
  }

  lemma OddHasNoEvenDivisor(n: int, e: int)
    requires n % 2 == 1 && 0 < e && e % 2 == 0
    ensures !Divides(e, n)
  {
    var half, q := e / 2, n / e;
    assert e * q == 2 * (half * q) by { assert (2 * half) * q == 2 * (half * q); }
    assert Divides(e, n) ==> n == e * q;
  }

  lemma NoSmallDivisorMeansPrime(n: int, d: int)
    requires 2 <= d && 2 <= n <= d * d
    requires forall e :: 2 <= e <= d ==> !Divides(e, n)
    ensures Prime(n)
  {
    forall e | 2 <= e < n ensures !Divides(e, n) {
      if d < e && Divides(e, n) {
        Cofactor(n, d, e);
      }
    }
  }

  lemma Cofactor(n: int, d: int, e: int)
    requires 2 <= d < e < n <= d * d && Divides(e, n)
    ensures 2 <= n / e <= d && Divides(n / e, n)
  {
    var q := n / e;
    assert n == e * q;
    if d < q { MulMono(d, e, d, q); MulStrict(d, e, q); }
    MultipleIsDivisible(e, q);
    assert q * e == n;
  }

  lemma MulStrict(d: int, e: int, q: int)
    requires 0 < d < e && d < q
    ensures d * d < e * q
  {
    MulMono(d, e - 1, d, q);
    assert (e - 1) * q == e * q - q;
  }

  // The only odd candidates above 2^64 - 7 are composite.
  lemma TopOddNumbersAreComposite(n: int)
    requires WORD - 7 < n < WORD && n % 2 == 1
    ensures !Prime(n)
  {
    assert n == WORD - 5 || n == WORD - 3 || n == WORD - 1;
    assert Divides(3, WORD - 1) && Divides(13, WORD - 3) && Divides(11, WORD - 5);
  }

  /** The divisor of the `k`-th trial of `is_prime`, and `square` as `size_t` holds it then. */
  function Trial(k: nat): int { 2 * k + 3 }

  function WrappedSquare(k: nat): (square: int)
  {
    if k == 0 then 9 else (WrappedSquare(k - 1) + 4 * (Trial(k) - 1)) % WORD
  }

  lemma {:induction false} WrappedSquareIsSquare(k: nat)
    ensures WrappedSquare(k) == Trial(k) * Trial(k) % WORD
  {
    if k != 0 {
      WrappedSquareIsSquare(k - 1);
      var d := Trial(k);
      assert (d - 2) * (d - 2) + 4 * (d - 1) == d * d;
      WordSum((d - 2) * (d - 2), 4 * (d - 1));
    }
  }

  lemma WordSum(x: int, y: int)
    ensures (x % WORD + y) % WORD == (x + y) % WORD
  {
  }

  lemma ExactSquareReaches(candidate: int, k: nat)
    requires 11 <= candidate <= HALF_WORD_MAX && Trial(k) == candidate - 2
    ensures candidate <= WrappedSquare(k)
  {
    var e := Trial(k);
    WrappedSquareIsSquare(k);
    MulMono(e, HALF_WORD_MAX, e, HALF_WORD_MAX);
    MulMono(3, e, e, e);
  }

  lemma KnownSquareReaches(candidate: int, k: nat, root: int, square: int)
    requires Trial(k) == root && root * root % WORD == square && candidate <= square
    ensures candidate <= WrappedSquare(k)
  {
    WrappedSquareIsSquare(k);
  }

  // A trial below the candidate at which the scan stops: the wrapped squares reach the
  // candidate before the divisor does.
  lemma ScanStops(candidate: int) returns (k: nat)
    requires 11 <= candidate <= WORD - 7 && candidate % 2 == 1
    ensures Trial(k) < candidate <= WrappedSquare(k)
  {
    if candidate <= HALF_WORD_MAX {
      k := (candidate - 5) / 2;
      ExactSquareReaches(candidate, k);
    } else if candidate <= LAST_EXACT_SQUARE {
      k :| k == (HALF_WORD_MAX - 3) / 2;
      KnownSquareReaches(candidate, k, HALF_WORD_MAX, LAST_EXACT_SQUARE);
    } else {
      k :| k == (ROOT_OF_MINUS_SEVEN - 3) / 2;
      KnownSquareReaches(candidate, k, ROOT_OF_MINUS_SEVEN, WORD - 7);
    }
  }

  lemma Verdict(candidate: int, k: nat)
    requires 11 <= candidate <= SIZE_MAX && candidate % 2 == 1
    requires Trial(k) <= candidate
    requires forall e :: 2 <= e < Trial(k) ==> !Divides(e, candidate)
    requires forall j :: 0 <= j < k ==> WrappedSquare(j) < candidate
    requires candidate <= WrappedSquare(k) || Divides(Trial(k), candidate)
    ensures Divides(Trial(k), candidate) <==> !Prime(candidate)
  {
    var divisor := Trial(k);
    if !Divides(divisor, candidate) {
      WrappedSquareIsSquare(k);
      MulMono(0, divisor, 0, divisor);
      NoSmallDivisorMeansPrime(candidate, divisor);
    } else if WORD - 7 < candidate {
      TopOddNumbersAreComposite(candidate);
    } else {
      var j := ScanStops(candidate);
    }
  }

  lemma NextTrial(candidate: int, k: nat)
    requires candidate % 2 == 1 && Trial(k) <= candidate
    requires !Divides(Trial(k), candidate)
    ensures Trial(k + 1) <= candidate && !Divides(Trial(k) + 1, candidate)
    ensures WrappedSquare(k + 1) == (WrappedSquare(k) + 4 * (Trial(k) + 1)) % WORD
  {
    OddHasNoEvenDivisor(candidate, Trial(k) + 1);
  }

  /**
   * `square` is kept modulo 2^64, exactly as `size_t` keeps it.  Although it wraps for
   * candidates above LAST_EXACT_SQUARE, the answer is right for every odd candidate.
   */
  method IsPrime(candidate: int) returns (prime: bool)
    requires 11 <= candidate <= SIZE_MAX && candidate % 2 == 1
    ensures prime <==> Prime(candidate)
  {
    var divisor := 3;
    var square := divisor * divisor;
    ghost var k := 0;

    while square < candidate && candidate % divisor != 0
      invariant divisor == Trial(k) <= candidate
      invariant square == WrappedSquare(k)
      invariant forall e :: 2 <= e < divisor ==> !Divides(e, candidate)
      invariant forall j :: 0 <= j < k ==> WrappedSquare(j) < candidate
      decreases candidate - divisor
    {
      NextTrial(candidate, k);
      divisor := divisor + 1;
      square := (square + 4 * divisor) % WORD;
      divisor := divisor + 1;
      k := k + 1;
    }

    Verdict(candidate, k);
    prime := candidate % divisor != 0;
  }

  /** The search `next_prime` performs from an odd number. */
  ghost function NextPrimeFrom(odd: int): (p: int)
    requires 11 <= odd <= SIZE_MAX && odd % 2 == 1
    ensures odd <= p <= SIZE_MAX && p % 2 == 1
    ensures p == SIZE_MAX || Prime(p)
    ensures forall q :: odd <= q < p ==> !Prime(q)
    decreases SIZE_MAX - odd
  {
    if odd == SIZE_MAX || Prime(odd) then odd
    else
      EvenIsComposite(odd + 1);
      NextPrimeFrom(odd + 2)
  }

  lemma EvenIsComposite(n: int)
    requires 2 < n && n % 2 == 0
    ensures !Prime(n)
  {
    assert Divides(2, n);
  }

  /** Skip small primes, then `candidate |= 1`. */
  function SmallestOddFrom(candidate: int): (odd: int)
    requires 0 <= candidate <= SIZE_MAX
    ensures 11 <= odd <= SIZE_MAX && odd % 2 == 1
    ensures candidate <= odd && forall k :: 10 <= k && candidate <= k < odd ==> k % 2 == 0
  {
    var c := if candidate < 10 then 10 else candidate;
    if c % 2 == 0 then c + 1 else c
  }

  ghost function NextPrime(candidate: int): (p: int)
    requires 0 <= candidate <= SIZE_MAX
  {
    NextPrimeFrom(SmallestOddFrom(candidate))
  }

  /** `next_prime` rounds up to the nearest prime, skipping those below 10, or gives SIZE_MAX. */
  lemma NextPrimeIsNearest(candidate: int)
    requires 0 <= candidate <= SIZE_MAX
    ensures var p := NextPrime(candidate);
            && 11 <= p <= SIZE_MAX && candidate <= p
            && (p == SIZE_MAX || Prime(p))
            && (forall q :: 10 <= q && candidate <= q < p ==> !Prime(q))
  {
    var odd := SmallestOddFrom(candidate);
    forall q | 10 <= q && candidate <= q < odd ensures !Prime(q) { EvenIsComposite(q); }
  }

  // A prime table size is its own `next_prime`, so rounding is monotone across it.
  lemma NextPrimeBelowPrime(candidate: int, p: int)
    requires 0 <= candidate <= p <= SIZE_MAX && 11 <= p && Prime(p)
    ensures NextPrime(candidate) <= p
  {
    NextPrimeIsNearest(candidate);
  }

  lemma NextPrimeSkips(p: int)
    requires 11 <= p < SIZE_MAX && p % 2 == 1 && !Prime(p)
    ensures p + 2 <= SIZE_MAX && NextPrimeFrom(p + 2) == NextPrimeFrom(p)
  {
  }

  method ComputeNextPrime(candidate: int) returns (p: int)
    requires 0 <= candidate <= SIZE_MAX
    ensures p == NextPrime(candidate)
  {
    p := SmallestOddFrom(candidate);
    while p != SIZE_MAX
      invariant 11 <= p <= SIZE_MAX && p % 2 == 1
      invariant NextPrimeFrom(p) == NextPrime(candidate)
      decreases SIZE_MAX - p
    {
      var prime := IsPrime(p);
      if prime { return; }
      NextPrimeSkips(p);
      p := p + 2;
    }
  }
}
