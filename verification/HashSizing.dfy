/** Tuning and table sizes of gnulib/lib/hash.c, with exact reals in place of `float`. */
module HashSizing {
  import opened Primes

  datatype Tuning = Tuning(
    shrinkThreshold: real,
    shrinkFactor: real,
    growthThreshold: real,
    growthFactor: real,
    isNBuckets: bool)

  const DEFAULT_TUNING := Tuning(0.0, 1.0, 0.8, 1.414, false)
  // PTRDIFF_MAX / sizeof (struct hash_entry *)
  const MAX_BUCKETS := 0x0FFF_FFFF_FFFF_FFFF

  /** The test of `check_tuning`. */
  predicate Sane(t: Tuning) {
    && 0.1 < t.growthThreshold < 1.0 - 0.1
    && 1.0 + 0.1 < t.growthFactor
    && 0.0 <= t.shrinkThreshold
    && t.shrinkThreshold + 0.1 < t.shrinkFactor
    && t.shrinkFactor <= 1.0
    && t.shrinkThreshold + 0.1 < t.growthThreshold
  }

  lemma DefaultTuningIsSane()
    ensures Sane(DEFAULT_TUNING)
  {
  }

  /** How far each field may go while the others have usual values. */
  lemma SaneAtTheEdges(x: real)
    ensures Sane(DEFAULT_TUNING.(growthThreshold := x)) <==> 0.1 < x < 0.9
    ensures Sane(DEFAULT_TUNING.(growthFactor := x)) <==> 1.1 < x
    ensures Sane(DEFAULT_TUNING.(shrinkThreshold := x)) <==> 0.0 <= x < 0.7
    ensures Sane(DEFAULT_TUNING.(shrinkThreshold := 0.25, shrinkFactor := x)) <==> 0.35 < x <= 1.0
    ensures Sane(DEFAULT_TUNING.(isNBuckets := true))
  {
  }

  /** A table is never asked to grow and to shrink at once. */
  lemma NeverBoth(used: nat, n: nat, t: Tuning)
    requires Sane(t)
    ensures !(Overfull(used, n, t) && Sparse(used, n, t))
  {
    ScaledBelow(n as real, t.shrinkThreshold, t.growthThreshold);
  }

  /** The growth threshold is passed. */
  predicate Overfull(used: nat, nBuckets: nat, t: Tuning) {
    used as real > t.growthThreshold * nBuckets as real
  }

  /** The shrink threshold is passed. */
  predicate Sparse(used: nat, nBuckets: nat, t: Tuning) {
    (used as real) < t.shrinkThreshold * nBuckets as real
  }

  /**
   * The quotient of `compute_bucket_size` converts to `size_t`, or is infinite and caught before that.
   * For all other values, NaN and those from -1 down, C leaves the conversion undefined.
   */
  predicate Convertible(candidate: nat, t: Tuning) {
    || t.isNBuckets || 0.0 < t.growthThreshold
    || (t.growthThreshold == 0.0 && 0 < candidate)
    || (t.growthThreshold < 0.0 && -1.0 < candidate as real / t.growthThreshold)
  }

  /** Conversion of a real number above -1 to an integer type. */
  function Truncated(x: real): (k: nat)
    requires -1.0 < x
    ensures if x < 0.0 then k == 0 else k as real <= x < (k + 1) as real
  {
    if x < 0.0 then 0 else x.Floor
  }

  /** `compute_bucket_size`: 0 when no table that large can be allocated. */
  ghost function BucketSize(candidate: nat, t: Tuning): (size: nat)
    requires candidate <= SIZE_MAX && Convertible(candidate, t)
    ensures size == 0 || (11 <= size <= MAX_BUCKETS && Prime(size))
  {
    if t.isNBuckets then Fit(candidate)
    else if t.growthThreshold == 0.0 then 0  // infinity
    else
      var scaled := candidate as real / t.growthThreshold;
      if SIZE_MAX as real <= scaled then 0 else
        ScaledFits(candidate, t);
        Fit(Truncated(scaled))
  }

  ghost function Fit(candidate: nat): (size: nat)
    requires candidate <= SIZE_MAX
    ensures size == 0 || (11 <= size <= MAX_BUCKETS && Prime(size) && candidate <= size)
  {
    NextPrimeIsNearest(candidate);
    var p := NextPrime(candidate);
    if MAX_BUCKETS < p then 0 else p
  }

  lemma ScaledFits(candidate: nat, t: Tuning)
    requires Convertible(candidate, t) && !t.isNBuckets && t.growthThreshold != 0.0
    ensures var scaled := candidate as real / t.growthThreshold;
            -1.0 < scaled && (0.0 < t.growthThreshold ==> 0.0 <= scaled)
  {
  }

  /** The size an overfull table of `n` buckets asks for; nothing when it would not fit `size_t`. */
  ghost function GrowthCandidate(n: nat, t: Tuning): (r: real)
    requires Sane(t)
    ensures 0.0 <= r
  {
    if t.isNBuckets then n as real * t.growthFactor
    else
      ProductNonNegative(n as real * t.growthFactor, t.growthThreshold);
      n as real * t.growthFactor * t.growthThreshold
  }

  lemma ProductNonNegative(a: real, b: real)
    requires 0.0 <= a && 0.0 <= b
    ensures 0.0 <= a * b
  {
  }

  ghost function Part(x: real, f: real): (y: real)
    requires 0.0 <= x && 0.0 <= f <= 1.0
    ensures 0.0 <= y <= x
  {
    ProductNonNegative(x, f);
    ProductAtMost(x, f);
    x * f
  }

  lemma ProductAtMost(x: real, f: real)
    requires 0.0 <= x && f <= 1.0
    ensures x * f <= x
  {
    ScaledBelow(x, f, 1.0);
  }

  ghost function FloorOf(x: real, bound: nat): (k: nat)
    requires 0.0 <= x <= bound as real
    ensures k <= bound && k as real <= x < (k + 1) as real
  {
    x.Floor
  }

  ghost function ShrinkCandidate(n: nat, t: Tuning): (r: nat)
    requires Sane(t)
    ensures r <= n
  {
    FloorOf(
      if t.isNBuckets then Part(n as real, t.shrinkFactor)
      else Part(Part(n as real, t.shrinkFactor), t.growthThreshold), n)
  }

  /** The size an insertion grows a table of `n` buckets to; 0 when that is out of the question. */
  ghost function GrownSize(n: nat, t: Tuning): (size: nat)
    requires Sane(t)
    ensures size == 0 || (11 <= size <= MAX_BUCKETS && Prime(size))
  {
    var candidate := GrowthCandidate(n, t);
    if SIZE_MAX as real <= candidate then 0 else BucketSize(candidate.Floor, t)
  }

  /** The size a removal shrinks a table of `n` buckets to. */
  ghost function ShrunkSize(n: nat, t: Tuning): (size: nat)
    requires Sane(t) && n <= SIZE_MAX
    ensures size == 0 || (11 <= size <= MAX_BUCKETS && Prime(size))
  {
    BucketSize(ShrinkCandidate(n, t), t)
  }

  // ---- Promises about sizes

  /**
   * The promise of `hash_initialize`: a table made for `candidate` entries is not overfull until
   * it holds that many, whatever buckets they fall into.
   */
  lemma RoomForCandidate(candidate: nat, t: Tuning, used: nat)
    requires candidate <= SIZE_MAX && Sane(t) && !t.isNBuckets
    requires BucketSize(candidate, t) != 0 && used < candidate
    ensures !Overfull(used, BucketSize(candidate, t), t)
  {
    var size := BucketSize(candidate, t);
    SizeCoversScaled(candidate, t);
    AlmostFull(t, candidate, size, used);
  }

  ghost predicate Covers(candidate: nat, size: nat, t: Tuning)
    requires 0.0 < t.growthThreshold
  {
    candidate as real / t.growthThreshold - 1.0 <= size as real
  }

  lemma SizeCoversScaled(candidate: nat, t: Tuning)
    requires candidate <= SIZE_MAX && 0.0 < t.growthThreshold && !t.isNBuckets
    requires BucketSize(candidate, t) != 0
    ensures Covers(candidate, BucketSize(candidate, t), t)
  {
  }

  lemma AlmostFull(t: Tuning, candidate: nat, size: nat, used: nat)
    requires 0.0 < t.growthThreshold < 1.0 && used < candidate && Covers(candidate, size, t)
    ensures !Overfull(used, size, t)
  {
    var g, c := t.growthThreshold, candidate as real;
    var scaled := c / g;
    ScaledBelow(g, scaled - 1.0, size as real);
    assert g * (scaled - 1.0) == g * scaled - g;
    assert g * scaled == c;
  }

  lemma ScaledBelow(g: real, x: real, y: real)
    requires 0.0 <= g && x <= y
    ensures g * x <= g * y
  {
    assert 0.0 <= g * (y - x);
  }

  /** With the default tuning a growth that succeeds strictly enlarges the table. */
  lemma DefaultGrowthEnlarges(n: nat)
    requires 11 <= n <= MAX_BUCKETS
    ensures var size := GrownSize(n, DEFAULT_TUNING); size == 0 || n < size
  {
    var candidate := GrowthCandidate(n, DEFAULT_TUNING);
    assert candidate == n as real * 1.1312;
    if candidate < SIZE_MAX as real {
      var k := candidate.Floor;
      var scaled := k as real / 0.8;
      assert candidate - 1.0 < k as real;
      assert n as real * 1.414 - 1.25 < scaled;
      assert n as real + 2.0 < scaled;
    }
  }

  lemma TenPercent(n: nat, f: real)
    requires 11 <= n && 1.1 <= f
    ensures (n + 1) as real <= n as real * f
  {
    ScaledBelow(n as real, 1.1, f);
  }

  lemma AtLeastFloor(x: real, k: int)
    requires k as real <= x
    ensures k <= x.Floor
  {
  }

  /** So does one with any sane tuning that counts buckets. */
  lemma BucketGrowthEnlarges(n: nat, t: Tuning)
    requires 11 <= n <= MAX_BUCKETS && Sane(t) && t.isNBuckets
    ensures var size := GrownSize(n, t); size == 0 || n < size
  {
    var candidate := GrowthCandidate(n, t);
    TenPercent(n, t.growthFactor);
    AtLeastFloor(candidate, n + 1);
  }

  /** A sane tuning that counts entries can leave the size of an overfull table as it is. */
  lemma EntryGrowthCanStall()
    ensures exists t: Tuning ::
              Sane(t) && !t.isNBuckets && GrownSize(11, t) == 11
  {
    var t := Tuning(0.0, 1.0, 0.125, 1.125, false);
    var candidate := GrowthCandidate(11, t);
    assert candidate == 11.0 * 1.125 * 0.125;
    assert candidate.Floor == 1;
    assert 1.0 / 0.125 == 8.0;
    ElevenIsPrime();
    NextPrimeBelowPrime(8, 11);
    NextPrimeIsNearest(8);
  }

  lemma ElevenIsPrime()
    ensures Prime(11)
  {
    assert !Divides(2, 11) && !Divides(3, 11) && !Divides(4, 11);
    NoSmallDivisorMeansPrime(11, 4);
  }

  /** For a prime size, exactly when the scaled candidate itself exceeds it does the table grow. */
  lemma GrowthEnlargesExactlyWhen(n: nat, t: Tuning)
    requires 11 <= n <= MAX_BUCKETS && Prime(n) && Sane(t) && !t.isNBuckets
    requires GrownSize(n, t) != 0
    ensures n < GrownSize(n, t) <==>
            (n + 1) as real <= GrowthCandidate(n, t).Floor as real / t.growthThreshold
  {
    var k := GrowthCandidate(n, t).Floor;
    var scaled := k as real / t.growthThreshold;
    if scaled < (n + 1) as real {
      ScaledFits(k, t);
      assert scaled.Floor <= n;
      NextPrimeBelowPrime(scaled.Floor, n);
    } else {
      assert n + 1 <= scaled.Floor;
    }
  }

  // ---- The sizes in the terms of the tuning

  /** `size` is the least prime from 11 and from `wish` on. */
  ghost predicate IsLeastPrime(size: int, wish: int) {
    Prime(size) && 11 <= size && wish <= size && forall q :: 11 <= q && wish <= q < size ==> !Prime(q)
  }

  /** No prime from `wish` on is a possible number of buckets. */
  ghost predicate NoPrimeFits(wish: int) {
    forall q :: 11 <= q <= MAX_BUCKETS && wish <= q ==> !Prime(q)
  }

  ghost predicate Answers(size: nat, wish: int) {
    if size == 0 then NoPrimeFits(wish) else IsLeastPrime(size, wish) && size <= MAX_BUCKETS
  }

  lemma FitIs(candidate: nat)
    requires candidate <= SIZE_MAX
    ensures Answers(Fit(candidate), candidate)
  {
    NextPrimeIsNearest(candidate);
  }

  /** The bucket count that `candidate` stands for, rounded down. */
  function Wish(candidate: real, t: Tuning): int
    requires t.isNBuckets || t.growthThreshold != 0.0
  {
    if t.isNBuckets then candidate.Floor else (candidate.Floor as real / t.growthThreshold).Floor
  }

  lemma QuotientGrows(k: int, g: real)
    requires 0 <= k && 0.0 < g < 1.0
    ensures k as real <= k as real / g
  {
  }

  /** `compute_bucket_size` gives the least prime that serves, and 0 only when none does or none is asked for. */
  lemma BucketSizeIs(candidate: nat, t: Tuning)
    requires candidate <= SIZE_MAX && Convertible(candidate, t)
    ensures var size, g := BucketSize(candidate, t), t.growthThreshold;
            if t.isNBuckets then Answers(size, candidate)
            else if g == 0.0 then size == 0
            else Answers(size, if g < 0.0 then 0 else (candidate as real / g).Floor)
  {
    if t.isNBuckets {
      FitIs(candidate);
    } else if t.growthThreshold != 0.0 {
      var scaled := candidate as real / t.growthThreshold;
      ScaledFits(candidate, t);
      if scaled < SIZE_MAX as real {
        QuotientSign(candidate, t.growthThreshold);
        FitIs(Truncated(scaled));
      } else {
        AtLeastFloor(scaled, SIZE_MAX);
      }
    }
  }

  lemma QuotientSign(k: nat, g: real)
    requires g != 0.0
    ensures g < 0.0 ==> k as real / g <= 0.0
    ensures 0.0 < g ==> 0.0 <= k as real / g
  {
  }

  /** `n` times a factor, as a candidate: in entries unless the tuning counts buckets. */
  function Scaled(n: nat, factor: real, t: Tuning): real {
    if t.isNBuckets then n as real * factor else n as real * factor * t.growthThreshold
  }

  lemma CandidateIs(n: nat, t: Tuning)
    requires Sane(t)
    ensures GrowthCandidate(n, t) == Scaled(n, t.growthFactor, t)
    ensures ShrinkCandidate(n, t) == Scaled(n, t.shrinkFactor, t).Floor
  {
  }

  /** The size of a grown table, in the terms of the tuning, and with no other bound than memory. */
  lemma GrownSizeIs(n: nat, t: Tuning)
    requires Sane(t)
    ensures Answers(GrownSize(n, t), Wish(Scaled(n, t.growthFactor, t), t))
  {
    CandidateIs(n, t);
    CandidateAnswers(GrowthCandidate(n, t), t);
  }

  lemma CandidateAnswers(candidate: real, t: Tuning)
    requires Sane(t) && 0.0 <= candidate
    ensures Answers(if SIZE_MAX as real <= candidate then 0 else BucketSize(candidate.Floor, t), Wish(candidate, t))
  {
    if candidate < SIZE_MAX as real {
      BucketSizeIs(candidate.Floor, t);
    } else {
      AtLeastFloor(candidate, SIZE_MAX);
      QuotientGrows(candidate.Floor, t.growthThreshold);
      AtLeastFloor(candidate.Floor as real / t.growthThreshold, SIZE_MAX);
    }
  }

  // ---- Shrinking

  /** The bucket count a sparse table asks for, before it is rounded up to a prime. */
  function ShrinkWish(n: nat, t: Tuning): int
    requires Sane(t)
  {
    Wish(Scaled(n, t.shrinkFactor, t), t)
  }

  lemma ScaledBack(x: real, g: real, k: nat)
    requires 0.0 <= x && 0.0 < g && k as real <= x * g
    ensures 0.0 <= k as real / g <= x
  {
  }

  lemma CandidateScalesBack(n: nat, t: Tuning)
    requires Sane(t) && !t.isNBuckets
    ensures 0.0 <= ShrinkCandidate(n, t) as real / t.growthThreshold <= n as real
  {
    var x := Part(n as real, t.shrinkFactor);
    var k := FloorOf(Part(x, t.growthThreshold), n);
    ScaledBack(x, t.growthThreshold, k);
  }

  lemma ShrinkWishFits(n: nat, t: Tuning)
    requires Sane(t)
    ensures 0 <= ShrinkWish(n, t) <= n
    ensures n <= MAX_BUCKETS ==> ShrunkSize(n, t) == Fit(ShrinkWish(n, t))
  {
    CandidateIs(n, t);
    if !t.isNBuckets {
      CandidateScalesBack(n, t);
      FloorBetween(ShrinkCandidate(n, t) as real / t.growthThreshold, n);
    }
  }

  lemma FloorBetween(x: real, n: nat)
    requires 0.0 <= x <= n as real
    ensures 0 <= x.Floor <= n
  {
  }

  /** The size of a shrunk table, in the terms of the tuning. */
  lemma ShrunkSizeIs(n: nat, t: Tuning)
    requires 11 <= n <= MAX_BUCKETS && Prime(n) && Sane(t)
    ensures IsLeastPrime(ShrunkSize(n, t), ShrinkWish(n, t)) && ShrunkSize(n, t) <= n
  {
    ShrinkWishFits(n, t);
    FitIs(ShrinkWish(n, t));
  }

  /** Shrinking never enlarges a table, and a prime in between is exactly what it takes to reduce it. */
  lemma ShrinksExactlyWhen(n: nat, t: Tuning)
    requires 11 <= n <= MAX_BUCKETS && Prime(n) && Sane(t)
    ensures 11 <= ShrunkSize(n, t) <= n
    ensures ShrunkSize(n, t) < n <==> exists q :: 11 <= q < n && ShrinkWish(n, t) <= q && Prime(q)
  {
    ShrunkSizeIs(n, t);
  }

  /** A sane tuning whose shrink factor does not shrink. */
  lemma ShrinkCanStall()
    ensures exists t: Tuning :: Sane(t) && 0.0 < t.shrinkThreshold && ShrunkSize(11, t) == 11
  {
    var t := Tuning(0.25, 1.0, 0.8, 1.414, true);
    ElevenIsPrime();
    ShrinksExactlyWhen(11, t);
    assert Sane(t) && ShrunkSize(11, t) == 11;
  }
}
