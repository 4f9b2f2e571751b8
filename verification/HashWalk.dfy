/** Walking a table: `hash_get_first`, `hash_get_next` and `hash_get_entries` agree on the order. */
module HashWalk {
  import opened Multisets
  import opened HashBuckets
  import opened HashRehash
  import opened HashSizing
  import opened HashOps
  import Primes

  /** All data, bucket by bucket. */
  ghost function Flat(t: Buckets): seq<Ptr> {
    if t == [] then [] else t[0] + Flat(t[1..])
  }

  /** The first datum from some bucket on, or NULL. */
  ghost function First(t: Buckets): Ptr {
    if t == [] then NULL else if t[0] != [] then t[0][0] else First(t[1..])
  }

  /** The position of a pointer in its bucket, or the length of the bucket. */
  ghost function Position(b: Bucket, x: Ptr): (j: nat)
    ensures j <= |b| && (j < |b| ==> b[j] == x)
    ensures forall i :: 0 <= i < j ==> b[i] != x
  {
    if b == [] || b[0] == x then 0 else 1 + Position(b[1..], x)
  }

  /** What `hash_get_next` returns; a datum that is not stored counts as the last of its bucket. */
  ghost function Next(c: Client, t: Buckets, x: Ptr): Ptr
    requires c.InRange() && 0 < |t|
  {
    var i := c.Slot(x, |t|);
    var j := Position(t[i], x);
    if j + 1 < |t[i]| then t[i][j + 1] else First(t[i + 1..])
  }

  lemma {:induction false} FlatSplit(t: Buckets, i: nat)
    requires i < |t|
    ensures Flat(t) == Flat(t[..i]) + t[i] + Flat(t[i + 1..])
  {
    if i == 0 {
      assert t[..0] == [];
    } else {
      FlatSplit(t[1..], i - 1);
      assert t[..i][0] == t[0] && t[..i][1..] == t[1..][..i - 1];
      assert t[1..][i..] == t[i + 1..];
      assert t[1..][i - 1] == t[i];
    }
  }

  /** The number of data in front of bucket `i`, and where that bucket is in the walk. */
  ghost function Before(t: Buckets, i: nat): nat
    requires i <= |t|
  {
    |Flat(t[..i])|
  }

  lemma BucketInFlat(t: Buckets, i: nat)
    requires i < |t|
    ensures Before(t, 0) == 0 && Before(t, |t|) == |Flat(t)|
    ensures Before(t, i + 1) == Before(t, i) + |t[i]| <= |Flat(t)|
    ensures Flat(t)[Before(t, i)..Before(t, i + 1)] == t[i]
  {
    FlatSplit(t, i);
    var upTo: Buckets := t[..i + 1];
    FlatSplit(upTo, i);
    assert upTo[..i] == t[..i] && upTo[i + 1..] == [] && t[..|t|] == t;
  }

  lemma {:induction false} FirstIsHeadOfFlat(t: Buckets)
    ensures First(t) == if Flat(t) == [] then NULL else Flat(t)[0]
  {
    if t != [] { FirstIsHeadOfFlat(t[1..]); }
  }

  /** The walk visits precisely the data of the table. */
  lemma {:induction false} FlatIsData(t: Buckets)
    ensures multiset(Flat(t)) == Data(t) && |Flat(t)| == Size(t)
  {
    if t != [] { FlatIsData(t[1..]); }
  }

  ghost predicate AllDifferent(s: seq<Ptr>) {
    forall i, j :: 0 <= i < j < |s| ==> s[i] != s[j]
  }

  lemma {:induction false} SingleMeansDifferent(s: seq<Ptr>)
    requires forall x :: multiset(s)[x] <= 1
    ensures AllDifferent(s)
  {
    if s != [] {
      var rest := s[1..];
      HeadAndTail(s);
      assert forall x :: multiset(s)[x] == multiset{s[0]}[x] + multiset(rest)[x];
      SingleMeansDifferent(rest);
      assert s[0] !in multiset(rest);
      forall i, j | 0 <= i < j < |s| ensures s[i] != s[j] {
        assert s[j] == rest[j - 1] && rest[j - 1] in multiset(rest);
        if 0 < i { assert s[i] == rest[i - 1]; }
      }
    }
  }

  /** Where datum number `k` of the walk is stored. */
  lemma {:induction false} Locate(t: Buckets, k: nat) returns (i: nat, j: nat)
    requires k < |Flat(t)|
    ensures i < |t| && j < |t[i]| && k == |Flat(t[..i])| + j && Flat(t)[k] == t[i][j]
  {
    if k < |t[0]| {
      i, j := 0, k;
      assert t[..0] == [];
    } else {
      i, j := Locate(t[1..], k - |t[0]|);
      assert t[..i + 1][0] == t[0] && t[..i + 1][1..] == t[1..][..i];
      i := i + 1;
    }
  }

  lemma PositionIs(b: Bucket, j: nat)
    requires AllDifferent(b) && j < |b|
    ensures Position(b, b[j]) == j
  {
    assert Position(b, b[j]) <= j;
  }

  lemma PartDifferent(t: Buckets, i: nat)
    requires i < |t| && AllDifferent(Flat(t))
    ensures AllDifferent(t[i])
  {
    FlatSplit(t, i);
    var n := |Flat(t[..i])|;
    assert forall j :: 0 <= j < |t[i]| ==> t[i][j] == Flat(t)[n + j];
  }

  /** From datum number `k` the walk goes on to number `k + 1`, or ends. */
  ghost predicate Continues(c: Client, t: Buckets, k: nat)
    requires c.InRange() && 0 < |t|
  {
    var e := Flat(t);
    k < |e| && Next(c, t, e[k]) == if k + 1 < |e| then e[k + 1] else NULL
  }

  /**
   * In every reachable table, starting at `hash_get_first` and following `hash_get_next` until NULL
   * visits every entry exactly once, in the order of `Flat`.
   */
  lemma WalkVisitsAll(c: Client, t: Table)
    requires c.InRange() && Inv(c, t)
    ensures var e := Flat(t.store.buckets);
            && First(t.store.buckets) == (if e == [] then NULL else e[0])
            && (forall k :: 0 <= k < |e| ==> Continues(c, t.store.buckets, k))
            && AllDifferent(e) && multiset(e) == Data(t.store.buckets) && NULL !in e
  {
    var b := t.store.buckets;
    var e := Flat(b);
    FirstIsHeadOfFlat(b);
    FlatIsData(b);
    SingleMeansDifferent(e);
    forall k | 0 <= k < |e|
      ensures Continues(c, b, k) && e[k] != NULL
    {
      NextStep(c, b, k);
    }
  }

  lemma NextStep(c: Client, b: Buckets, k: nat)
    requires c.InRange() && 0 < |b| && Hashed(c, b) && NonNull(b) && AllDifferent(Flat(b)) && k < |Flat(b)|
    ensures Next(c, b, Flat(b)[k]) == if k + 1 < |Flat(b)| then Flat(b)[k + 1] else NULL
    ensures Flat(b)[k] != NULL
  {
    var i, j := Locate(b, k);
    FlatSplit(b, i);
    PartDifferent(b, i);
    PositionIs(b[i], j);
    FirstIsHeadOfFlat(b[i + 1..]);
    assert c.Slot(b[i][j], |b|) == i;
  }

  // ---- Where an insertion comes in the walk

  lemma PutInMiddle(a: seq<Ptr>, b: Bucket, d: seq<Ptr>, x: Ptr)
    requires b != []
    ensures var e := a + b + d; a + Link(b, x) + d == e[..|a| + 1] + [x] + e[|a| + 1..]
  {
    var e := a + b + d;
    assert e[..|a| + 1] == a + [b[0]] && e[|a| + 1..] == b[1..] + d;
  }

  /**
   * A datum that is placed comes right behind the head of its bucket, or becomes the head of an empty
   * one; the order of all others stays.
   */
  lemma PutInWalk(c: Client, t: Buckets, x: Ptr)
    requires c.InRange() && 0 < |t|
    ensures var i := c.Slot(x, |t|);
            var p := Before(t, i) + if t[i] == [] then 0 else 1;
            p <= |Flat(t)| && Flat(Put(c, t, x)) == Flat(t)[..p] + [x] + Flat(t)[p..]
  {
    var i := c.Slot(x, |t|);
    FlatSplit(t, i);
    FlatOfPut(c, t, x);
    var a, d := Flat(t[..i]), Flat(t[i + 1..]);
    if t[i] == [] {
      PutInGap(a, d, x);
    } else {
      PutInMiddle(a, t[i], d, x);
    }
  }

  lemma PutInGap(a: seq<Ptr>, d: seq<Ptr>, x: Ptr)
    ensures var e := a + [] + d; |a| <= |e| && a + Link([], x) + d == e[..|a|] + [x] + e[|a|..]
  {
    var e := a + [] + d;
    assert e[..|a|] == a && e[|a|..] == d;
  }

  lemma FlatOfPut(c: Client, t: Buckets, x: Ptr)
    requires c.InRange() && 0 < |t|
    ensures var i := c.Slot(x, |t|); Flat(Put(c, t, x)) == Flat(t[..i]) + Link(t[i], x) + Flat(t[i + 1..])
  {
    var i := c.Slot(x, |t|);
    var t' := Put(c, t, x);
    FlatSplit(t', i);
    assert t'[..i] == t[..i] && t'[i + 1..] == t[i + 1..];
  }

  // ---- Removing behind the walk

  lemma FlatCut(t: Buckets, i: nat, j: nat)
    requires i < |t| && j < |t[i]|
    ensures var p := Before(t, i) + j;
            p < |Flat(t)| && Flat(t)[p] == t[i][j]
            && Flat(t[i := Without(t[i], j)]) == Flat(t)[..p] + Flat(t)[p + 1..]
  {
    var cut := t[i := Without(t[i], j)];
    FlatSplit(t, i);
    FlatSplit(cut, i);
    assert cut[..i] == t[..i] && cut[i + 1..] == t[i + 1..];
    CutMiddle(Flat(t[..i]), t[i], Flat(t[i + 1..]), j);
  }

  lemma CutMiddle(a: seq<Ptr>, b: Bucket, d: seq<Ptr>, j: nat)
    requires j < |b|
    ensures var e, p := a + b + d, |a| + j;
            e[p] == b[j] && a + Without(b, j) + d == e[..p] + e[p + 1..]
  {
    var e, p := a + b + d, |a| + j;
    assert e[..p] == a + b[..j] && e[p + 1..] == b[j + 1..] + d;
  }

  /** Unlinking datum number `k` of the walk takes just that one out of it. */
  lemma UnlinkCutsWalk(c: Client, t: Table, k: nat)
    requires c.Lawful() && Inv(c, t) && k < |Flat(t.store.buckets)|
    ensures var e := Flat(t.store.buckets);
            && Lookup(c, t, e[k]) == Found(e[k])
            && Flat(Unlink(c, t, e[k]).store.buckets) == e[..k] + e[k + 1..]
  {
    var b := t.store.buckets;
    var e := Flat(b);
    FlatIsData(b);
    SingleMeansDifferent(e);
    var i, j := Locate(b, k);
    assert e[k] in multiset(e);
    LookupFindsTheMatch(c, t, e[k]);
    assert c.Slot(b[i][j], |b|) == i;
    PartDifferent(b, i);
    OnlyPlace(b[i], Find(c, b[i], e[k]), j);
    FlatCut(b, i, j);
  }

  lemma OnlyPlace(b: Bucket, i: nat, j: nat)
    requires AllDifferent(b) && i < |b| && j < |b| && b[i] == b[j]
    ensures i == j
  {
  }

  /**
   * Without a shrink threshold an entry that the walk has passed may be removed: the walk goes on from
   * every later entry as it would have.
   */
  lemma RemoveBehindWalk(c: Client, heap: Heap, t: Table, k: nat, n: nat)
    requires c.Lawful() && Inv(c, t) && t.tuning.shrinkThreshold == 0.0
    requires k < n < |Flat(t.store.buckets)|
    ensures var e, r := Flat(t.store.buckets), Remove(c, heap, t, Flat(t.store.buckets)[k]);
            && r.Reply? && r.answer == Found(e[k]) && Inv(c, r.t)
            && Flat(r.t.store.buckets) == e[..k] + e[k + 1..]
            && Next(c, r.t.store.buckets, e[n]) == Next(c, t.store.buckets, e[n])
  {
    var e := Flat(t.store.buckets);
    UnlinkCutsWalk(c, t, k);
    RemoveOnlyUnlinks(c, heap, t, e[k]);
    RemoveRefinesSet(c, heap, t, e[k]);
    WalkSkips(c, t, Unlink(c, t, e[k]), k, n);
  }

  lemma RemoveOnlyUnlinks(c: Client, heap: Heap, t: Table, x: Ptr)
    requires c.InRange() && Inv(c, t) && t.tuning.shrinkThreshold == 0.0 && Lookup(c, t, x).Found?
    ensures Remove(c, heap, t, x) == Reply(Unlink(c, t, x), Lookup(c, t, x))
  {
    assert !Sparse(Used(Unlink(c, t, x).store.buckets), |t.store.buckets|, t.tuning);
  }

  lemma WalkSkips(c: Client, t: Table, t': Table, k: nat, n: nat)
    requires c.InRange() && Inv(c, t) && Inv(c, t') && k < n < |Flat(t.store.buckets)|
    requires Flat(t'.store.buckets) == Flat(t.store.buckets)[..k] + Flat(t.store.buckets)[k + 1..]
    ensures var x := Flat(t.store.buckets)[n]; Next(c, t'.store.buckets, x) == Next(c, t.store.buckets, x)
  {
    WalkVisitsAll(c, t);
    WalkVisitsAll(c, t');
    assert Continues(c, t.store.buckets, n) && Continues(c, t'.store.buckets, n - 1);
  }

  // ---- The promise of hash_initialize over a whole run

  ghost function Inserts(xs: seq<Ptr>): (ops: seq<Op>)
    ensures |ops| == |xs| && forall i :: 0 <= i < |xs| ==> ops[i] == OpInsert(xs[i])
  {
    seq(|xs|, i requires 0 <= i < |xs| => OpInsert(xs[i]))
  }

  lemma NotOverfullYet(c: Client, heap: Heap, t: Table, candidate: nat)
    requires c.InRange() && Inv(c, t) && candidate <= Primes.SIZE_MAX && Sane(t.tuning) && !t.tuning.isNBuckets
    requires |t.store.buckets| == BucketSize(candidate, t.tuning) && Size(t.store.buckets) < candidate
    ensures EnsureRoom(c, heap, t) == Ready(t)
  {
    OverflowIsSizeLessUsed(t.store.buckets);
    RoomForCandidate(candidate, t.tuning, Used(t.store.buckets));
  }

  lemma InsertKeepsSizeAndTuning(c: Client, heap: Heap, t: Table, x: Ptr)
    requires c.Lawful() && Inv(c, t) && x != NULL && EnsureRoom(c, heap, t) == Ready(t)
    ensures var r := InsertIfAbsent(c, heap, t, x);
            && r.Reply? && |r.t.store.buckets| == |t.store.buckets| && r.t.tuning == t.tuning
            && Size(r.t.store.buckets) <= Size(t.store.buckets) + 1
  {
    InsertCounts(c, heap, t, x);
  }

  /** Before none of these insertions is the table found overfull, so none of them tries to grow it. */
  ghost predicate NeverGrows(c: Client, heap: Heap, t: Table, xs: seq<Ptr>)
    requires c.Lawful() && Inv(c, t) && NULL !in xs
    decreases |xs|
  {
    xs == [] ||
    (EnsureRoom(c, heap, t) == Ready(t)
     && (InsertRefinesSet(c, heap, t, xs[0]); NeverGrows(c, heap, InsertIfAbsent(c, heap, t, xs[0]).t, xs[1..])))
  }

  lemma {:induction false} InsertsAreLegal(c: Client, heap: Heap, t: Table, xs: seq<Ptr>)
    requires c.Lawful() && Inv(c, t) && NULL !in xs
    ensures LegalRun(c, heap, t, Inserts(xs))
    decreases |xs|
  {
    if xs != [] {
      InsertRefinesSet(c, heap, t, xs[0]);
      assert Inserts(xs)[1..] == Inserts(xs[1..]);
      InsertsAreLegal(c, heap, InsertIfAbsent(c, heap, t, xs[0]).t, xs[1..]);
    }
  }

  /**
   * A table made for `candidate` entries takes that many insertions without trying to grow, for every
   * client, every choice of data and every pattern of allocation failures.
   */
  lemma {:induction false} NoGrowthBeforeCandidate(c: Client, heap: Heap, t: Table, candidate: nat, xs: seq<Ptr>)
    requires c.Lawful() && Inv(c, t) && candidate <= Primes.SIZE_MAX && Sane(t.tuning) && !t.tuning.isNBuckets
    requires |t.store.buckets| == BucketSize(candidate, t.tuning)
    requires Size(t.store.buckets) + |xs| <= candidate && NULL !in xs
    ensures NeverGrows(c, heap, t, xs)
    ensures LegalRun(c, heap, t, Inserts(xs))
    ensures var r := Run(c, heap, t, Inserts(xs));
            r.Trace? && |r.t.store.buckets| == |t.store.buckets|
    decreases |xs|
  {
    InsertsAreLegal(c, heap, t, xs);
    RunRefinesSet(c, heap, t, Inserts(xs));
    if xs != [] {
      NotOverfullYet(c, heap, t, candidate);
      InsertKeepsSizeAndTuning(c, heap, t, xs[0]);
      InsertRefinesSet(c, heap, t, xs[0]);
      var t' := InsertIfAbsent(c, heap, t, xs[0]).t;
      assert Inserts(xs)[1..] == Inserts(xs[1..]);
      NoGrowthBeforeCandidate(c, heap, t', candidate, xs[1..]);
    }
  }
}
