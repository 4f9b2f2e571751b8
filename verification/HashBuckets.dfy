/**
 * The contents of a hash table as values: a sequence of buckets, each bucket the data of its head
 * followed by the data of its overflow entries.  NULL marks an empty head, so it is never stored.
 */
module HashBuckets {
  import opened Multisets

  type Ptr = nat
  const NULL: Ptr := 0

  type Bucket = seq<Ptr>
  type Buckets = seq<Bucket>

  /** What the user hands to `hash_initialize`. */
  datatype Client = Client(hasher: (Ptr, nat) -> nat, comparator: (Ptr, Ptr) -> bool)
  {
    /** The test the table uses: pointer equality first, then the comparator. */
    predicate Same(x: Ptr, y: Ptr) {
      x == y || comparator(x, y)
    }

    ghost predicate InRange() {
      forall x, n :: 0 < n ==> hasher(x, n) < n
    }

    ghost predicate Equivalence() {
      && (forall x, y :: Same(x, y) ==> Same(y, x))
      && (forall x, y, z :: Same(x, y) && Same(y, z) ==> Same(x, z))
    }

    ghost predicate Consistent() {
      forall x, y, n :: Same(x, y) ==> hasher(x, n) == hasher(y, n)
    }

    /** The demands of hash.h on the hasher and the comparator. */
    ghost predicate Lawful() {
      InRange() && Equivalence() && Consistent()
    }

    ghost function Slot(x: Ptr, n: nat): (slot: nat)
      requires InRange() && 0 < n
      ensures slot < n
    {
      hasher(x, n)
    }
  }

  ghost function Data(t: Buckets): multiset<Ptr> {
    if t == [] then multiset{} else multiset(t[0]) + Data(t[1..])
  }

  ghost function Size(t: Buckets): nat {
    if t == [] then 0 else |t[0]| + Size(t[1..])
  }

  ghost function Used(t: Buckets): nat {
    if t == [] then 0 else (if t[0] == [] then 0 else 1) + Used(t[1..])
  }

  /** The number of overflow entries a table with these buckets occupies. */
  ghost function Overflow(t: Buckets): nat {
    if t == [] then 0 else (if t[0] == [] then 0 else |t[0]| - 1) + Overflow(t[1..])
  }

  ghost predicate Hashed(c: Client, t: Buckets)
    requires c.InRange()
  {
    forall i, k :: 0 <= i < |t| && 0 <= k < |t[i]| ==> c.Slot(t[i][k], |t|) == i
  }

  ghost predicate NonNull(t: Buckets) {
    forall i, k :: 0 <= i < |t| && 0 <= k < |t[i]| ==> t[i][k] != NULL
  }

  ghost function Empty(n: nat): (t: Buckets)
    ensures |t| == n && forall i :: 0 <= i < n ==> t[i] == []
  {
    seq(n, i => [])
  }

  /** A datum joins a bucket: as the head of an empty one, right behind the head otherwise. */
  ghost function Link(b: Bucket, x: Ptr): Bucket {
    if b == [] then [x] else [b[0], x] + b[1..]
  }

  ghost function Put(c: Client, t: Buckets, x: Ptr): (t': Buckets)
    requires c.InRange() && 0 < |t|
    ensures |t'| == |t|
  {
    var i := c.Slot(x, |t|);
    t[i := Link(t[i], x)]
  }

  /** The position of the first datum of the bucket that matches, or its length. */
  ghost function Find(c: Client, b: Bucket, x: Ptr): (k: nat)
    ensures k <= |b|
    ensures k < |b| ==> c.Same(x, b[k])
    ensures forall j :: 0 <= j < k ==> !c.Same(x, b[j])
  {
    if b == [] || c.Same(x, b[0]) then 0 else 1 + Find(c, b[1..], x)
  }

  /** Finding is determined by its properties. */
  lemma FindIs(c: Client, b: Bucket, x: Ptr, k: nat)
    requires k <= |b| && (k < |b| ==> c.Same(x, b[k]))
    requires forall j :: 0 <= j < k ==> !c.Same(x, b[j])
    ensures Find(c, b, x) == k
  {
    assert Find(c, b, x) <= k;
  }

  ghost function Without(b: Bucket, k: nat): Bucket
    requires k < |b|
  {
    b[..k] + b[k + 1..]
  }

  /** Deleting the match of `x` from `b` returns `p`, leaves `b'` and takes `free` to `free'`. */
  ghost predicate Deleted(c: Client, b: Bucket, x: Ptr, p: Ptr, b': Bucket, free: nat, free': nat) {
    var k := Find(c, b, x);
    if k < |b| then p == b[k] && b' == Without(b, k) && free' == free + if |b| == 1 then 0 else 1
    else p == NULL && b' == b && free' == free
  }

  // ---- Replacing one bucket

  lemma {:induction false} ReplaceBucket(t: Buckets, i: nat, b: Bucket)
    requires i < |t|
    ensures Size(t[i := b]) + |t[i]| == Size(t) + |b|
    ensures Used(t[i := b]) + (if t[i] == [] then 0 else 1) == Used(t) + (if b == [] then 0 else 1)
    ensures Data(t[i := b]) + multiset(t[i]) == Data(t) + multiset(b)
  {
    ReplaceBucketData(t, i, b);
    if i == 0 {
      assert t[0 := b][1..] == t[1..];
    } else {
      assert t[i := b][1..] == t[1..][i - 1 := b];
      ReplaceBucket(t[1..], i - 1, b);
    }
  }

  lemma ReplaceBucketUsed(t: Buckets, i: nat, b: Bucket)
    requires i < |t|
    ensures Used(t[i := b]) == Used(t) + (if b == [] then 0 else 1) - (if t[i] == [] then 0 else 1)
  {
    ReplaceBucket(t, i, b);
  }

  lemma DeletedUsed(c: Client, t: Buckets, i: nat, x: Ptr, p: Ptr, b': Bucket, free: nat, free': nat)
    requires i < |t| && NULL !in t[i] && Deleted(c, t[i], x, p, b', free, free')
    ensures Used(t[i := b']) == Used(t) - if p != NULL && b' == [] then 1 else 0
  {
    ReplaceBucketUsed(t, i, b');
    var k := Find(c, t[i], x);
    if k < |t[i]| { assert t[i][k] in t[i]; }
  }

  lemma {:induction false} ReplaceBucketData(t: Buckets, i: nat, b: Bucket)
    requires i < |t|
    ensures Data(t[i := b]) + multiset(t[i]) == Data(t) + multiset(b)
  {
    var rest := t[1..];
    if i == 0 {
      assert t[0 := b][1..] == rest;
      MultisetAssoc(multiset(b), Data(rest), multiset(t[0]));
      MultisetAssoc(multiset(t[0]), Data(rest), multiset(b));
    } else {
      assert t[i := b][1..] == rest[i - 1 := b];
      ReplaceBucketData(rest, i - 1, b);
      MultisetAssoc(multiset(t[0]), Data(rest[i - 1 := b]), multiset(t[i]));
      MultisetAssoc(multiset(t[0]), Data(rest), multiset(b));
    }
  }

  lemma {:induction false} EmptyLaws(n: nat)
    ensures Data(Empty(n)) == multiset{} && Size(Empty(n)) == 0 && Used(Empty(n)) == 0
  {
    if 0 < n {
      assert Empty(n)[1..] == Empty(n - 1);
      EmptyLaws(n - 1);
    }
  }

  /** Overflow entries are exactly the entries beyond one per used bucket. */
  lemma {:induction false} OverflowIsSizeLessUsed(t: Buckets)
    ensures Overflow(t) == Size(t) - Used(t)
    ensures Used(t) <= Size(t) && Used(t) <= |t|
    ensures |Data(t)| == Size(t)
  {
    if t != [] { OverflowIsSizeLessUsed(t[1..]); }
  }

  lemma {:induction false} OverflowMonotone(s: Buckets, t: Buckets)
    requires |s| == |t|
    requires forall i :: 0 <= i < |t| ==> |s[i]| <= |t[i]|
    ensures Overflow(s) <= Overflow(t)
  {
    if t != [] { OverflowMonotone(s[1..], t[1..]); }
  }

  lemma LinkLaws(b: Bucket, x: Ptr)
    ensures multiset(Link(b, x)) == multiset(b) + multiset{x}
    ensures |Link(b, x)| == |b| + 1
  {
    if b != [] {
      assert b == [b[0]] + b[1..];
      assert [b[0], x] + b[1..] == [b[0]] + [x] + b[1..];
    }
  }

  lemma PutLaws(c: Client, t: Buckets, x: Ptr)
    requires c.InRange() && 0 < |t|
    ensures var t' := Put(c, t, x);
            && Data(t') == Data(t) + multiset{x}
            && Size(t') == Size(t) + 1
            && Used(t') == Used(t) + (if t[c.Slot(x, |t|)] == [] then 1 else 0)
            && Overflow(t') == Overflow(t) + (if t[c.Slot(x, |t|)] == [] then 0 else 1)
  {
    var i := c.Slot(x, |t|);
    var t' := Put(c, t, x);
    LinkLaws(t[i], x);
    ReplaceBucket(t, i, Link(t[i], x));
    MultisetCancel(Data(t'), Data(t) + multiset{x}, multiset(t[i]));
    OverflowIsSizeLessUsed(t);
    OverflowIsSizeLessUsed(t');
  }

  lemma PutStaysHashed(c: Client, t: Buckets, x: Ptr)
    requires c.InRange() && 0 < |t|
    ensures Hashed(c, t) ==> Hashed(c, Put(c, t, x))
    ensures NonNull(t) && x != NULL ==> NonNull(Put(c, t, x))
  {
    var i := c.Slot(x, |t|);
    var b := t[i];
    if b != [] {
      forall k | 0 <= k < |Link(b, x)|
        ensures Link(b, x)[k] == (if k == 0 then b[0] else if k == 1 then x else b[k - 1])
      {
      }
    }
  }

  // ---- Membership

  lemma {:induction false} InData(t: Buckets, x: Ptr)
    ensures x in Data(t) <==> exists i :: 0 <= i < |t| && x in t[i]
  {
    if t != [] {
      InData(t[1..], x);
      if x in Data(t[1..]) {
        var i :| 0 <= i < |t[1..]| && x in t[1..][i];
        assert x in t[i + 1];
      }
      if exists i :: 0 <= i < |t| && x in t[i] {
        var i :| 0 <= i < |t| && x in t[i];
        if i != 0 { assert x in t[1..][i - 1]; }
      }
    }
  }

  /** In a hashed table all occurrences of a datum are in the bucket its hash names. */
  lemma {:induction false} DataInSlot(c: Client, t: Buckets, n: nat, lo: nat, x: Ptr)
    requires c.InRange() && 0 < n && n == lo + |t|
    requires forall i, k :: 0 <= i < |t| && 0 <= k < |t[i]| ==> c.Slot(t[i][k], n) == lo + i
    ensures Data(t)[x] == (if lo <= c.Slot(x, n) then multiset(t[c.Slot(x, n) - lo])[x] else 0)
    decreases |t|
  {
    if t != [] {
      assert t[0] == [] || c.Slot(t[0][0], n) == lo;
      assert forall k :: 0 <= k < |t[0]| ==> c.Slot(t[0][k], n) == lo;
      var rest := t[1..];
      assert forall i, k :: 0 <= i < |rest| && 0 <= k < |rest[i]| ==> rest[i][k] == t[i + 1][k];
      DataInSlot(c, rest, n, lo + 1, x);
      if c.Slot(x, n) != lo { assert x !in t[0]; }
    }
  }

  lemma SlotHolds(c: Client, t: Buckets, x: Ptr)
    requires c.InRange() && 0 < |t| && Hashed(c, t)
    ensures Data(t)[x] == multiset(t[c.Slot(x, |t|)])[x]
  {
    DataInSlot(c, t, |t|, 0, x);
  }

  lemma SubmultisetSize<T>(a: multiset<T>, b: multiset<T>)
    requires a <= b
    ensures |a| <= |b|
  {
    assert b == a + (b - a);
  }

  /** Two hashed tables of one size: the one with fewer data has the smaller buckets. */
  lemma HashedBucketsFollowData(c: Client, s: Buckets, t: Buckets)
    requires c.InRange() && 0 < |t| == |s| && Hashed(c, s) && Hashed(c, t)
    requires Data(s) <= Data(t)
    ensures forall i :: 0 <= i < |t| ==> multiset(s[i]) <= multiset(t[i]) && |s[i]| <= |t[i]|
  {
    forall i | 0 <= i < |t| ensures multiset(s[i]) <= multiset(t[i]) && |s[i]| <= |t[i]| {
      forall x | x in s[i] ensures multiset(s[i])[x] <= multiset(t[i])[x] {
        SlotHolds(c, s, x);
        SlotHolds(c, t, x);
        assert c.Slot(x, |t|) == i;
      }
      SubmultisetSize(multiset(s[i]), multiset(t[i]));
    }
  }

  lemma HashedBucketsAgree(c: Client, s: Buckets, t: Buckets)
    requires c.InRange() && 0 < |t| == |s| && Hashed(c, s) && Hashed(c, t)
    requires Data(s) == Data(t)
    ensures forall i :: 0 <= i < |t| ==> multiset(s[i]) == multiset(t[i])
    ensures Size(s) == Size(t) && Used(s) == Used(t)
  {
    HashedBucketsFollowData(c, s, t);
    HashedBucketsFollowData(c, t, s);
    OverflowMonotone(s, t);
    OverflowMonotone(t, s);
    OverflowIsSizeLessUsed(s);
    OverflowIsSizeLessUsed(t);
  }
}
