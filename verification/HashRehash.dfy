/**
 * Resizing as functions on values.  `Heap` decides, for every allocation call by its number,
 * whether it succeeds, so a statement about every heap covers every pattern of failures.
 */
module HashRehash {
  import opened Multisets
  import opened HashBuckets

  type Heap = nat -> bool

  /** A transfer in progress.  Both tables share the free list, of which only the length matters. */
  datatype Move = Move(dst: Buckets, src: Buckets, free: nat, calls: nat)

  /** Overflow entries go over one by one; one that becomes a head is freed for later use. */
  ghost function MoveChain(c: Client, dst: Buckets, free: nat, xs: seq<Ptr>): (r: (Buckets, nat))
    requires c.InRange() && 0 < |dst|
    ensures |r.0| == |dst|
    decreases |xs|
  {
    if xs == [] then (dst, free)
    else
      var gain := if dst[c.Slot(xs[0], |dst|)] == [] then 1 else 0;
      MoveChain(c, Put(c, dst, xs[0]), free + gain, xs[1..])
  }

  /** Moving `xs` on from here gives the result `goal`. */
  ghost predicate ChainLeadsTo(c: Client, dst: Buckets, free: nat, xs: seq<Ptr>, goal: (Buckets, nat)) {
    c.InRange() && 0 < |dst| && MoveChain(c, dst, free, xs) == goal
  }

  lemma ChainStep(c: Client, dst: Buckets, free: nat, xs: seq<Ptr>, goal: (Buckets, nat))
    requires xs != [] && ChainLeadsTo(c, dst, free, xs, goal)
    ensures var gain := if dst[c.Slot(xs[0], |dst|)] == [] then 1 else 0;
            ChainLeadsTo(c, Put(c, dst, xs[0]), free + gain, xs[1..], goal)
  {
  }

  /** The chain of bucket `i` has gone; its head is still there. */
  ghost function MoveOverflow(c: Client, m: Move, i: nat): (m': Move)
    requires c.InRange() && 0 < |m.dst| && i < |m.src| && m.src[i] != []
    ensures |m'.dst| == |m.dst| && |m'.src| == |m.src| && m'.calls == m.calls
  {
    var r := MoveChain(c, m.dst, m.free, m.src[i][1..]);
    Move(r.0, m.src[i := m.src[i][..1]], r.1, m.calls)
  }

  lemma OverflowLeads(c: Client, m: Move, i: nat) returns (goal: (Buckets, nat))
    requires c.InRange() && 0 < |m.dst| && i < |m.src| && m.src[i] != []
    ensures ChainLeadsTo(c, m.dst, m.free, m.src[i][1..], goal)
    ensures MoveOverflow(c, m, i) == Move(goal.0, m.src[i := m.src[i][..1]], goal.1, m.calls)
  {
    goal := MoveChain(c, m.dst, m.free, m.src[i][1..]);
  }

  /** A lone head goes over; it may need an overflow entry, recycled or allocated. */
  ghost function MoveHead(c: Client, heap: Heap, m: Move, i: nat): (r: (Move, bool))
    requires c.InRange() && 0 < |m.dst| && i < |m.src| && |m.src[i]| == 1
    ensures |r.0.dst| == |m.dst| && |r.0.src| == |m.src|
  {
    var x := m.src[i][0];
    var dst, src := Put(c, m.dst, x), m.src[i := []];
    if m.dst[c.Slot(x, |m.dst|)] == [] then (Move(dst, src, m.free, m.calls), true)
    else if 0 < m.free then (Move(dst, src, m.free - 1, m.calls), true)
    else if heap(m.calls) then (Move(dst, src, m.free, m.calls + 1), true)
    else (m.(calls := m.calls + 1), false)
  }

  ghost function MoveBucket(c: Client, heap: Heap, m: Move, i: nat, safe: bool): (r: (Move, bool))
    requires c.InRange() && 0 < |m.dst| && i < |m.src|
    ensures |r.0.dst| == |m.dst| && |r.0.src| == |m.src|
  {
    if m.src[i] == [] then (m, true)
    else if safe then (MoveOverflow(c, m, i), true)
    else MoveHead(c, heap, MoveOverflow(c, m, i), i)
  }

  /** `transfer_entries` from bucket `i` on; false when an allocation failed. */
  ghost function Transfer(c: Client, heap: Heap, m: Move, i: nat, safe: bool): (r: (Move, bool))
    requires c.InRange() && 0 < |m.dst| && i <= |m.src|
    ensures |r.0.dst| == |m.dst| && |r.0.src| == |m.src|
    decreases |m.src| - i
  {
    if i == |m.src| then (m, true)
    else
      var r := MoveBucket(c, heap, m, i, safe);
      if r.1 then Transfer(c, heap, r.0, i + 1, safe) else r
  }

  /** Going on from here gives the result `goal`. */
  ghost predicate LeadsTo(c: Client, heap: Heap, m: Move, i: nat, safe: bool, goal: (Move, bool)) {
    && c.InRange() && 0 < |m.dst| && i <= |m.src|
    && Transfer(c, heap, m, i, safe) == goal
  }

  lemma TransferLeads(c: Client, heap: Heap, m: Move, safe: bool) returns (goal: (Move, bool))
    requires c.InRange() && 0 < |m.dst|
    ensures LeadsTo(c, heap, m, 0, safe, goal)
  {
    goal := Transfer(c, heap, m, 0, safe);
  }

  lemma TransferStep(c: Client, heap: Heap, m: Move, i: nat, safe: bool, goal: (Move, bool))
    requires LeadsTo(c, heap, m, i, safe, goal) && i < |m.src|
    ensures var r := MoveBucket(c, heap, m, i, safe);
            if r.1 then LeadsTo(c, heap, r.0, i + 1, safe, goal) else r == goal
  {
  }

  lemma TransferEnds(c: Client, heap: Heap, m: Move, i: nat, safe: bool, goal: (Move, bool))
    requires LeadsTo(c, heap, m, i, safe, goal) && i == |m.src|
    ensures goal == (m, true)
  {
  }

  // ---- What every step of a transfer keeps

  ghost function AllData(m: Move): multiset<Ptr> { Data(m.dst) + Data(m.src) }

  /** All overflow entries in existence: chained in either table, or free. */
  ghost function Nodes(m: Move): nat { Overflow(m.dst) + Overflow(m.src) + m.free }

  /** Data are conserved; no overflow entry is lost and a new one costs an allocation call. */
  ghost predicate Conserves(m: Move, m': Move) {
    && AllData(m') == AllData(m)
    && 0 <= Nodes(m') - Nodes(m) <= m'.calls - m.calls
  }

  /** The target stays hashed, NULL stays out, and the source only loses data. */
  ghost predicate Orderly(c: Client, m: Move, m': Move)
    requires c.InRange() && |m'.src| == |m.src|
  {
    && (Hashed(c, m.dst) ==> Hashed(c, m'.dst))
    && (NonNull(m.dst) && NonNull(m.src) ==> NonNull(m'.dst) && NonNull(m'.src))
    && (forall i :: 0 <= i < |m.src| ==> m'.src[i] <= m.src[i])
  }

  lemma {:induction false} MoveChainConserves(c: Client, dst: Buckets, free: nat, xs: seq<Ptr>)
    requires c.InRange() && 0 < |dst|
    ensures var r := MoveChain(c, dst, free, xs);
            && Data(r.0) == Data(dst) + multiset(xs)
            && Overflow(r.0) + r.1 == Overflow(dst) + free + |xs|
    decreases |xs|
  {
    if xs != [] {
      var x, dst' := xs[0], Put(c, dst, xs[0]);
      var gain := if dst[c.Slot(x, |dst|)] == [] then 1 else 0;
      var r := MoveChain(c, dst', free + gain, xs[1..]);
      assert MoveChain(c, dst, free, xs) == r;
      assert Data(dst') == Data(dst) + multiset{x} && Overflow(dst') + gain == Overflow(dst) + 1 by {
        PutLaws(c, dst, x);
      }
      MoveChainConserves(c, dst', free + gain, xs[1..]);
      HeadAndTail(xs);
      MultisetAssoc(Data(dst), multiset{x}, multiset(xs[1..]));
    }
  }

  lemma {:induction false} MoveChainOrderly(c: Client, dst: Buckets, free: nat, xs: seq<Ptr>)
    requires c.InRange() && 0 < |dst|
    ensures var r := MoveChain(c, dst, free, xs);
            && (Hashed(c, dst) ==> Hashed(c, r.0))
            && (NonNull(dst) && NULL !in xs ==> NonNull(r.0))
    decreases |xs|
  {
    if xs != [] {
      PutStaysHashed(c, dst, xs[0]);
      var gain := if dst[c.Slot(xs[0], |dst|)] == [] then 1 else 0;
      MoveChainOrderly(c, Put(c, dst, xs[0]), free + gain, xs[1..]);
    }
  }

  /** Replacing a bucket by a prefix of it. */
  lemma CutBucket(t: Buckets, i: nat, n: nat)
    requires i < |t| && n <= |t[i]|
    ensures Data(t) == Data(t[i := t[i][..n]]) + multiset(t[i][n..])
    ensures n == 1 ==> Overflow(t) == Overflow(t[i := t[i][..n]]) + |t[i]| - 1
    ensures n == 0 && |t[i]| == 1 ==> Overflow(t) == Overflow(t[i := []])
    ensures NonNull(t) ==> NonNull(t[i := t[i][..n]])
  {
    ReplaceBucket(t, i, t[i][..n]);
    OverflowIsSizeLessUsed(t);
    OverflowIsSizeLessUsed(t[i := t[i][..n]]);
    CutBucketData(t, i, n);
    assert t[i][..0] == [];
  }

  lemma CutBucketData(t: Buckets, i: nat, n: nat)
    requires i < |t| && n <= |t[i]|
    ensures Data(t) == Data(t[i := t[i][..n]]) + multiset(t[i][n..])
  {
    var b := t[i];
    var t' := t[i := b[..n]];
    ReplaceBucketData(t, i, b[..n]);
    assert b == b[..n] + b[n..];
    assert Data(t') + multiset(b[n..]) + multiset(b[..n]) == Data(t') + multiset(b);
    MultisetCancel(Data(t') + multiset(b[n..]), Data(t), multiset(b[..n]));
  }

  lemma CutStaysNonNull(t: Buckets, i: nat, b: Bucket)
    requires NonNull(t) && i < |t| && b <= t[i]
    ensures NonNull(t[i := b])
  {
  }

  lemma MoveBucketSource(c: Client, heap: Heap, m: Move, i: nat, safe: bool)
    requires c.InRange() && 0 < |m.dst| && i < |m.src| && NonNull(m.src)
    ensures NonNull(MoveBucket(c, heap, m, i, safe).0.src)
  {
  }

  lemma MoveOverflowConserves(c: Client, m: Move, i: nat)
    requires c.InRange() && 0 < |m.dst| && i < |m.src| && m.src[i] != []
    ensures var m' := MoveOverflow(c, m, i); Conserves(m, m') && Nodes(m') == Nodes(m)
  {
    var xs := m.src[i][1..];
    var m' := MoveOverflow(c, m, i);
    MoveChainConserves(c, m.dst, m.free, xs);
    CutBucket(m.src, i, 1);
    assert AllData(m') == Data(m.dst) + (Data(m'.src) + multiset(xs));
  }

  lemma MoveOverflowOrderly(c: Client, m: Move, i: nat)
    requires c.InRange() && 0 < |m.dst| && i < |m.src| && m.src[i] != []
    ensures Orderly(c, m, MoveOverflow(c, m, i))
  {
    MoveChainOrderly(c, m.dst, m.free, m.src[i][1..]);
  }

  lemma LoneHeadMoves(c: Client, m: Move, i: nat)
    requires c.InRange() && 0 < |m.dst| && i < |m.src| && |m.src[i]| == 1
    ensures var x := m.src[i][0];
            && Data(Put(c, m.dst, x)) + Data(m.src[i := []]) == AllData(m)
            && Overflow(m.src[i := []]) == Overflow(m.src)
            && Overflow(Put(c, m.dst, x)) == Overflow(m.dst) + (if m.dst[c.Slot(x, |m.dst|)] == [] then 0 else 1)
  {
    var x, b := m.src[i][0], m.src[i];
    assert b[..0] == [] && b[0..] == b == [x];
    PutLaws(c, m.dst, x);
    CutBucket(m.src, i, 0);
    MultisetAssoc(Data(m.dst), multiset{x}, Data(m.src[i := []]));
  }

  lemma MoveHeadConserves(c: Client, heap: Heap, m: Move, i: nat)
    requires c.InRange() && 0 < |m.dst| && i < |m.src| && |m.src[i]| == 1
    ensures var r := MoveHead(c, heap, m, i);
            Conserves(m, r.0) && (!r.1 ==> r.0.free == 0)
  {
    var r := MoveHead(c, heap, m, i);
    if r.1 {
      LoneHeadMoves(c, m, i);
      assert AllData(r.0) == AllData(m);
      assert Nodes(r.0) == Nodes(m) + (r.0.calls - m.calls);
    }
  }

  lemma MoveHeadOrderly(c: Client, heap: Heap, m: Move, i: nat)
    requires c.InRange() && 0 < |m.dst| && i < |m.src| && |m.src[i]| == 1
    ensures Orderly(c, m, MoveHead(c, heap, m, i).0)
  {
    PutStaysHashed(c, m.dst, m.src[i][0]);
  }

  lemma MoveBucketKeeps(c: Client, heap: Heap, m: Move, i: nat, safe: bool)
    requires c.InRange() && 0 < |m.dst| && i < |m.src|
    ensures var r := MoveBucket(c, heap, m, i, safe);
            && Conserves(m, r.0) && Orderly(c, m, r.0)
            && (!r.1 ==> !safe && r.0.free == 0)
            && (safe ==> r.0.calls == m.calls)
            && (forall j :: 0 <= j < |m.src| && j != i ==> r.0.src[j] == m.src[j])
            && (r.1 ==> |r.0.src[i]| <= if safe then 1 else 0)
  {
    if m.src[i] != [] {
      var m1 := MoveOverflow(c, m, i);
      MoveOverflowConserves(c, m, i);
      MoveOverflowOrderly(c, m, i);
      if !safe {
        MoveHeadConserves(c, heap, m1, i);
        MoveHeadOrderly(c, heap, m1, i);
      }
    }
  }

  /** The laws of `transfer_entries`, for every heap. */
  lemma {:induction false} TransferKeeps(c: Client, heap: Heap, m: Move, i: nat, safe: bool)
    requires c.InRange() && 0 < |m.dst| && i <= |m.src|
    ensures var r := Transfer(c, heap, m, i, safe);
            && Conserves(m, r.0) && Orderly(c, m, r.0)
            && (!r.1 ==> !safe && r.0.free == 0)
            && (safe ==> r.0.calls == m.calls)
            && (forall j :: 0 <= j < i ==> r.0.src[j] == m.src[j])
            && (r.1 ==> forall j :: i <= j < |m.src| ==> |r.0.src[j]| <= if safe then 1 else 0)
    decreases |m.src| - i
  {
    if i < |m.src| {
      MoveBucketKeeps(c, heap, m, i, safe);
      var r := MoveBucket(c, heap, m, i, safe);
      if r.1 { TransferKeeps(c, heap, r.0, i + 1, safe); }
    }
  }

  // ---- Undoing a failed transfer never allocates

  lemma {:induction false} LoneHeadsHaveNoOverflow(t: Buckets)
    requires forall i :: 0 <= i < |t| ==> |t[i]| <= 1
    ensures Overflow(t) == 0
  {
    if t != [] { LoneHeadsHaveNoOverflow(t[1..]); }
  }

  lemma {:induction false} NoBucketsLeft(t: Buckets)
    requires forall i :: 0 <= i < |t| ==> t[i] == []
    ensures Data(t) == multiset{}
  {
    if t != [] { NoBucketsLeft(t[1..]); }
  }

  lemma NoChainToMove(c: Client, m: Move, i: nat)
    requires c.InRange() && 0 < |m.dst| && i < |m.src| && |m.src[i]| == 1
    ensures MoveOverflow(c, m, i) == m
  {
    assert m.src[i][1..] == [] && m.src[i][..1] == m.src[i];
    assert m.src[i := m.src[i]] == m.src;
  }

  /**
   * A hashed table under refill from the data of `full` never chains more than `full` did, so an
   * entry is free whenever one is needed.
   */
  lemma FreeEntryForHead(c: Client, m: Move, i: nat, full: Buckets)
    requires c.InRange() && 0 < |m.dst| == |full| && i < |m.src| && |m.src[i]| == 1
    requires Hashed(c, m.dst) && Hashed(c, full) && AllData(m) == Data(full)
    requires Overflow(m.src) == 0 && Overflow(full) <= Nodes(m)
    ensures m.dst[c.Slot(m.src[i][0], |m.dst|)] != [] ==> 0 < m.free
  {
    var x := m.src[i][0];
    var dst' := Put(c, m.dst, x);
    LoneHeadMoves(c, m, i);
    PutStaysHashed(c, m.dst, x);
    assert Data(dst') <= Data(full);
    HashedBucketsFollowData(c, dst', full);
    OverflowMonotone(dst', full);
  }

  lemma {:induction false} RefillNeedsNoMemory(c: Client, heap: Heap, m: Move, i: nat, full: Buckets)
    requires c.InRange() && 0 < |m.dst| == |full| && i <= |m.src|
    requires Hashed(c, m.dst) && Hashed(c, full) && AllData(m) == Data(full)
    requires forall j :: 0 <= j < |m.src| ==> |m.src[j]| <= 1
    requires Overflow(full) <= Nodes(m)
    ensures var r := Transfer(c, heap, m, i, false); r.1 && r.0.calls == m.calls
    decreases |m.src| - i
  {
    if i < |m.src| {
      MoveBucketKeeps(c, heap, m, i, false);
      var r := MoveBucket(c, heap, m, i, false);
      if m.src[i] != [] {
        LoneHeadsHaveNoOverflow(m.src);
        NoChainToMove(c, m, i);
        FreeEntryForHead(c, m, i, full);
      }
      RefillNeedsNoMemory(c, heap, r.0, i + 1, full);
    }
  }

  lemma PrefixStaysHashed(c: Client, s: Buckets, t: Buckets)
    requires c.InRange() && |s| == |t| && 0 < |t| && Hashed(c, t)
    requires forall i :: 0 <= i < |t| ==> s[i] <= t[i]
    ensures Hashed(c, s)
  {
    forall i, k | 0 <= i < |s| && 0 <= k < |s[i]| ensures c.Slot(s[i][k], |s|) == i {
      assert s[i][k] == t[i][k];
    }
  }

  /** The two passes of the rollback, from any point at which the transfer out of `full` failed. */
  ghost function Rollback(c: Client, heap: Heap, m: Move): (r: (Move, bool))
    requires c.InRange() && 0 < |m.src|
  {
    var back := Transfer(c, heap, Move(m.src, m.dst, m.free, m.calls), 0, true);
    if back.1 then Transfer(c, heap, back.0, 0, false) else back
  }

  lemma RollbackRestores(c: Client, heap: Heap, m: Move, full: Buckets)
    requires c.InRange() && 0 < |full| == |m.src| && Hashed(c, full)
    requires forall i :: 0 <= i < |full| ==> m.src[i] <= full[i]
    requires AllData(m) == Data(full) && Overflow(full) <= Nodes(m)
    ensures var r := Rollback(c, heap, m);
            && r.1 && r.0.calls == m.calls
            && |r.0.dst| == |full| && Hashed(c, r.0.dst) && Data(r.0.dst) == Data(full)
            && Nodes(m) == Overflow(r.0.dst) + r.0.free
            && (NonNull(m.src) && NonNull(m.dst) ==> NonNull(r.0.dst))
  {
    PrefixStaysHashed(c, m.src, full);
    var m0 := Move(m.src, m.dst, m.free, m.calls);
    MultisetAssoc(Data(m.dst), Data(m.src), multiset{});
    TransferKeeps(c, heap, m0, 0, true);
    var m1 := Transfer(c, heap, m0, 0, true).0;
    RefillNeedsNoMemory(c, heap, m1, 0, full);
    TransferKeeps(c, heap, m1, 0, false);
    var m2 := Transfer(c, heap, m1, 0, false).0;
    NoBucketsLeft(m2.src);
    LoneHeadsHaveNoOverflow(m2.src);
  }

  // ---- hash_rehash

  /** `hash_rehash` either resized, or gave up, or reached `abort ()`. */
  datatype Outcome = Resized(t: Store) | GaveUp(t: Store) | Aborted

  /** The buckets, the length of the free list, and the allocation calls made so far. */
  datatype Store = Store(buckets: Buckets, free: nat, calls: nat)

  ghost function Rehash(c: Client, heap: Heap, t: Store, newSize: nat): Outcome
    requires c.InRange() && 0 < |t.buckets|
  {
    if newSize == 0 then GaveUp(t)
    else if newSize == |t.buckets| then Resized(t)
    else if !heap(t.calls) then GaveUp(t.(calls := t.calls + 1))
    else
      var there := Transfer(c, heap, Move(Empty(newSize), t.buckets, t.free, t.calls + 1), 0, false);
      if there.1 then Resized(Store(there.0.dst, there.0.free, there.0.calls))
      else
        var back := Rollback(c, heap, there.0);
        if back.1 then GaveUp(Store(back.0.dst, back.0.free, back.0.calls)) else Aborted
  }

  ghost predicate WellHashed(c: Client, t: Store)
    requires c.InRange()
  {
    0 < |t.buckets| && Hashed(c, t.buckets) && NonNull(t.buckets)
  }

  lemma TransferFromFull(c: Client, heap: Heap, t: Store, newSize: nat)
    requires c.InRange() && WellHashed(c, t) && 0 < newSize
    ensures var m := Move(Empty(newSize), t.buckets, t.free, t.calls);
            var r := Transfer(c, heap, m, 0, false);
            && AllData(r.0) == Data(t.buckets)
            && Overflow(t.buckets) + t.free <= Nodes(r.0)
            && Hashed(c, r.0.dst) && NonNull(r.0.dst) && NonNull(r.0.src)
            && (forall i :: 0 <= i < |t.buckets| ==> r.0.src[i] <= t.buckets[i])
            && (!r.1 ==> r.0.free == 0)
            && (r.1 ==> Data(r.0.dst) == Data(t.buckets) && Overflow(r.0.src) == 0)
  {
    var m := Move(Empty(newSize), t.buckets, t.free, t.calls);
    EmptyLaws(newSize);
    OverflowIsSizeLessUsed(Empty(newSize));
    TransferKeeps(c, heap, m, 0, false);
    var r := Transfer(c, heap, m, 0, false);
    if r.1 {
      NoBucketsLeft(r.0.src);
      LoneHeadsHaveNoOverflow(r.0.src);
    }
  }

  /** Same size, same counters, same data in every bucket, though perhaps in another order. */
  ghost predicate SameContents(s: Buckets, t: Buckets) {
    && |s| == |t| && Size(s) == Size(t) && Used(s) == Used(t) && Data(s) == Data(t)
    && forall i :: 0 <= i < |t| ==> multiset(s[i]) == multiset(t[i])
  }

  lemma FailedTransferIsUndone(c: Client, heap: Heap, t: Store, newSize: nat)
    requires c.InRange() && WellHashed(c, t) && 0 < newSize
    requires !Transfer(c, heap, Move(Empty(newSize), t.buckets, t.free, t.calls + 1), 0, false).1
    ensures var m := Transfer(c, heap, Move(Empty(newSize), t.buckets, t.free, t.calls + 1), 0, false).0;
            var r := Rollback(c, heap, m);
            && r.1 && WellHashed(c, Store(r.0.dst, r.0.free, r.0.calls))
            && SameContents(r.0.dst, t.buckets)
            && r.0.calls == m.calls && Nodes(m) == Overflow(r.0.dst) + r.0.free
            && Overflow(t.buckets) + t.free <= Overflow(r.0.dst) + r.0.free
  {
    TransferFromFull(c, heap, t.(calls := t.calls + 1), newSize);
    var m := Transfer(c, heap, Move(Empty(newSize), t.buckets, t.free, t.calls + 1), 0, false).0;
    RollbackRestores(c, heap, m, t.buckets);
    HashedBucketsAgree(c, Rollback(c, heap, m).0.dst, t.buckets);
  }

  /**
   * `abort ()` was not reached; a resize kept the data; giving up left the size, both counters and
   * the data of every bucket as they were.  In either case no overflow entry was lost.
   */
  ghost predicate AllOrNothing(c: Client, t: Store, newSize: nat, r: Outcome)
    requires c.InRange()
  {
    && !r.Aborted?
    && WellHashed(c, r.t)
    && Data(r.t.buckets) == Data(t.buckets)
    && Overflow(t.buckets) + t.free <= Overflow(r.t.buckets) + r.t.free
    && (r.Resized? ==> |r.t.buckets| == newSize)
    && (r.GaveUp? ==> SameContents(r.t.buckets, t.buckets))
  }

  lemma DeclinedIsNothing(c: Client, heap: Heap, t: Store, newSize: nat)
    requires c.InRange() && WellHashed(c, t)
    requires newSize == 0 || newSize == |t.buckets| || !heap(t.calls)
    ensures AllOrNothing(c, t, newSize, Rehash(c, heap, t, newSize))
  {
  }

  lemma MovedStore(c: Client, heap: Heap, t: Store, newSize: nat)
    requires c.InRange() && WellHashed(c, t) && 0 < newSize
    requires Transfer(c, heap, Move(Empty(newSize), t.buckets, t.free, t.calls + 1), 0, false).1
    ensures var m := Transfer(c, heap, Move(Empty(newSize), t.buckets, t.free, t.calls + 1), 0, false).0;
            AllOrNothing(c, t, newSize, Resized(Store(m.dst, m.free, m.calls)))
  {
    TransferFromFull(c, heap, t.(calls := t.calls + 1), newSize);
  }

  lemma MovedIsAll(c: Client, heap: Heap, t: Store, newSize: nat)
    requires c.InRange() && WellHashed(c, t) && newSize != 0 && newSize != |t.buckets| && heap(t.calls)
    requires Transfer(c, heap, Move(Empty(newSize), t.buckets, t.free, t.calls + 1), 0, false).1
    ensures AllOrNothing(c, t, newSize, Rehash(c, heap, t, newSize))
  {
    MovedStore(c, heap, t, newSize);
  }

  lemma UndoneIsNothing(c: Client, heap: Heap, t: Store, newSize: nat)
    requires c.InRange() && WellHashed(c, t) && newSize != 0 && newSize != |t.buckets| && heap(t.calls)
    requires !Transfer(c, heap, Move(Empty(newSize), t.buckets, t.free, t.calls + 1), 0, false).1
    ensures AllOrNothing(c, t, newSize, Rehash(c, heap, t, newSize))
  {
    FailedTransferIsUndone(c, heap, t, newSize);
  }

  /** For every pattern of allocation failures, `hash_rehash` is all or nothing. */
  lemma RehashIsAllOrNothing(c: Client, heap: Heap, t: Store, newSize: nat)
    requires c.InRange() && WellHashed(c, t)
    ensures AllOrNothing(c, t, newSize, Rehash(c, heap, t, newSize))
  {
    if newSize == 0 || newSize == |t.buckets| || !heap(t.calls) {
      DeclinedIsNothing(c, heap, t, newSize);
    } else if Transfer(c, heap, Move(Empty(newSize), t.buckets, t.free, t.calls + 1), 0, false).1 {
      MovedIsAll(c, heap, t, newSize);
    } else {
      UndoneIsNothing(c, heap, t, newSize);
    }
  }
}
