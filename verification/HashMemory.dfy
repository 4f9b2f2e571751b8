/** What the operations of the table ask of memory: when they fail, when they resize, and that they recycle. */
module HashMemory {
  import opened HashBuckets
  import opened HashRehash

  /** Every allocation call from number `lo` on, below `hi`, succeeds. */
  ghost predicate AllServed(heap: Heap, lo: nat, hi: nat) {
    forall k :: lo <= k < hi ==> heap(k)
  }

  /** How many of those calls succeed. */
  ghost function Granted(heap: Heap, lo: nat, hi: nat): nat {
    if hi <= lo then 0 else Granted(heap, lo, hi - 1) + if heap(hi - 1) then 1 else 0
  }

  lemma {:induction false} GrantedJoin(heap: Heap, lo: nat, mid: nat, hi: nat)
    requires lo <= mid <= hi
    ensures Granted(heap, lo, hi) == Granted(heap, lo, mid) + Granted(heap, mid, hi)
    decreases hi
  {
    if mid < hi { GrantedJoin(heap, lo, mid, hi - 1); }
  }

  // ---- transfer_entries

  /** The step asks for entries it needs, succeeds exactly when it gets them, and adds exactly those. */
  ghost predicate Accounts(heap: Heap, m: Move, m': Move, ok: bool) {
    && m.calls <= m'.calls
    && (ok <==> AllServed(heap, m.calls, m'.calls))
    && Nodes(m') == Nodes(m) + Granted(heap, m.calls, m'.calls)
  }

  lemma MoveHeadAccounts(c: Client, heap: Heap, m: Move, i: nat)
    requires c.InRange() && 0 < |m.dst| && i < |m.src| && |m.src[i]| == 1
    ensures var r := MoveHead(c, heap, m, i); Accounts(heap, m, r.0, r.1)
  {
    LoneHeadMoves(c, m, i);
    assert Granted(heap, m.calls, m.calls) == 0;
  }

  lemma MoveBucketAccounts(c: Client, heap: Heap, m: Move, i: nat, safe: bool)
    requires c.InRange() && 0 < |m.dst| && i < |m.src|
    ensures var r := MoveBucket(c, heap, m, i, safe); Accounts(heap, m, r.0, r.1)
  {
    if m.src[i] != [] {
      MoveOverflowConserves(c, m, i);
      if !safe { MoveHeadAccounts(c, heap, MoveOverflow(c, m, i), i); }
    }
  }

  lemma AccountsJoin(heap: Heap, m: Move, m1: Move, m2: Move, ok: bool)
    requires Accounts(heap, m, m1, true) && Accounts(heap, m1, m2, ok)
    ensures Accounts(heap, m, m2, ok)
  {
    GrantedJoin(heap, m.calls, m1.calls, m2.calls);
  }

  /** `transfer_entries` fails exactly when an allocation it asked for failed. */
  lemma {:induction false} TransferAccounts(c: Client, heap: Heap, m: Move, i: nat, safe: bool)
    requires c.InRange() && 0 < |m.dst| && i <= |m.src|
    ensures var r := Transfer(c, heap, m, i, safe); Accounts(heap, m, r.0, r.1)
    decreases |m.src| - i
  {
    if i < |m.src| {
      MoveBucketAccounts(c, heap, m, i, safe);
      var r := MoveBucket(c, heap, m, i, safe);
      if r.1 {
        TransferAccounts(c, heap, r.0, i + 1, safe);
        var r' := Transfer(c, heap, r.0, i + 1, safe);
        AccountsJoin(heap, m, r.0, r'.0, r'.1);
      }
    }
  }

  // ---- hash_rehash

  /** All overflow entries of a table: in chains, or free. */
  ghost function Entries(t: Store): nat { Overflow(t.buckets) + t.free }

  /** A resize that is not declined beforehand. */
  ghost predicate Attempted(t: Store, newSize: nat) { newSize != 0 && newSize != |t.buckets| }

  /**
   * `hash_rehash` gives up exactly when it is asked for nothing or an allocation call it made failed.
   * Apart from the new bucket array, every successful call has added one overflow entry, and none is
   * lost.
   */
  ghost predicate RehashAccounted(heap: Heap, t: Store, newSize: nat, r: Outcome) {
    && !r.Aborted? && t.calls <= r.t.calls
    && (r.GaveUp? <==> newSize == 0 || !AllServed(heap, t.calls, r.t.calls))
    && (if Attempted(t, newSize) then t.calls < r.t.calls && Entries(r.t) == Entries(t) + Granted(heap, t.calls + 1, r.t.calls)
        else r.t == t)
  }

  lemma RehashGivesUpExactlyWhen(c: Client, heap: Heap, t: Store, newSize: nat)
    requires c.InRange() && WellHashed(c, t)
    ensures RehashAccounted(heap, t, newSize, Rehash(c, heap, t, newSize))
  {
    if Attempted(t, newSize) && heap(t.calls) {
      AttemptAccounted(c, heap, t, newSize);
    }
  }

  lemma AttemptAccounted(c: Client, heap: Heap, t: Store, newSize: nat)
    requires c.InRange() && WellHashed(c, t) && Attempted(t, newSize) && heap(t.calls)
    ensures RehashAccounted(heap, t, newSize, Rehash(c, heap, t, newSize))
  {
    if Transfer(c, heap, Move(Empty(newSize), t.buckets, t.free, t.calls + 1), 0, false).1 {
      MoveAccounted(c, heap, t, newSize);
    } else {
      UndoAccounted(c, heap, t, newSize);
    }
  }

  lemma FromEmptyAccounts(c: Client, heap: Heap, t: Store, newSize: nat)
    requires c.InRange() && 0 < newSize && heap(t.calls)
    ensures var there := Transfer(c, heap, Move(Empty(newSize), t.buckets, t.free, t.calls + 1), 0, false);
            && t.calls < there.0.calls && (there.1 <==> AllServed(heap, t.calls, there.0.calls))
            && Nodes(there.0) == Entries(t) + Granted(heap, t.calls + 1, there.0.calls)
  {
    var m := Move(Empty(newSize), t.buckets, t.free, t.calls + 1);
    EmptyLaws(newSize);
    OverflowIsSizeLessUsed(Empty(newSize));
    TransferAccounts(c, heap, m, 0, false);
  }

  lemma MoveAccounted(c: Client, heap: Heap, t: Store, newSize: nat)
    requires c.InRange() && WellHashed(c, t) && Attempted(t, newSize) && heap(t.calls)
    requires Transfer(c, heap, Move(Empty(newSize), t.buckets, t.free, t.calls + 1), 0, false).1
    ensures RehashAccounted(heap, t, newSize, Rehash(c, heap, t, newSize))
  {
    FromEmptyAccounts(c, heap, t, newSize);
    TransferFromFull(c, heap, t.(calls := t.calls + 1), newSize);
  }

  lemma UndoAccounted(c: Client, heap: Heap, t: Store, newSize: nat)
    requires c.InRange() && WellHashed(c, t) && Attempted(t, newSize) && heap(t.calls)
    requires !Transfer(c, heap, Move(Empty(newSize), t.buckets, t.free, t.calls + 1), 0, false).1
    ensures RehashAccounted(heap, t, newSize, Rehash(c, heap, t, newSize))
  {
    FromEmptyAccounts(c, heap, t, newSize);
    FailedTransferIsUndone(c, heap, t, newSize);
  }

  // ---- Enough spare entries

  /** With a free entry for every head, but one if the target is empty, a transfer allocates nothing. */
  lemma {:induction false} SpareEntriesSuffice(c: Client, heap: Heap, m: Move, i: nat)
    requires c.InRange() && 0 < |m.dst| && i <= |m.src|
    requires Used(m.src[i..]) <= m.free + if Size(m.dst) == 0 then 1 else 0
    ensures var r := Transfer(c, heap, m, i, false); r.1 && r.0.calls == m.calls
    decreases |m.src| - i
  {
    if i < |m.src| {
      BucketTakesOne(c, heap, m, i);
      var r := MoveBucket(c, heap, m, i, false);
      SpareEntriesSuffice(c, heap, r.0, i + 1);
    }
  }

  lemma BucketTakesOne(c: Client, heap: Heap, m: Move, i: nat)
    requires c.InRange() && 0 < |m.dst| && i < |m.src|
    requires Used(m.src[i..]) <= m.free + if Size(m.dst) == 0 then 1 else 0
    ensures var r := MoveBucket(c, heap, m, i, false);
            && r.1 && r.0.calls == m.calls && r.0.src[i + 1..] == m.src[i + 1..]
            && Used(m.src[i + 1..]) <= r.0.free + if Size(r.0.dst) == 0 then 1 else 0
  {
    assert m.src[i..][0] == m.src[i] && m.src[i..][1..] == m.src[i + 1..];
    if m.src[i] != [] {
      var m1 := MoveOverflow(c, m, i);
      ChainLeavesSpare(c, m.dst, m.free, m.src[i][1..]);
      var x := m.src[i][0];
      PutLaws(c, m1.dst, x);
      if Size(m1.dst) == 0 { NoneStored(m1.dst, c.Slot(x, |m1.dst|)); }
    }
  }

  lemma {:induction false} NoneStored(t: Buckets, i: nat)
    requires Size(t) == 0 && i < |t|
    ensures t[i] == []
  {
    if i > 0 { NoneStored(t[1..], i - 1); }
  }

  lemma {:induction false} ChainLeavesSpare(c: Client, dst: Buckets, free: nat, xs: seq<Ptr>)
    requires c.InRange() && 0 < |dst|
    ensures var r := MoveChain(c, dst, free, xs);
            && Size(r.0) == Size(dst) + |xs| && free <= r.1
            && (Size(dst) == 0 && xs != [] ==> free < r.1)
    decreases |xs|
  {
    if xs != [] {
      PutLaws(c, dst, xs[0]);
      if Size(dst) == 0 { NoneStored(dst, c.Slot(xs[0], |dst|)); }
      var gain := if dst[c.Slot(xs[0], |dst|)] == [] then 1 else 0;
      ChainLeavesSpare(c, Put(c, dst, xs[0]), free + gain, xs[1..]);
    }
  }

  /** With as many free entries as used buckets, less one, a rehash asks for the new buckets and no more. */
  lemma RehashWithSpareEntries(c: Client, heap: Heap, t: Store, newSize: nat)
    requires c.InRange() && WellHashed(c, t) && Used(t.buckets) <= t.free + 1
    requires Attempted(t, newSize) && heap(t.calls)
    ensures Rehash(c, heap, t, newSize).Resized? && Rehash(c, heap, t, newSize).t.calls == t.calls + 1
  {
    EmptyLaws(newSize);
    assert t.buckets[0..] == t.buckets;
    SpareEntriesSuffice(c, heap, Move(Empty(newSize), t.buckets, t.free, t.calls + 1), 0);
  }
}
