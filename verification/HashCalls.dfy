/** The public functions of gnulib/lib/hash.c, each refining its specification on values. */
module HashCalls {
  import opened HashBuckets
  import opened HashRehash
  import opened HashSizing
  import opened HashTable
  import opened HashApi
  import Ops = HashOps
  import Growth = HashGrowth
  import Primes

  /** Structure and invariant; the entry counter is left out, as it lags behind within a call. */
  ghost predicate Sound(t: Hashtable)
    reads t, t.nodes, t.freeList, t.freeList.repr, t.memory
  {
    t.Good() && t.client.Lawful() && Ops.Inv(t.client, Model(t))
  }

  lemma DataIsNonNull(t: Buckets, i: nat)
    requires NonNull(t) && i < |t|
    ensures NULL !in t[i]
  {
  }

  /** `hash_lookup` */
  method Lookup(table: Hashtable, x: Ptr) returns (p: Ptr)
    requires Sound(table)
    ensures var r := Ops.Lookup(table.client, Model(table), x);
            p == if r.Found? then r.p else NULL
    ensures p != NULL <==> Ops.Lookup(table.client, Model(table), x).Found?
  {
    var i := table.Slot(x);
    assert HeadAt(table.bucket, i, NOWHERE);
    DataIsNonNull(table.contents, i);
    p := table.bucket[i].Search(table.client, x);
  }

  // ---- hash_insert_if_absent

  ghost predicate RoomMade(c: Client, heap: Heap, t: Ops.Table, ok: bool, t': Ops.Table)
  {
    && c.InRange() && 0 < |t.store.buckets| && Ops.TuningOk(t)
    && Ops.EnsureRoom(c, heap, t) == if ok then Ops.Ready(t') else Ops.Full(t')
  }

  lemma GrowthIsRoom(c: Client, heap: Heap, t: Ops.Table, ok: bool, s: Store)
    requires c.InRange() && 0 < |t.store.buckets| && Ops.TuningOk(t)
    requires Overfull(Used(t.store.buckets), |t.store.buckets|, t.tuning)
    requires Overfull(Used(t.store.buckets), |t.store.buckets|, Ops.Checked(t).tuning)
    requires Rehashed(c, heap, t.store, GrownSize(|t.store.buckets|, Ops.Checked(t).tuning), ok, s)
    ensures RoomMade(c, heap, t, ok, Ops.Checked(t).(store := s))
  {
  }

  /** The bucket count an overfull table asks for. */
  method ComputeGrownSize(n: nat, tuning: Tuning) returns (size: nat)
    requires Sane(tuning)
    ensures size == GrownSize(n, tuning)
  {
    var candidate := n as real * tuning.growthFactor;
    if !tuning.isNBuckets { candidate := candidate * tuning.growthThreshold; }
    assert candidate == GrowthCandidate(n, tuning);
    if Primes.SIZE_MAX as real <= candidate { return 0; }
    size := ComputeBucketSize(candidate.Floor, tuning);
  }

  method Grow(table: Hashtable) returns (ok: bool)
    requires table.Good() && table.client.InRange() && WellHashed(table.client, StoreOf(table)) && Sane(table.tuning)
    modifies table`bucket, table`contents, table`nodes, table`nBucketsUsed
    modifies table.freeList, table.memory, table.memory.entries
    ensures table.Good()
    ensures Rehashed(table.client, table.memory.succeeds, old(StoreOf(table)),
                     GrownSize(old(|table.bucket|), table.tuning), ok, StoreOf(table))
    ensures table.memory.OnlyGrew()
  {
    var size := ComputeGrownSize(|table.bucket|, table.tuning);
    ok := RehashTo(table, size);
  }

  method EnsureRoom(table: Hashtable) returns (ok: bool, grown: bool)
    requires Sound(table)
    modifies table`bucket, table`contents, table`nodes, table`nBucketsUsed, table`tuning, table`pinned
    modifies table.freeList, table.memory, table.memory.entries
    ensures table.Good()
    ensures RoomMade(table.client, table.memory.succeeds, old(Model(table)), ok, Model(table))
    ensures !grown ==> table.contents == old(table.contents)
    ensures table.memory.OnlyGrew()
  {
    ghost var t := Model(table);
    ok, grown := true, false;
    if Overfull(table.nBucketsUsed, |table.bucket|, table.tuning) {
      var valid := CheckTuning(table);
      if Overfull(table.nBucketsUsed, |table.bucket|, table.tuning) {
        ok := Grow(table);
        grown := true;
        GrowthIsRoom(table.client, table.memory.succeeds, t, ok, StoreOf(table));
      }
    }
  }

  ghost predicate AddedTo(c: Client, heap: Heap, t: Ops.Table, x: Ptr, ok: bool, t': Ops.Table) {
    && c.InRange() && 0 < |t.store.buckets|
    && Ops.Add(c, heap, t, x) == Ops.Reply(t', if ok then Ops.Inserted else Ops.NoMemory)
  }

  method AddNew(table: Hashtable, x: Ptr) returns (ok: bool)
    requires table.Good() && table.client.InRange() && x != NULL
    modifies table`contents, table`nodes, table`nBucketsUsed, table.freeList, table.memory, table.memory.entries
    ensures table.Good()
    ensures AddedTo(table.client, table.memory.succeeds, old(Model(table)), x, ok, Model(table))
    ensures table.memory.OnlyGrew()
  {
    ok := table.AddDatum(x);
  }

  /** 1: inserted; 0: `matched` is there already; -1: out of memory. */
  ghost predicate InsertReplied(c: Client, heap: Heap, t: Ops.Table, x: Ptr,
                                code: int, matched: Ptr, t': Ops.Table)
  {
    && c.InRange() && 0 < |t.store.buckets| && Ops.TuningOk(t)
    && var r := Ops.InsertIfAbsent(c, heap, t, x);
       && r.Reply? && r.t == t'
       && match r.answer
          case Found(p) => code == 0 && matched == p
          case Inserted => code == 1
          case _ => code == -1
  }

  lemma InsertFound(c: Client, heap: Heap, t: Ops.Table, x: Ptr)
    requires c.InRange() && 0 < |t.store.buckets| && Ops.TuningOk(t) && Ops.Lookup(c, t, x).Found?
    ensures InsertReplied(c, heap, t, x, 0, Ops.Lookup(c, t, x).p, t)
  {
  }

  lemma InsertFull(c: Client, heap: Heap, t: Ops.Table, x: Ptr, t': Ops.Table)
    requires c.Lawful() && Ops.Inv(c, t) && x != NULL
    requires !Ops.Lookup(c, t, x).Found? && RoomMade(c, heap, t, false, t')
    ensures InsertReplied(c, heap, t, x, -1, NULL, t')
  {
  }

  /** After growth the datum is still absent: the `abort ()` of the second search is not reached. */
  lemma StillAbsent(c: Client, heap: Heap, t: Ops.Table, x: Ptr, t': Ops.Table)
    requires c.Lawful() && Ops.Inv(c, t) && x != NULL
    requires !Ops.Lookup(c, t, x).Found? && RoomMade(c, heap, t, true, t')
    ensures Ops.Inv(c, t') && !Ops.Lookup(c, t', x).Found?
  {
    Ops.InsertRefinesSet(c, heap, t, x);
    Ops.EnsureRoomKeepsInv(c, heap, t);
  }

  lemma InsertAdds(c: Client, heap: Heap, t: Ops.Table, x: Ptr, t': Ops.Table, ok: bool, t'': Ops.Table)
    requires c.Lawful() && Ops.Inv(c, t) && x != NULL
    requires !Ops.Lookup(c, t, x).Found? && RoomMade(c, heap, t, true, t')
    requires AddedTo(c, heap, t', x, ok, t'')
    ensures InsertReplied(c, heap, t, x, if ok then 1 else -1, NULL, t'')
  {
    StillAbsent(c, heap, t, x, t');
  }

  /** Something absent is refused exactly when memory or the primes do not allow it. */
  lemma InsertRefused(c: Client, heap: Heap, t: Ops.Table, x: Ptr, code: int, matched: Ptr, t': Ops.Table)
    requires c.Lawful() && Ops.Inv(c, t) && x != NULL && InsertReplied(c, heap, t, x, code, matched, t')
    ensures code == -1 <==> !Ops.Lookup(c, t, x).Found? && Growth.Denied(heap, t, t')
  {
    Ops.LookupFindsTheMatch(c, t, x);
    if !Ops.Lookup(c, t, x).Found? { Growth.InsertFailsExactlyWhen(c, heap, t, x); }
  }

  lemma InsertKeeps(c: Client, heap: Heap, t: Ops.Table, x: Ptr, code: int, matched: Ptr, t': Ops.Table)
    requires c.Lawful() && Ops.Inv(c, t) && x != NULL && InsertReplied(c, heap, t, x, code, matched, t')
    ensures Ops.Inv(c, t')
    ensures Size(t'.store.buckets) == Size(t.store.buckets) + if code == 1 then 1 else 0
  {
    Ops.InsertRefinesSet(c, heap, t, x);
    Ops.InsertCounts(c, heap, t, x);
  }

  /** The search after a growth, whose success would mean `abort ()`. */
  method SearchAgain(table: Hashtable, x: Ptr)
    requires Sound(table) && !Ops.Lookup(table.client, Model(table), x).Found?
  {
    var again := Lookup(table, x);
    if again != NULL {
      assert false;  // abort ()
    }
  }

  /** There is room now, and the datum is still absent. */
  method Recheck(table: Hashtable, x: Ptr, grown: bool, ghost t: Ops.Table)
    requires table.Good() && table.client.Lawful() && Ops.Inv(table.client, t) && x != NULL
    requires !Ops.Lookup(table.client, t, x).Found?
    requires RoomMade(table.client, table.memory.succeeds, t, true, Model(table))
    ensures Sound(table)
  {
    StillAbsent(table.client, table.memory.succeeds, t, x, Model(table));
    if grown { SearchAgain(table, x); }
  }

  /** The search and the growth in front of an insertion. */
  method PrepareInsert(table: Hashtable, x: Ptr) returns (ok: bool)
    requires Sound(table) && x != NULL && !Ops.Lookup(table.client, Model(table), x).Found?
    modifies table`bucket, table`contents, table`nodes, table`nBucketsUsed, table`tuning, table`pinned
    modifies table.freeList, table.memory, table.memory.entries
    ensures table.Good()
    ensures RoomMade(table.client, table.memory.succeeds, old(Model(table)), ok, Model(table))
    ensures ok ==> Sound(table)
    ensures table.memory.OnlyGrew()
  {
    ghost var t := Model(table);
    var grown;
    ok, grown := EnsureRoom(table);
    if ok { Recheck(table, x, grown, t); }
  }

  /** The insertion of a datum that has not been found. */
  method InsertAbsent(table: Hashtable, x: Ptr) returns (code: int)
    requires Sound(table) && x != NULL && !Ops.Lookup(table.client, Model(table), x).Found?
    modifies table`bucket, table`contents, table`nodes, table`nBucketsUsed
    modifies table`tuning, table`pinned, table.freeList, table.memory, table.memory.entries
    ensures table.Good()
    ensures InsertReplied(table.client, table.memory.succeeds, old(Model(table)), x, code, NULL, Model(table))
    ensures table.memory.OnlyGrew()
  {
    ghost var c, heap, t := table.client, table.memory.succeeds, Model(table);
    var ok := PrepareInsert(table, x);
    ghost var t' := Model(table);
    if !ok {
      InsertFull(c, heap, t, x, t');
      return -1;
    }
    ok := AddNew(table, x);
    InsertAdds(c, heap, t, x, t', ok, Model(table));
    code := if ok then 1 else -1;
  }

  /** What `hash_insert_if_absent` does, with the entry counter still to be adjusted. */
  method InsertEntry(table: Hashtable, x: Ptr) returns (code: int, matched: Ptr)
    requires Sound(table) && x != NULL
    modifies table`bucket, table`contents, table`nodes, table`nBucketsUsed
    modifies table`tuning, table`pinned, table.freeList, table.memory, table.memory.entries
    ensures table.Good()
    ensures InsertReplied(table.client, table.memory.succeeds, old(Model(table)), x, code, matched, Model(table))
    ensures table.memory.OnlyGrew()
  {
    code := 0;
    matched := Lookup(table, x);
    if matched != NULL {
      InsertFound(table.client, table.memory.succeeds, Model(table), x);
    } else {
      code := InsertAbsent(table, x);
    }
  }

  /** `hash_insert_if_absent` */
  method InsertIfAbsent(table: Hashtable, x: Ptr) returns (code: int, matched: Ptr)
    requires Valid(table) && x != NULL
    modifies table`bucket, table`contents, table`nodes, table`nBucketsUsed, table`nEntries
    modifies table`tuning, table`pinned, table.freeList, table.memory, table.memory.entries
    ensures Valid(table)
    ensures InsertReplied(table.client, table.memory.succeeds, old(Model(table)), x, code, matched, Model(table))
    ensures code == -1 <==>
              !Ops.Lookup(table.client, old(Model(table)), x).Found?
              && Growth.Denied(table.memory.succeeds, old(Model(table)), Model(table))
    ensures table.memory.OnlyGrew()
  {
    ghost var t := Model(table);
    code, matched := InsertEntry(table, x);
    InsertRefused(table.client, table.memory.succeeds, t, x, code, matched, Model(table));
    InsertKeeps(table.client, table.memory.succeeds, t, x, code, matched, Model(table));
    if code == 1 {
      table.nEntries := table.nEntries + 1;
    }
  }

  // ---- hash_remove

  /** The search and the unlinking in `hash_remove`. */
  method Unlink(table: Hashtable, x: Ptr) returns (p: Ptr)
    requires Sound(table)
    modifies table`contents, table`nodes, table`nBucketsUsed, table.freeList, table.memory.entries
    ensures table.Good()
    ensures var r := Ops.Lookup(table.client, old(Model(table)), x);
            if r.Found? then p == r.p && p != NULL && Model(table) == Ops.Unlink(table.client, old(Model(table)), x)
            else p == NULL && Model(table) == old(Model(table))
  {
    var i := table.Slot(x);
    DataIsNonNull(table.contents, i);
    p := table.DeleteFrom(i, x);
  }

  ghost predicate Shrunk(c: Client, heap: Heap, t: Ops.Table, answer: Ops.Answer, t': Ops.Table) {
    && c.InRange() && 0 < |t.store.buckets| <= MAX_BUCKETS && Ops.TuningOk(t)
    && Ops.Shrink(c, heap, t, answer) == Ops.Reply(t', answer)
  }

  lemma RehashIsShrink(c: Client, heap: Heap, t: Ops.Table, answer: Ops.Answer, ok: bool, s: Store)
    requires c.InRange() && 0 < |t.store.buckets| <= MAX_BUCKETS && Ops.TuningOk(t)
    requires Sparse(Used(t.store.buckets), |t.store.buckets|, t.tuning)
    requires Sparse(Used(t.store.buckets), |t.store.buckets|, Ops.Checked(t).tuning)
    requires Rehashed(c, heap, t.store, ShrunkSize(|t.store.buckets|, Ops.Checked(t).tuning), ok, s)
    ensures Shrunk(c, heap, t, answer, Ops.Checked(t).(store := if ok then s else s.(free := 0)))
  {
  }

  method ComputeShrunkSize(n: nat, tuning: Tuning) returns (size: nat)
    requires Sane(tuning) && n <= MAX_BUCKETS
    ensures size == ShrunkSize(n, tuning)
  {
    var scaled := n as real * tuning.shrinkFactor;
    if !tuning.isNBuckets { scaled := scaled * tuning.growthThreshold; }
    ghost var k := ShrinkCandidate(n, tuning);
    assert scaled.Floor == k;
    size := ComputeBucketSize(scaled.Floor, tuning);
  }

  /** Rehashes a sparse table into a smaller one; if that fails the free entries are given up. */
  method ShrinkTo(table: Hashtable, size: nat) returns (ghost ok: bool, ghost s: Store)
    requires table.Good() && table.client.InRange() && WellHashed(table.client, StoreOf(table))
    modifies table`bucket, table`contents, table`nodes, table`nBucketsUsed
    modifies table.freeList, table.memory, table.memory.entries
    ensures table.Good() && Rehashed(table.client, table.memory.succeeds, old(StoreOf(table)), size, ok, s)
    ensures StoreOf(table) == if ok then s else s.(free := 0)
    ensures table.memory.OnlyGrew()
  {
    var done := RehashTo(table, size);
    ok, s := done, StoreOf(table);
    if !done {
      table.freeList.Release();
      assert table.Shape(NOWHERE);
    }
  }

  method ShrinkNow(table: Hashtable) returns (ghost ok: bool, ghost s: Store)
    requires table.Good() && table.client.InRange() && WellHashed(table.client, StoreOf(table))
    requires Sane(table.tuning) && |table.bucket| <= MAX_BUCKETS
    modifies table`bucket, table`contents, table`nodes, table`nBucketsUsed
    modifies table.freeList, table.memory, table.memory.entries
    ensures table.Good()
    ensures Rehashed(table.client, table.memory.succeeds, old(StoreOf(table)),
                     ShrunkSize(old(|table.bucket|), table.tuning), ok, s)
    ensures StoreOf(table) == if ok then s else s.(free := 0)
    ensures table.memory.OnlyGrew()
  {
    var size := ComputeShrunkSize(|table.bucket|, table.tuning);
    ok, s := ShrinkTo(table, size);
  }

  method Shrink(table: Hashtable, ghost answer: Ops.Answer)
    requires Sound(table)
    modifies table`bucket, table`contents, table`nodes, table`nBucketsUsed, table`tuning, table`pinned
    modifies table.freeList, table.memory, table.memory.entries
    ensures table.Good()
    ensures Shrunk(table.client, table.memory.succeeds, old(Model(table)), answer, Model(table))
    ensures table.memory.OnlyGrew()
  {
    ghost var t := Model(table);
    if Sparse(table.nBucketsUsed, |table.bucket|, table.tuning) {
      var valid := CheckTuning(table);
      if Sparse(table.nBucketsUsed, |table.bucket|, table.tuning) {
        ghost var ok, s;
        ok, s := ShrinkNow(table);
        RehashIsShrink(table.client, table.memory.succeeds, t, answer, ok, s);
      }
    }
  }

  ghost predicate RemoveReplied(c: Client, heap: Heap, t: Ops.Table, x: Ptr, p: Ptr, t': Ops.Table) {
    && c.InRange() && 0 < |t.store.buckets| <= MAX_BUCKETS && Ops.TuningOk(t)
    && Ops.Remove(c, heap, t, x) == Ops.Reply(t', if p == NULL then Ops.NotFound else Ops.Found(p))
  }

  lemma RemoveKeeps(c: Client, heap: Heap, t: Ops.Table, x: Ptr, p: Ptr, t': Ops.Table)
    requires c.Lawful() && Ops.Inv(c, t) && RemoveReplied(c, heap, t, x, p, t')
    ensures Ops.Inv(c, t')
    ensures Size(t'.store.buckets) == Size(t.store.buckets) - if p == NULL then 0 else 1
  {
    Ops.RemoveRefinesSet(c, heap, t, x);
    Ops.RemoveCounts(c, heap, t, x);
  }

  lemma NothingToRemove(c: Client, heap: Heap, t: Ops.Table, x: Ptr)
    requires c.InRange() && Ops.Inv(c, t) && !Ops.Lookup(c, t, x).Found?
    ensures RemoveReplied(c, heap, t, x, NULL, t)
  {
  }

  /** `p` has been found for `x` and unlinked. */
  ghost predicate Unlinked(c: Client, t: Ops.Table, x: Ptr, p: Ptr, t1: Ops.Table) {
    c.Lawful() && Ops.Inv(c, t) && Ops.Lookup(c, t, x) == Ops.Found(p) && p != NULL && t1 == Ops.Unlink(c, t, x)
  }

  lemma UnlinkedKeepsInv(c: Client, t: Ops.Table, x: Ptr, p: Ptr, t1: Ops.Table)
    requires Unlinked(c, t, x, p, t1)
    ensures Ops.Inv(c, t1)
  {
    Ops.UnlinkKeepsInv(c, t, x);
  }

  /** A removal that leaves something in the bucket is over with the unlinking. */
  lemma RemovalIsUnlinking(c: Client, heap: Heap, t: Ops.Table, x: Ptr, p: Ptr, t1: Ops.Table)
    requires Unlinked(c, t, x, p, t1) && Ops.BucketOf(c, t1, x) != []
    ensures RemoveReplied(c, heap, t, x, p, t1)
  {
  }

  /** One that empties the bucket goes on to shrink the table. */
  lemma RemovalShrinks(c: Client, heap: Heap, t: Ops.Table, x: Ptr, p: Ptr, t1: Ops.Table, t': Ops.Table)
    requires Unlinked(c, t, x, p, t1) && Ops.BucketOf(c, t1, x) == [] && Shrunk(c, heap, t1, Ops.Found(p), t')
    ensures RemoveReplied(c, heap, t, x, p, t')
  {
  }

  method BucketIsEmpty(table: Hashtable, x: Ptr) returns (empty: bool)
    requires table.Good() && table.client.InRange()
    ensures empty <==> Ops.BucketOf(table.client, Model(table), x) == []
  {
    var i := table.Slot(x);
    assert HeadAt(table.bucket, i, NOWHERE);
    empty := table.bucket[i].data == NULL;
  }

  /** An emptied bucket may make the table shrink. */
  method FinishRemoval(table: Hashtable, x: Ptr, p: Ptr, ghost t: Ops.Table)
    requires table.Good() && Unlinked(table.client, t, x, p, Model(table))
    modifies table`bucket, table`contents, table`nodes, table`nBucketsUsed
    modifies table`tuning, table`pinned, table.freeList, table.memory, table.memory.entries
    ensures table.Good() && table.memory.OnlyGrew()
    ensures RemoveReplied(table.client, table.memory.succeeds, t, x, p, Model(table))
  {
    var emptied := BucketIsEmpty(table, x);
    if emptied {
      ShrinkEmptied(table, x, p, t);
    } else {
      RemovalIsUnlinking(table.client, table.memory.succeeds, t, x, p, Model(table));
    }
  }

  method ShrinkEmptied(table: Hashtable, x: Ptr, p: Ptr, ghost t: Ops.Table)
    requires table.Good() && Unlinked(table.client, t, x, p, Model(table))
    requires Ops.BucketOf(table.client, Model(table), x) == []
    modifies table`bucket, table`contents, table`nodes, table`nBucketsUsed
    modifies table`tuning, table`pinned, table.freeList, table.memory, table.memory.entries
    ensures table.Good() && table.memory.OnlyGrew()
    ensures RemoveReplied(table.client, table.memory.succeeds, t, x, p, Model(table))
  {
    ghost var t1 := Model(table);
    UnlinkedKeepsInv(table.client, t, x, p, t1);
    Shrink(table, Ops.Found(p));
    RemovalShrinks(table.client, table.memory.succeeds, t, x, p, t1, Model(table));
  }

  /** What `hash_remove` does to the buckets, with the entry counter still to be adjusted. */
  method RemoveEntry(table: Hashtable, x: Ptr) returns (p: Ptr)
    requires Sound(table)
    modifies table`bucket, table`contents, table`nodes, table`nBucketsUsed
    modifies table`tuning, table`pinned, table.freeList, table.memory, table.memory.entries
    ensures table.Good()
    ensures RemoveReplied(table.client, table.memory.succeeds, old(Model(table)), x, p, Model(table))
    ensures table.memory.OnlyGrew()
  {
    ghost var t := Model(table);
    p := Unlink(table, x);
    if p == NULL {
      NothingToRemove(table.client, table.memory.succeeds, t, x);
      return;
    }
    FinishRemoval(table, x, p, t);
  }

  /** `hash_remove` */
  method Remove(table: Hashtable, x: Ptr) returns (p: Ptr)
    requires Valid(table)
    modifies table`bucket, table`contents, table`nodes, table`nBucketsUsed, table`nEntries
    modifies table`tuning, table`pinned, table.freeList, table.memory, table.memory.entries
    ensures Valid(table)
    ensures RemoveReplied(table.client, table.memory.succeeds, old(Model(table)), x, p, Model(table))
    ensures table.memory.OnlyGrew()
  {
    ghost var t := Model(table);
    p := RemoveEntry(table, x);
    RemoveKeeps(table.client, table.memory.succeeds, t, x, p, Model(table));
    if p != NULL {
      table.nEntries := table.nEntries - 1;
    }
  }
}
