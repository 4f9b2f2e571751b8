/** The functions of gnulib/lib/hash.c that work on a whole table, against their specification. */
module HashApi {
  import opened HashBuckets
  import opened HashRehash
  import opened HashSizing
  import opened HashTable
  import opened HashTransfer
  import Ops = HashOps
  import opened HashMemory
  import Primes

  ghost function StoreOf(t: Hashtable): Store
    reads t, t.freeList, t.memory
  {
    Store(t.contents, |t.freeList.entries|, t.memory.calls)
  }

  /** The table as a value. */
  ghost function Model(t: Hashtable): Ops.Table
    reads t, t.freeList, t.memory
  {
    Ops.Table(StoreOf(t), t.tuning, t.pinned)
  }

  ghost predicate Valid(t: Hashtable)
    reads t, t.nodes, t.freeList, t.freeList.repr, t.memory
  {
    && t.Good() && t.client.Lawful()
    && t.nEntries == Size(t.contents)
    && Ops.Inv(t.client, Model(t))
  }

  // ---- hash_rehash

  ghost predicate SecondPass(c: Client, heap: Heap, m: Move, m1: Move)
  {
    c.InRange() && 0 < |m.src| && Transfer(c, heap, Move(m.src, m.dst, m.free, m.calls), 0, true) == (m1, true)
  }

  /** The first pass of the undo puts the overflow entries back and allocates nothing. */
  method UndoOverflow(table: Hashtable, next: Hashtable)
    requires Apart(table, next, NOWHERE) && next.memory == table.memory
    requires NonNull(table.contents) && NonNull(next.contents)
    modifies table`contents, table`nodes, table`nBucketsUsed, next`contents, next`nodes, next`nBucketsUsed
    modifies table.freeList, table.memory, table.memory.entries
    ensures Apart(table, next, NOWHERE) && NonNull(next.contents)
    ensures table.memory.OnlyGrew()
    ensures var m := Move(old(next.contents), old(table.contents), old(|table.freeList.entries|), old(table.memory.calls));
            SecondPass(table.client, table.memory.succeeds, m, MoveOf(table, next))
  {
    TransferKeeps(table.client, table.memory.succeeds, MoveOf(table, next), 0, true);
    var undone := TransferEntries(table, next, true);
  }

  /** What the undo may rely on: `full` is the table before the failed transfer. */
  ghost predicate Undoable(c: Client, full: Buckets, m: Move) {
    && c.InRange() && 0 < |full| == |m.src| && Hashed(c, full)
    && (forall i :: 0 <= i < |full| ==> m.src[i] <= full[i])
    && AllData(m) == Data(full) && Overflow(full) <= Nodes(m)
    && NonNull(m.dst) && NonNull(m.src)
  }

  ghost predicate RolledBack(c: Client, heap: Heap, m: Move, s: Store) {
    && c.InRange() && 0 < |m.src|
    && var r := Rollback(c, heap, m); r.1 && s == Store(r.0.dst, r.0.free, r.0.calls)
  }

  /** The second pass puts the heads back; `abort ()` would follow if it failed. */
  method UndoHeads(table: Hashtable, next: Hashtable, ghost full: Buckets, ghost m: Move)
    requires Apart(table, next, NOWHERE) && NonNull(next.contents)
    requires Undoable(table.client, full, m)
    requires SecondPass(table.client, table.memory.succeeds, m, MoveOf(table, next))
    modifies table`contents, table`nodes, table`nBucketsUsed, next`contents, next`nodes, next`nBucketsUsed
    modifies table.freeList, table.memory, table.memory.entries
    ensures table.Good()
    ensures table.memory.OnlyGrew()
    ensures RolledBack(table.client, table.memory.succeeds, m, StoreOf(table))
  {
    RollbackRestores(table.client, table.memory.succeeds, m, full);
    var undone := TransferEntries(table, next, false);
    if !undone {
      assert false;  // abort ()
    }
  }

  /** The rollback of `hash_rehash`. */
  method Undo(table: Hashtable, next: Hashtable, ghost full: Buckets)
    requires Apart(table, next, NOWHERE) && next.memory == table.memory
    requires Undoable(table.client, full, Move(next.contents, table.contents, |table.freeList.entries|, table.memory.calls))
    modifies table`contents, table`nodes, table`nBucketsUsed, next`contents, next`nodes, next`nBucketsUsed
    modifies table.freeList, table.memory, table.memory.entries
    ensures table.Good()
    ensures table.memory.OnlyGrew()
    ensures var m := Move(old(next.contents), old(table.contents), old(|table.freeList.entries|), old(table.memory.calls));
            RolledBack(table.client, table.memory.succeeds, m, StoreOf(table))
  {
    ghost var m := Move(next.contents, table.contents, |table.freeList.entries|, table.memory.calls);
    UndoOverflow(table, next);
    UndoHeads(table, next, full, m);
  }

  /** The successor table: empty, of the new size, and sharing the free list. */
  method Successor(table: Hashtable, size: nat) returns (next: Hashtable?)
    requires table.Good() && table.client.InRange() && 0 < size
    modifies table.memory
    ensures table.Good() && table.memory.calls == old(table.memory.calls) + 1
    ensures next != null <==> table.memory.succeeds(old(table.memory.calls))
    ensures next != null ==>
              && fresh(next) && Apart(next, table, NOWHERE) && next.freeList == table.freeList
              && next.contents == Empty(size) && |next.bucket| == size
    ensures table.memory.OnlyGrew()
  {
    var ok, bucket := table.memory.Calloc(size);
    next := null;
    if ok {
      next := new Hashtable(table.client, table.memory, bucket, table.freeList, table.tuning, table.pinned);
      assert next.nodes !! old(table.memory.entries);
    }
  }

  /** The table takes the buckets of its successor. */
  method Adopt(table: Hashtable, next: Hashtable)
    requires Apart(next, table, NOWHERE) && next.freeList == table.freeList
    modifies table`bucket, table`contents, table`nodes, table`nBucketsUsed
    ensures table.Good() && table.contents == next.contents
  {
    table.bucket := next.bucket;
    table.nBucketsUsed := next.nBucketsUsed;
    table.contents, table.nodes := next.contents, next.nodes;
  }

  ghost predicate Migrated(c: Client, heap: Heap, t: Store, size: nat, ok: bool, t': Store)
  {
    && c.InRange() && 0 < |t.buckets| && 0 < size
    && var r := Transfer(c, heap, Move(Empty(size), t.buckets, t.free, t.calls), 0, false);
       && ok == r.1
       && if ok then t' == Store(r.0.dst, r.0.free, r.0.calls) else RolledBack(c, heap, r.0, t')
  }

  /** Moves everything to the successor, or everything back. */
  method Migrate(table: Hashtable, next: Hashtable) returns (ok: bool)
    requires Apart(next, table, NOWHERE) && next.freeList == table.freeList
    requires WellHashed(table.client, StoreOf(table)) && next.contents == Empty(|next.bucket|)
    modifies table`bucket, table`contents, table`nodes, table`nBucketsUsed
    modifies next`contents, next`nodes, next`nBucketsUsed
    modifies table.freeList, table.memory, table.memory.entries
    ensures table.Good()
    ensures Migrated(table.client, table.memory.succeeds, old(StoreOf(table)), |next.bucket|, ok, StoreOf(table))
    ensures table.memory.OnlyGrew()
  {
    ghost var full := table.contents;
    FailureIsUndoable(table.client, table.memory.succeeds, StoreOf(table), |next.bucket|);
    ok := TransferEntries(next, table, false);
    if ok {
      Adopt(table, next);
    } else {
      SwapRoles(next, table);
      Undo(table, next, full);
    }
  }

  lemma FailureIsUndoable(c: Client, heap: Heap, t: Store, size: nat)
    requires c.InRange() && WellHashed(c, t) && 0 < size
    ensures var r := Transfer(c, heap, Move(Empty(size), t.buckets, t.free, t.calls), 0, false);
            Undoable(c, t.buckets, r.0)
  {
    TransferFromFull(c, heap, t, size);
  }

  lemma SwapRoles(next: Hashtable, table: Hashtable)
    requires Apart(next, table, NOWHERE) && next.freeList == table.freeList
    ensures Apart(table, next, NOWHERE)
  {
  }

  /** What `hash_rehash` makes of a table when asked for `size` buckets. */
  ghost predicate Rehashed(c: Client, heap: Heap, t: Store, size: nat, ok: bool, t': Store) {
    && c.InRange() && 0 < |t.buckets|
    && Rehash(c, heap, t, size) == if ok then Resized(t') else GaveUp(t')
  }

  lemma MigrationIsRehash(c: Client, heap: Heap, t: Store, size: nat, ok: bool, t': Store)
    requires size != 0 && size != |t.buckets| && heap(t.calls)
    requires Migrated(c, heap, t.(calls := t.calls + 1), size, ok, t')
    ensures Rehashed(c, heap, t, size, ok, t')
  {
  }

  lemma RehashDeclined(c: Client, heap: Heap, t: Store, size: nat)
    requires c.InRange() && 0 < |t.buckets|
    ensures size == 0 ==> Rehashed(c, heap, t, size, false, t)
    ensures size == |t.buckets| ==> Rehashed(c, heap, t, size, true, t)
    ensures size != 0 && size != |t.buckets| && !heap(t.calls) ==>
              Rehashed(c, heap, t, size, false, t.(calls := t.calls + 1))
  {
  }

  /** As `Migrate`, told from before the new buckets were allocated. */
  method MigrateFrom(table: Hashtable, next: Hashtable, ghost t: Store) returns (ok: bool)
    requires Apart(next, table, NOWHERE) && next.freeList == table.freeList && next.contents == Empty(|next.bucket|)
    requires WellHashed(table.client, t) && |next.bucket| != |t.buckets| && table.memory.succeeds(t.calls)
    requires StoreOf(table) == t.(calls := t.calls + 1)
    modifies table`bucket, table`contents, table`nodes, table`nBucketsUsed
    modifies next`contents, next`nodes, next`nBucketsUsed
    modifies table.freeList, table.memory, table.memory.entries
    ensures table.Good() && table.memory.OnlyGrew()
    ensures Rehashed(table.client, table.memory.succeeds, t, |next.bucket|, ok, StoreOf(table))
  {
    ok := Migrate(table, next);
    MigrationIsRehash(table.client, table.memory.succeeds, t, |next.bucket|, ok, StoreOf(table));
  }

  /** Allocates the new buckets and moves over. */
  method Replace(table: Hashtable, size: nat) returns (ok: bool)
    requires table.Good() && table.client.InRange() && WellHashed(table.client, StoreOf(table))
    requires size != 0 && size != |table.bucket|
    modifies table`bucket, table`contents, table`nodes, table`nBucketsUsed
    modifies table.freeList, table.memory, table.memory.entries
    ensures table.Good()
    ensures Rehashed(table.client, table.memory.succeeds, old(StoreOf(table)), size, ok, StoreOf(table))
    ensures table.memory.OnlyGrew()
  {
    ghost var t := StoreOf(table);
    var next := Successor(table, size);
    if next == null {
      RehashDeclined(table.client, table.memory.succeeds, t, size);
      return false;
    }
    ok := MigrateFrom(table, next, t);
  }

  /** The core of `hash_rehash`; it fails exactly when it is asked for nothing or an allocation failed. */
  method RehashTo(table: Hashtable, size: nat) returns (ok: bool)
    requires table.Good() && table.client.InRange() && WellHashed(table.client, StoreOf(table))
    modifies table`bucket, table`contents, table`nodes, table`nBucketsUsed
    modifies table.freeList, table.memory, table.memory.entries
    ensures table.Good()
    ensures Rehashed(table.client, table.memory.succeeds, old(StoreOf(table)), size, ok, StoreOf(table))
    ensures table.memory.OnlyGrew()
    ensures ok <==> size != 0 && AllServed(table.memory.succeeds, old(table.memory.calls), table.memory.calls)
  {
    ghost var t := StoreOf(table);
    ok := RehashUnlessDeclined(table, size);
    RehashedAsks(table.client, table.memory.succeeds, t, size, ok, StoreOf(table));
  }

  method RehashUnlessDeclined(table: Hashtable, size: nat) returns (ok: bool)
    requires table.Good() && table.client.InRange() && WellHashed(table.client, StoreOf(table))
    modifies table`bucket, table`contents, table`nodes, table`nBucketsUsed
    modifies table.freeList, table.memory, table.memory.entries
    ensures table.Good() && table.memory.OnlyGrew()
    ensures Rehashed(table.client, table.memory.succeeds, old(StoreOf(table)), size, ok, StoreOf(table))
  {
    RehashDeclined(table.client, table.memory.succeeds, StoreOf(table), size);
    if size == 0 { return false; }
    if size == |table.bucket| { return true; }
    ok := Replace(table, size);
  }

  lemma RehashedAsks(c: Client, heap: Heap, t: Store, size: nat, ok: bool, t': Store)
    requires c.InRange() && WellHashed(c, t) && Rehashed(c, heap, t, size, ok, t')
    ensures ok <==> size != 0 && AllServed(heap, t.calls, t'.calls)
  {
    RehashGivesUpExactlyWhen(c, heap, t, size);
  }

  // ---- Sizes and tuning

  /** `compute_bucket_size` */
  method ComputeBucketSize(candidate: nat, tuning: Tuning) returns (size: nat)
    requires candidate <= Primes.SIZE_MAX && Convertible(candidate, tuning)
    ensures size == BucketSize(candidate, tuning)
  {
    var wanted := candidate;
    if !tuning.isNBuckets {
      if tuning.growthThreshold == 0.0 { return 0; }  // the quotient is infinite
      var scaled := candidate as real / tuning.growthThreshold;
      if Primes.SIZE_MAX as real <= scaled { return 0; }
      ScaledFits(candidate, tuning);
      wanted := Truncated(scaled);
    }
    var p := Primes.ComputeNextPrime(wanted);
    Primes.NextPrimeIsNearest(wanted);
    size := if MAX_BUCKETS < p then 0 else p;
  }

  /** `check_tuning` */
  method CheckTuning(table: Hashtable) returns (ok: bool)
    requires Ops.TuningOk(Model(table))
    modifies table`tuning, table`pinned
    ensures Model(table) == Ops.Checked(old(Model(table)))
    ensures ok <==> old(table.pinned) || Sane(old(table.tuning))
  {
    ok := table.pinned || Sane(table.tuning);
    if !ok {
      table.tuning, table.pinned := DEFAULT_TUNING, true;
    }
  }
}
