/** Creating, clearing, resizing and walking a table of gnulib/lib/hash.c. */
module HashReads {
  import opened Wrappers
  import opened HashBuckets
  import opened HashEntries
  import opened HashRehash
  import opened HashSizing
  import opened HashTable
  import opened HashApi
  import Walk = HashWalk
  import Ops = HashOps
  import Primes

  // ---- hash_rehash

  /** `hash_rehash` for the user. */
  method Resize(table: Hashtable, candidate: nat) returns (ok: bool)
    requires Valid(table) && candidate <= Primes.SIZE_MAX && Convertible(candidate, table.tuning)
    modifies table`bucket, table`contents, table`nodes, table`nBucketsUsed
    modifies table.freeList, table.memory, table.memory.entries
    ensures Valid(table)
    ensures Ops.Resize(table.client, table.memory.succeeds, old(Model(table)), candidate) ==
              Ops.Reply(Model(table), if ok then Ops.Success else Ops.Failure)
    ensures table.memory.OnlyGrew()
  {
    ghost var t := Model(table);
    var size := ComputeBucketSize(candidate, table.tuning);
    ok := RehashTo(table, size);
    ResizeKeeps(table.client, table.memory.succeeds, t, candidate, ok, StoreOf(table));
  }

  lemma ResizeKeeps(c: Client, heap: Heap, t: Ops.Table, candidate: nat, ok: bool, s: Store)
    requires c.InRange() && Ops.Inv(c, t) && candidate <= Primes.SIZE_MAX && Convertible(candidate, t.tuning)
    requires Rehashed(c, heap, t.store, BucketSize(candidate, t.tuning), ok, s)
    ensures Ops.Resize(c, heap, t, candidate) == Ops.Reply(t.(store := s), if ok then Ops.Success else Ops.Failure)
    ensures Ops.Inv(c, t.(store := s)) && Size(s.buckets) == Size(t.store.buckets)
  {
    Ops.RehashKeepsInv(c, heap, t, BucketSize(candidate, t.tuning));
    Ops.RehashKeepsSize(c, heap, t.store, BucketSize(candidate, t.tuning));
  }

  // ---- hash_initialize

  lemma EmptyTableIsSound(c: Client, size: nat, calls: nat, tuning: Tuning, pinned: bool)
    requires c.InRange() && 11 <= size <= MAX_BUCKETS && Primes.Prime(size)
    requires Sane(tuning) && (pinned ==> tuning == DEFAULT_TUNING)
    ensures Ops.Inv(c, Ops.Table(Store(Empty(size), 0, calls), tuning, pinned))
    ensures Size(Empty(size)) == 0
  {
    EmptyLaws(size);
  }

  method NewTable(client: Client, memory: Memory, size: nat, tuning: Tuning, pinned: bool)
      returns (table: Hashtable?)
    requires client.Lawful() && 11 <= size <= MAX_BUCKETS && Primes.Prime(size)
    requires Sane(tuning) && (pinned ==> tuning == DEFAULT_TUNING)
    modifies memory
    ensures table != null <==> memory.succeeds(old(memory.calls))
    ensures table != null ==> fresh(table) && Valid(table) && table.client == client && table.memory == memory
    ensures table != null ==>
              && table.tuning == tuning && table.pinned == pinned && table.nEntries == 0
              && |table.bucket| == size && table.contents == Empty(size) && table.freeList.entries == []
  {
    table := null;
    var ok, bucket := memory.Calloc(size);
    if ok {
      var freeList := new FreeList();
      table := new Hashtable(client, memory, bucket, freeList, tuning, pinned);
      EmptyTableIsSound(client, size, memory.calls, tuning, pinned);
    }
  }

  /** A table for `candidate` entries, with the user's tuning or the default one. */
  method Initialize(client: Client, memory: Memory, candidate: nat, user: Option<Tuning>)
      returns (table: Hashtable?)
    requires client.Lawful() && candidate <= Primes.SIZE_MAX
    modifies memory
    ensures table != null ==> fresh(table) && Valid(table) && table.client == client && table.memory == memory
    ensures table != null ==>
              && table.tuning == (if user.None? then DEFAULT_TUNING else user.value)
              && Sane(table.tuning) && table.pinned == user.None? && table.nEntries == 0
              && |table.bucket| == BucketSize(candidate, table.tuning)
              && table.contents == Empty(|table.bucket|) && table.freeList.entries == []
    ensures table == null <==>
              || !memory.succeeds(old(memory.calls))
              || (user.Some? && !Sane(user.value))
              || BucketSize(candidate, if user.None? then DEFAULT_TUNING else user.value) == 0
              || !memory.succeeds(old(memory.calls) + 1)
  {
    DefaultTuningIsSane();
    table := null;
    var made := memory.Reserve();
    if !made { return; }
    var tuning := if user.None? then DEFAULT_TUNING else user.value;
    if !Sane(tuning) { return; }
    var size := ComputeBucketSize(candidate, tuning);
    if size == 0 { return; }
    table := NewTable(client, memory, size, tuning, user.None?);
  }

  // ---- hash_clear

  lemma ClearedOverflow(t: Buckets, i: nat)
    requires i < |t|
    ensures Overflow(t) == Overflow(t[i := []]) + if t[i] == [] then 0 else |t[i]| - 1
  {
    ReplaceBucket(t, i, []);
    OverflowIsSizeLessUsed(t);
    OverflowIsSizeLessUsed(t[i := []]);
  }

  method ClearBuckets(table: Hashtable)
    requires table.Good()
    modifies table`contents, table`nodes, table.freeList, table.memory.entries
    ensures Row(table.bucket, table.contents, table.nodes, NOWHERE) && table.contents == Empty(|table.bucket|)
    ensures table.freeList.Valid() && table.nodes !! table.freeList.repr
    ensures table.nodes <= table.memory.entries && table.freeList.repr <= table.memory.entries
    ensures |table.freeList.entries| == old(|table.freeList.entries|) + Overflow(old(table.contents))
  {
    var i := 0;
    while i < |table.bucket|
      invariant 0 <= i <= |table.bucket| && Row(table.bucket, table.contents, table.nodes, NOWHERE)
      invariant table.freeList.Valid() && table.nodes !! table.freeList.repr
      invariant table.nodes <= table.memory.entries && table.freeList.repr <= table.memory.entries
      invariant forall k :: 0 <= k < i ==> table.contents[k] == []
      invariant |table.freeList.entries| + Overflow(table.contents) ==
                old(|table.freeList.entries|) + Overflow(old(table.contents))
    {
      ClearedOverflow(table.contents, i);
      table.ClearBucket(i);
      i := i + 1;
    }
    assert table.contents == Empty(|table.bucket|);
    EmptyLaws(|table.bucket|);
    OverflowIsSizeLessUsed(Empty(|table.bucket|));
  }

  /** `hash_clear`; the user's data are left alone. */
  method Clear(table: Hashtable)
    requires Valid(table)
    modifies table`contents, table`nodes, table`nBucketsUsed, table`nEntries, table.freeList, table.memory.entries
    ensures Valid(table) && Model(table) == Ops.Clear(old(Model(table)))
  {
    ClearedLaws(table.client, Model(table));
    ClearBuckets(table);
    ResetCounters(table);
  }

  method ResetCounters(table: Hashtable)
    requires 0 < |table.bucket| && Row(table.bucket, table.contents, table.nodes, NOWHERE) && Used(table.contents) == 0
    modifies table`nBucketsUsed, table`nEntries
    ensures table.Shape(NOWHERE) && table.nBucketsUsed == table.nEntries == 0
  {
    table.nBucketsUsed, table.nEntries := 0, 0;
  }

  lemma ClearedLaws(c: Client, t: Ops.Table)
    requires c.InRange() && Ops.Inv(c, t)
    ensures Ops.Inv(c, Ops.Clear(t))
    ensures Used(Empty(|t.store.buckets|)) == 0 && Size(Empty(|t.store.buckets|)) == 0
  {
    EmptyLaws(|t.store.buckets|);
    Ops.ClearRefinesSet(c, t);
  }

  // ---- hash_table_ok

  /** Counts the entries of a bucket. */
  method Count(head: Entry) returns (n: nat)
    requires head.Head() && head.contents != []
    ensures n == |head.contents|
  {
    n := 1;
    var cursor := head;
    head.Step(0);
    while cursor.next != null
      invariant 1 <= n <= |head.contents| && cursor == head.At(n - 1)
      decreases |head.contents| - n
    {
      head.Step(n - 1);
      cursor := cursor.next;
      n := n + 1;
    }
    head.Step(n - 1);
  }

  lemma {:induction false} CountOneMore(t: Buckets, i: nat)
    requires i < |t|
    ensures Size(t[..i + 1]) == Size(t[..i]) + |t[i]|
    ensures Used(t[..i + 1]) == Used(t[..i]) + if t[i] == [] then 0 else 1
  {
    if i == 0 {
      assert t[..1] == [t[0]] && t[..0] == [];
      assert t[..1][1..] == [];
    } else {
      CountOneMore(t[1..], i - 1);
      assert t[..i + 1][1..] == t[1..][..i] && t[..i][1..] == t[1..][..i - 1];
    }
  }

  /**
   * `hash_table_ok` recounts both statistics of any table with proper chains, finds out whether they
   * are right, and holds of every valid table.
   */
  method TableOk(table: Hashtable) returns (ok: bool)
    requires Row(table.bucket, table.contents, table.nodes, NOWHERE)
    ensures ok <==> table.nBucketsUsed == Used(table.contents) && table.nEntries == Size(table.contents)
    ensures Valid(table) ==> ok
  {
    var used, entries, i := 0, 0, 0;
    ghost var t := table.contents;
    assert t[..0] == [];
    while i < |table.bucket|
      invariant 0 <= i <= |table.bucket| && used == Used(t[..i]) && entries == Size(t[..i])
    {
      CountOneMore(t, i);
      assert HeadAt(table.bucket, i, NOWHERE);
      if table.bucket[i].data != NULL {
        var n := Count(table.bucket[i]);
        used, entries := used + 1, entries + n;
      }
      i := i + 1;
    }
    assert t[..i] == t;
    ok := used == table.nBucketsUsed && entries == table.nEntries;
  }

  // ---- Walking

  /** The first datum from bucket `start` on. */
  method FirstFrom(table: Hashtable, start: nat) returns (p: Ptr)
    requires table.Good() && start <= |table.bucket|
    ensures p == Walk.First(table.contents[start..])
  {
    var i := start;
    while i < |table.bucket|
      invariant start <= i <= |table.bucket|
      invariant Walk.First(table.contents[start..]) == Walk.First(table.contents[i..])
    {
      assert HeadAt(table.bucket, i, NOWHERE);
      if table.bucket[i].data != NULL { return table.bucket[i].data; }
      assert table.contents[i..][1..] == table.contents[i + 1..];
      i := i + 1;
    }
    p := NULL;
  }

  /** `hash_get_first`: the first datum of the walk; a table with entries has one. */
  method GetFirst(table: Hashtable) returns (p: Ptr)
    requires Valid(table)
    ensures p == Walk.First(table.contents)
    ensures p == NULL <==> table.nEntries == 0
  {
    Walk.FirstIsHeadOfFlat(table.contents);
    Walk.FlatIsData(table.contents);
    if table.nEntries == 0 { return NULL; }
    assert table.contents[0..] == table.contents;
    p := FirstFrom(table, 0);
    Walk.WalkVisitsAll(table.client, Model(table));
  }

  /** The datum behind a given pointer in one bucket; NULL if it is the last or not there. */
  method NextInBucket(head: Entry, x: Ptr) returns (p: Ptr)
    requires head.Head() && Walk.AllDifferent(head.contents) && NULL !in head.contents
    ensures var j := Walk.Position(head.contents, x);
            p == if j + 1 < |head.contents| then head.contents[j + 1] else NULL
  {
    var cursor: Entry? := head;
    ghost var j := 0;
    while cursor != null
      invariant j <= |head.chain| + 1 && cursor == head.At(j) && (cursor == null <==> j == |head.chain| + 1)
      invariant j <= Walk.Position(head.contents, x) || |head.contents| <= Walk.Position(head.contents, x) + 1
      decreases |head.chain| + 1 - j
    {
      head.StepAny(j);
      if cursor.data == x && cursor.next != null {
        head.StepAny(j + 1);
        Walk.PositionIs(head.contents, j);
        return cursor.next.data;
      }
      cursor := cursor.next;
      j := j + 1;
    }
    p := NULL;
  }

  /** `hash_get_next`, whether or not the datum is stored. */
  method GetNext(table: Hashtable, x: Ptr) returns (p: Ptr)
    requires Valid(table)
    ensures p == Walk.Next(table.client, table.contents, x)
  {
    var i := table.Slot(x);
    assert HeadAt(table.bucket, i, NOWHERE);
    Walk.FlatIsData(table.contents);
    Walk.SingleMeansDifferent(Walk.Flat(table.contents));
    Walk.PartDifferent(table.contents, i);
    p := NextInBucket(table.bucket[i], x);
    if p == NULL {
      p := FirstFrom(table, i + 1);
    }
  }

  /** Copies the data of one bucket to the buffer from `start` on, as far as it reaches. */
  method CopyBucket(head: Entry, buffer: array<Ptr>, start: nat)
      returns (counter: nat, full: bool)
    requires head.Head() && start <= buffer.Length
    modifies buffer
    ensures counter == if start + |head.contents| <= buffer.Length then start + |head.contents| else buffer.Length
    ensures buffer[..start] == old(buffer[..start]) && buffer[counter..] == old(buffer[counter..])
    ensures buffer[start..counter] == head.contents[..counter - start]
    ensures full <==> buffer.Length < start + |head.contents|
  {
    counter, full := start, false;
    if head.data == NULL { return; }
    var cursor: Entry? := head;
    ghost var j := 0;
    while cursor != null
      invariant j <= |head.contents| && cursor == head.At(j) && (cursor == null <==> j == |head.contents|)
      invariant counter == start + j <= buffer.Length && head.Head()
      invariant forall k :: 0 <= k < start || counter <= k < buffer.Length ==> buffer[k] == old(buffer[k])
      invariant forall k :: 0 <= k < j ==> buffer[start + k] == head.contents[k]
      decreases |head.contents| - j
    {
      head.Step(j);
      if buffer.Length <= counter { return counter, true; }
      buffer[counter] := cursor.data;
      counter := counter + 1;
      cursor := cursor.next;
      j := j + 1;
    }
  }

  method ContinueWith(table: Hashtable, i: nat, buffer: array<Ptr>, start: nat, ghost e: seq<Ptr>)
      returns (counter: nat, full: bool)
    requires table.Good() && i < |table.bucket| && start <= buffer.Length
    requires start + |table.contents[i]| <= |e| && e[start..start + |table.contents[i]|] == table.contents[i]
    requires buffer[..start] == e[..start]
    modifies buffer
    ensures full <==> buffer.Length < start + |table.contents[i]|
    ensures counter == if full then buffer.Length else start + |table.contents[i]|
    ensures buffer[..counter] == e[..counter] && buffer[counter..] == old(buffer[counter..])
  {
    assert HeadAt(table.bucket, i, NOWHERE);
    counter, full := CopyBucket(table.bucket[i], buffer, start);
    assert buffer[..counter] == buffer[..start] + buffer[start..counter];
    assert e[..counter] == e[..start] + e[start..start + |table.contents[i]|][..counter - start];
  }

  /** `hash_get_entries` writes the walk, as far as the buffer reaches. */
  method GetEntries(table: Hashtable, buffer: array<Ptr>) returns (counter: nat)
    requires Valid(table)
    modifies buffer
    ensures var e := Walk.Flat(table.contents);
            && counter == (if |e| <= buffer.Length then |e| else buffer.Length)
            && buffer[..counter] == e[..counter]
    ensures buffer[counter..] == old(buffer[counter..])
  {
    ghost var t, e := table.contents, Walk.Flat(table.contents);
    counter := 0;
    var i := 0;
    Walk.BucketInFlat(t, 0);
    while i < |table.bucket|
      invariant 0 <= i <= |t| && counter == Walk.Before(t, i) <= |e| && counter <= buffer.Length
      invariant buffer[..counter] == e[..counter] && buffer[counter..] == old(buffer[counter..])
    {
      Walk.BucketInFlat(t, i);
      var full;
      counter, full := ContinueWith(table, i, buffer, counter, e);
      if full { return; }
      i := i + 1;
    }
  }
}
