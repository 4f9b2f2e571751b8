/** When insertions and removals resize the table, to what, and when they fail. */
module HashGrowth {
  import opened HashBuckets
  import opened HashRehash
  import opened HashSizing
  import opened HashOps
  import opened HashMemory

  /** The tuning that counts once it has been checked. */
  function InForce(t: Table): Tuning {
    if t.pinned || Sane(t.tuning) then t.tuning else DEFAULT_TUNING
  }

  /** More buckets are used than the growth threshold allows, by the user's tuning and by the one in force. */
  ghost predicate Crowded(t: Table) {
    var n, used := |t.store.buckets| as real, Used(t.store.buckets) as real;
    used > t.tuning.growthThreshold * n && used > InForce(t).growthThreshold * n
  }

  /** Fewer buckets are used than the shrink threshold asks for, likewise. */
  ghost predicate Thinned(t: Table) {
    var n, used := |t.store.buckets| as real, Used(t.store.buckets) as real;
    used < t.tuning.shrinkThreshold * n && used < InForce(t).shrinkThreshold * n
  }

  /** The bucket count a crowded table asks for. */
  ghost function GrowthGoal(t: Table): int
    requires TuningOk(t)
  {
    DefaultTuningIsSane();
    Wish(Scaled(|t.store.buckets|, InForce(t).growthFactor, InForce(t)), InForce(t))
  }

  /** The bucket count a thinned table asks for. */
  ghost function ShrinkGoal(t: Table): int
    requires TuningOk(t)
  {
    DefaultTuningIsSane();
    Wish(Scaled(|t.store.buckets|, InForce(t).shrinkFactor, InForce(t)), InForce(t))
  }

  lemma CheckedIsInForce(t: Table)
    requires TuningOk(t)
    ensures Checked(t).tuning == InForce(t) && Sane(InForce(t))
  {
    DefaultTuningIsSane();
  }

  // ---- Insertion

  /** Room is made exactly when memory and the primes allow it, and only in a crowded table. */
  ghost predicate RoomAccounted(heap: Heap, t: Table, r: Room)
    requires TuningOk(t)
  {
    && !r.Broken? && t.store.calls <= r.t.store.calls
    && (r.Full? <==> !AllServed(heap, t.store.calls, r.t.store.calls) || (Crowded(t) && NoPrimeFits(GrowthGoal(t))))
    && (!Crowded(t) ==> r.t.store == t.store)
    && (Crowded(t) && r.Ready? ==> IsLeastPrime(|r.t.store.buckets|, GrowthGoal(t)))
    && (if Moving(t) then t.store.calls < r.t.store.calls
                          && Entries(r.t.store) == Entries(t.store) + Granted(heap, t.store.calls + 1, r.t.store.calls)
        else r.t.store == t.store)
  }

  /** A crowded table goes to another size. */
  ghost predicate Moving(t: Table)
    requires TuningOk(t)
  {
    Crowded(t) && !NoPrimeFits(GrowthGoal(t)) && !IsLeastPrime(|t.store.buckets|, GrowthGoal(t))
  }

  lemma GrowthIsDue(t: Table)
    requires TuningOk(t) && 11 <= |t.store.buckets| <= MAX_BUCKETS
    ensures var size := GrownSize(|t.store.buckets|, Checked(t).tuning);
            && Answers(size, GrowthGoal(t)) && (size == 0 <==> NoPrimeFits(GrowthGoal(t)))
            && (Crowded(t) ==> (Moving(t) <==> Attempted(t.store, size)))
  {
    CheckedIsInForce(t);
    GrownSizeIs(|t.store.buckets|, InForce(t));
  }

  lemma RoomIsAccounted(c: Client, heap: Heap, t: Table)
    requires c.InRange() && Inv(c, t)
    ensures RoomAccounted(heap, t, EnsureRoom(c, heap, t))
  {
    RoomByCrowding(c, heap, t);
    if Crowded(t) {
      GrowthIsDue(t);
      var size := GrownSize(|t.store.buckets|, Checked(t).tuning);
      RehashGivesUpExactlyWhen(c, heap, t.store, size);
      RehashIsAllOrNothing(c, heap, t.store, size);
      RoomByRehash(heap, t, size, Rehash(c, heap, t.store, size), EnsureRoom(c, heap, t), GrowthGoal(t));
    }
  }

  /** Only a crowded table is rehashed. */
  lemma RoomByCrowding(c: Client, heap: Heap, t: Table)
    requires c.InRange() && Inv(c, t)
    ensures var r := EnsureRoom(c, heap, t);
            if Crowded(t) then RoomOf(Rehash(c, heap, t.store, GrownSize(|t.store.buckets|, Checked(t).tuning)), r)
            else r.Ready? && r.t.store == t.store
  {
    CrowdedIsOverfull(t);
  }

  lemma CrowdedIsOverfull(t: Table)
    requires TuningOk(t)
    ensures var n, used := |t.store.buckets|, Used(t.store.buckets);
            && (Crowded(t) <==> Overfull(used, n, t.tuning) && Overfull(used, n, Checked(t).tuning))
            && (Thinned(t) <==> Sparse(used, n, t.tuning) && Sparse(used, n, Checked(t).tuning))
  {
    CheckedIsInForce(t);
  }

  ghost predicate RoomOf(o: Outcome, r: Room) {
    match o
    case Resized(s) => r.Ready? && r.t.store == s
    case GaveUp(s) => r.Full? && r.t.store == s
    case Aborted => r.Broken?
  }

  lemma RoomByRehash(heap: Heap, t: Table, size: nat, o: Outcome, r: Room, goal: int)
    requires TuningOk(t) && Crowded(t) && goal == GrowthGoal(t) && RoomOf(o, r) && RehashAccounted(heap, t.store, size, o)
    requires Answers(size, goal) && (size == 0 <==> NoPrimeFits(goal)) && (Moving(t) <==> Attempted(t.store, size))
    requires o.Resized? ==> |o.t.buckets| == size
    ensures RoomAccounted(heap, t, r)
  {
  }

  ghost predicate Denied(heap: Heap, t: Table, t': Table)
    requires TuningOk(t)
  {
    !AllServed(heap, t.store.calls, t'.store.calls) || (Crowded(t) && NoPrimeFits(GrowthGoal(t)))
  }

  /** What an insertion of something absent makes of the table and of memory. */
  ghost predicate InsertAccounted(heap: Heap, t: Table, answer: Answer, t': Table)
    requires TuningOk(t)
  {
    && t.store.calls <= t'.store.calls && (answer == Inserted || answer == NoMemory)
    && (answer == NoMemory <==> Denied(heap, t, t'))
    && (!Crowded(t) ==> |t'.store.buckets| == |t.store.buckets|)
    && (Crowded(t) && answer == Inserted ==> IsLeastPrime(|t'.store.buckets|, GrowthGoal(t)))
    && Entries(t'.store) == Entries(t.store) + Granted(heap, t.store.calls + if Moving(t) then 1 else 0, t'.store.calls)
  }

  lemma AddAccounts(c: Client, heap: Heap, t: Table, x: Ptr)
    requires c.InRange() && 0 < |t.store.buckets|
    ensures var r := Add(c, heap, t, x);
            && r.Reply? && t.store.calls <= r.t.store.calls && (r.answer == Inserted || r.answer == NoMemory)
            && (r.answer == NoMemory <==> !AllServed(heap, t.store.calls, r.t.store.calls))
            && |r.t.store.buckets| == |t.store.buckets|
            && Entries(r.t.store) == Entries(t.store) + Granted(heap, t.store.calls, r.t.store.calls)
  {
    PutLaws(c, t.store.buckets, x);
    assert Granted(heap, t.store.calls, t.store.calls) == 0;
  }

  /**
   * An insertion of something absent fails exactly when an allocation call it made failed, or the
   * table is crowded and no prime is left to grow to.  A crowded table grows to the least prime its
   * tuning asks for, others keep their size, and every entry is accounted for.
   */
  lemma InsertFailsExactlyWhen(c: Client, heap: Heap, t: Table, x: Ptr)
    requires c.Lawful() && Inv(c, t) && x != NULL && !Matches(c, Elements(t), x)
    ensures var r := InsertIfAbsent(c, heap, t, x); r.Reply? && InsertAccounted(heap, t, r.answer, r.t)
  {
    RoomIsAccounted(c, heap, t);
    InsertInTwoSteps(c, heap, t, x);
    var room := EnsureRoom(c, heap, t);
    if room.Ready? {
      AddAccounts(c, heap, room.t, x);
      AddAfterRoom(heap, t, room.t, Add(c, heap, room.t, x));
    } else {
      FullIsDenied(heap, t, room.t);
    }
  }

  lemma InsertInTwoSteps(c: Client, heap: Heap, t: Table, x: Ptr)
    requires c.Lawful() && Inv(c, t) && x != NULL && !Matches(c, Elements(t), x)
    ensures var room := EnsureRoom(c, heap, t);
            && !room.Broken? && 0 < |room.t.store.buckets|
            && InsertIfAbsent(c, heap, t, x) == if room.Full? then Reply(room.t, NoMemory) else Add(c, heap, room.t, x)
  {
    LookupFindsTheMatch(c, t, x);
    EnsureRoomKeepsInv(c, heap, t);
    LookupFindsTheMatch(c, EnsureRoom(c, heap, t).t, x);
  }

  lemma FullIsDenied(heap: Heap, t: Table, t1: Table)
    requires TuningOk(t) && RoomAccounted(heap, t, Full(t1))
    ensures InsertAccounted(heap, t, NoMemory, t1)
  {
  }

  lemma AddAfterRoom(heap: Heap, t: Table, t1: Table, r: Reply)
    requires TuningOk(t) && RoomAccounted(heap, t, Ready(t1))
    requires r.Reply? && t1.store.calls <= r.t.store.calls && (r.answer == Inserted || r.answer == NoMemory)
    requires r.answer == NoMemory <==> !AllServed(heap, t1.store.calls, r.t.store.calls)
    requires |r.t.store.buckets| == |t1.store.buckets|
    requires Entries(r.t.store) == Entries(t1.store) + Granted(heap, t1.store.calls, r.t.store.calls)
    ensures InsertAccounted(heap, t, r.answer, r.t)
  {
    var lo, mid, hi := t.store.calls, t1.store.calls, r.t.store.calls;
    assert AllServed(heap, lo, hi) <==> AllServed(heap, mid, hi);
    if Moving(t) { GrantedJoin(heap, lo + 1, mid, hi); }
  }

  /** A table that need not grow puts a datum into an empty bucket or a free entry without asking for memory. */
  lemma InsertRecycles(c: Client, heap: Heap, t: Table, x: Ptr)
    requires c.Lawful() && Inv(c, t) && x != NULL && !Matches(c, Elements(t), x) && !Crowded(t)
    requires BucketOf(c, t, x) == [] || 0 < t.store.free
    ensures var r := InsertIfAbsent(c, heap, t, x); r.Reply? && r.answer == Inserted && r.t.store.calls == t.store.calls
  {
    RoomByCrowding(c, heap, t);
    InsertInTwoSteps(c, heap, t, x);
  }

  // ---- Removal

  /** What a removal that found something makes of the table and of memory. */
  ghost predicate RemoveAccounted(heap: Heap, t: Table, t1: Table, emptied: bool, t': Table)
    requires TuningOk(t1)
  {
    && t.store.calls <= t'.store.calls
    && if emptied && Thinned(t1) then
         if AllServed(heap, t.store.calls, t'.store.calls)
         then && IsLeastPrime(|t'.store.buckets|, ShrinkGoal(t1))
              && Entries(t'.store) == Entries(t.store) + Granted(heap, t.store.calls + if |t'.store.buckets| == |t.store.buckets| then 0 else 1, t'.store.calls)
         else |t'.store.buckets| == |t.store.buckets| && t'.store.free == 0
       else
         |t'.store.buckets| == |t.store.buckets| && t'.store.calls == t.store.calls && Entries(t'.store) == Entries(t.store)
  }

  lemma UnlinkAccounts(c: Client, t: Table, x: Ptr)
    requires c.Lawful() && Inv(c, t) && Lookup(c, t, x).Found?
    ensures var t1 := Unlink(c, t, x);
            && Entries(t1.store) == Entries(t.store) && t1.store.calls == t.store.calls
            && (BucketOf(c, t1, x) == [] <==> |BucketOf(c, t, x)| == 1)
            && Used(t1.store.buckets) == Used(t.store.buckets) - if |BucketOf(c, t, x)| == 1 then 1 else 0
  {
    var buckets, i := t.store.buckets, c.Slot(x, |t.store.buckets|);
    var b := Without(buckets[i], Find(c, buckets[i], x));
    ReplaceBucket(buckets, i, b);
    OverflowIsSizeLessUsed(buckets);
    OverflowIsSizeLessUsed(buckets[i := b]);
  }

  lemma ShrinkAccounts(c: Client, heap: Heap, t: Table, answer: Answer)
    requires c.InRange() && Inv(c, t)
    ensures var r := Shrink(c, heap, t, answer); r.Reply? && RemoveAccounted(heap, t, t, true, r.t)
  {
    ShrinkByThinning(c, heap, t, answer);
    if Thinned(t) {
      CheckedIsInForce(t);
      var size := ShrunkSize(|t.store.buckets|, Checked(t).tuning);
      ShrunkSizeIs(|t.store.buckets|, InForce(t));
      RehashGivesUpExactlyWhen(c, heap, t.store, size);
      RehashIsAllOrNothing(c, heap, t.store, size);
      ShrinkByRehash(heap, t, size, Rehash(c, heap, t.store, size), Shrink(c, heap, t, answer), ShrinkGoal(t));
    }
  }

  lemma ShrinkByThinning(c: Client, heap: Heap, t: Table, answer: Answer)
    requires c.InRange() && Inv(c, t)
    ensures var r := Shrink(c, heap, t, answer);
            if Thinned(t) then ShrunkBy(Rehash(c, heap, t.store, ShrunkSize(|t.store.buckets|, Checked(t).tuning)), r)
            else r.Reply? && r.t.store == t.store
  {
    CrowdedIsOverfull(t);
  }

  ghost predicate ShrunkBy(o: Outcome, r: Reply) {
    match o
    case Resized(s) => r.Reply? && r.t.store == s
    case GaveUp(s) => r.Reply? && r.t.store == s.(free := 0)
    case Aborted => r.Abort?
  }

  lemma ShrinkByRehash(heap: Heap, t: Table, size: nat, o: Outcome, r: Reply, goal: int)
    requires TuningOk(t) && Thinned(t) && goal == ShrinkGoal(t) && ShrunkBy(o, r) && RehashAccounted(heap, t.store, size, o)
    requires IsLeastPrime(size, goal) && (o.Resized? ==> |o.t.buckets| == size)
    requires o.GaveUp? ==> |o.t.buckets| == |t.store.buckets|
    ensures r.Reply? && RemoveAccounted(heap, t, t, true, r.t)
  {
  }

  /**
   * A removal shrinks the table exactly when it empties a bucket and leaves too few of them used: to
   * the least prime the tuning asks for if memory allows, and otherwise it gives the free entries up.
   * Other removals leave size and memory alone, and lose no entry.
   */
  lemma RemoveShrinksExactlyWhen(c: Client, heap: Heap, t: Table, x: Ptr)
    requires c.Lawful() && Inv(c, t) && Matches(c, Elements(t), x)
    ensures var r := Remove(c, heap, t, x);
            && Lookup(c, t, x).Found? && r.Reply?
            && RemoveAccounted(heap, t, Unlink(c, t, x), |BucketOf(c, t, x)| == 1, r.t)
  {
    LookupFindsTheMatch(c, t, x);
    UnlinkKeepsInv(c, t, x);
    UnlinkAccounts(c, t, x);
    RemoveInTwoSteps(c, heap, t, x);
    var t1 := Unlink(c, t, x);
    if |BucketOf(c, t, x)| == 1 {
      ShrinkAccounts(c, heap, t1, Lookup(c, t, x));
      ShrinkAfterUnlink(heap, t, t1, Remove(c, heap, t, x).t);
    }
  }

  lemma RemoveInTwoSteps(c: Client, heap: Heap, t: Table, x: Ptr)
    requires c.InRange() && Inv(c, t) && Lookup(c, t, x).Found?
    ensures var t1, found := Unlink(c, t, x), Lookup(c, t, x);
            TuningOk(t1) && Remove(c, heap, t, x) == if BucketOf(c, t1, x) == [] then Shrink(c, heap, t1, found) else Reply(t1, found)
  {
  }

  lemma ShrinkAfterUnlink(heap: Heap, t: Table, t1: Table, t': Table)
    requires TuningOk(t1) && RemoveAccounted(heap, t1, t1, true, t')
    requires Entries(t1.store) == Entries(t.store) && t1.store.calls == t.store.calls
    requires |t1.store.buckets| == |t.store.buckets|
    ensures RemoveAccounted(heap, t, t1, true, t')
  {
  }

  /** Clearing recycles every overflow entry and asks for nothing. */
  lemma ClearRecycles(t: Table)
    ensures Entries(Clear(t).store) == Entries(t.store) == Clear(t).store.free
    ensures Clear(t).store.calls == t.store.calls && |Clear(t).store.buckets| == |t.store.buckets|
  {
    EmptyLaws(|t.store.buckets|);
    OverflowIsSizeLessUsed(Empty(|t.store.buckets|));
  }
}
