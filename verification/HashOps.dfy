/**
 * The operations of the table as functions on values, and what every run of them keeps: for every
 * pattern of allocation failures the table behaves as a mathematical set modulo the comparator.
 */
module HashOps {
  import opened Multisets
  import opened HashBuckets
  import opened HashRehash
  import opened HashSizing
  import Primes

  /** `pinned`: the table has given up on the user's tuning and points at the default one. */
  datatype Table = Table(store: Store, tuning: Tuning, pinned: bool)

  datatype Answer = Found(p: Ptr) | NotFound | Inserted | NoMemory | Success | Failure

  /** An operation returns, or reaches one of the `abort ()` calls. */
  datatype Reply = Reply(t: Table, answer: Answer) | Abort

  ghost predicate TuningOk(t: Table) {
    t.pinned ==> t.tuning == DEFAULT_TUNING
  }

  /** Nothing stored twice, nor together with another datum that compares equal. */
  ghost predicate NoTwins(c: Client, d: multiset<Ptr>) {
    && (forall x :: d[x] <= 1)
    && (forall x, y :: x in d && y in d && c.Same(x, y) ==> x == y)
  }

  ghost predicate Inv(c: Client, t: Table)
    requires c.InRange()
  {
    && WellHashed(c, t.store)
    && NoTwins(c, Data(t.store.buckets))
    && 11 <= |t.store.buckets| <= MAX_BUCKETS && Primes.Prime(|t.store.buckets|)
    && TuningOk(t)
  }

  // ---- Searching

  ghost function BucketOf(c: Client, t: Table, x: Ptr): Bucket
    requires c.InRange() && 0 < |t.store.buckets|
  {
    t.store.buckets[c.Slot(x, |t.store.buckets|)]
  }

  ghost function Lookup(c: Client, t: Table, x: Ptr): Answer
    requires c.InRange() && 0 < |t.store.buckets|
  {
    var b := BucketOf(c, t, x);
    var k := Find(c, b, x);
    if k < |b| then Found(b[k]) else NotFound
  }

  // ---- Changing

  /** `check_tuning` */
  ghost function Checked(t: Table): (t': Table)
    requires TuningOk(t)
    ensures TuningOk(t') && Sane(t'.tuning) && t'.store == t.store
    ensures t' != t <==> !t.pinned && !Sane(t.tuning)
    ensures t' != t ==> t'.tuning == DEFAULT_TUNING && t'.pinned
  {
    DefaultTuningIsSane();
    if t.pinned || Sane(t.tuning) then t else Table(t.store, DEFAULT_TUNING, true)
  }

  datatype Room = Ready(t: Table) | Full(t: Table) | Broken

  /** Before an insertion an overfull table is enlarged. */
  ghost function EnsureRoom(c: Client, heap: Heap, t: Table): Room
    requires c.InRange() && 0 < |t.store.buckets| && TuningOk(t)
  {
    var n, used := |t.store.buckets|, Used(t.store.buckets);
    if !Overfull(used, n, t.tuning) then Ready(t)
    else
      var t' := Checked(t);
      if !Overfull(used, n, t'.tuning) then Ready(t')
      else
        match Rehash(c, heap, t.store, GrownSize(n, t'.tuning))
        case Resized(s) => Ready(t'.(store := s))
        case GaveUp(s) => Full(t'.(store := s))
        case Aborted => Broken
  }

  /** A datum known to be absent is added; it may need an overflow entry. */
  ghost function Add(c: Client, heap: Heap, t: Table, x: Ptr): Reply
    requires c.InRange() && 0 < |t.store.buckets|
  {
    var s := t.store;
    var buckets := Put(c, s.buckets, x);
    if BucketOf(c, t, x) == [] then Reply(t.(store := Store(buckets, s.free, s.calls)), Inserted)
    else if 0 < s.free then Reply(t.(store := Store(buckets, s.free - 1, s.calls)), Inserted)
    else if heap(s.calls) then Reply(t.(store := Store(buckets, s.free, s.calls + 1)), Inserted)
    else Reply(t.(store := s.(calls := s.calls + 1)), NoMemory)
  }

  ghost function InsertIfAbsent(c: Client, heap: Heap, t: Table, x: Ptr): Reply
    requires c.InRange() && 0 < |t.store.buckets| && TuningOk(t)
  {
    var found := Lookup(c, t, x);
    if found.Found? then Reply(t, found)
    else
      match EnsureRoom(c, heap, t)
      case Full(t') => Reply(t', NoMemory)
      case Broken => Abort
      case Ready(t') =>
        if |t'.store.buckets| == 0 || Lookup(c, t', x).Found? then Abort else Add(c, heap, t', x)
  }

  /** The match is unlinked; an overflow entry is freed unless the bucket becomes empty. */
  ghost function Unlink(c: Client, t: Table, x: Ptr): (t': Table)
    requires c.InRange() && 0 < |t.store.buckets| && Lookup(c, t, x).Found?
    ensures |t'.store.buckets| == |t.store.buckets|
    ensures t'.tuning == t.tuning && t'.pinned == t.pinned
  {
    var s, i := t.store, c.Slot(x, |t.store.buckets|);
    var b := s.buckets[i];
    var gain := if |b| == 1 then 0 else 1;
    t.(store := Store(s.buckets[i := Without(b, Find(c, b, x))], s.free + gain, s.calls))
  }

  /** A table that became sparse is shrunk; when that fails the free entries are given back. */
  ghost function Shrink(c: Client, heap: Heap, t: Table, answer: Answer): Reply
    requires c.InRange() && 0 < |t.store.buckets| <= MAX_BUCKETS && TuningOk(t)
  {
    var n, used := |t.store.buckets|, Used(t.store.buckets);
    if !Sparse(used, n, t.tuning) then Reply(t, answer)
    else
      var t' := Checked(t);
      if !Sparse(used, n, t'.tuning) then Reply(t', answer)
      else
        match Rehash(c, heap, t.store, ShrunkSize(n, t'.tuning))
        case Resized(s) => Reply(t'.(store := s), answer)
        case GaveUp(s) => Reply(t'.(store := s.(free := 0)), answer)
        case Aborted => Abort
  }

  ghost function Remove(c: Client, heap: Heap, t: Table, x: Ptr): Reply
    requires c.InRange() && 0 < |t.store.buckets| <= MAX_BUCKETS && TuningOk(t)
  {
    var found := Lookup(c, t, x);
    if !found.Found? then Reply(t, NotFound)
    else
      var t' := Unlink(c, t, x);
      if BucketOf(c, t', x) == [] then Shrink(c, heap, t', found) else Reply(t', found)
  }

  ghost function Clear(t: Table): Table {
    var s := t.store;
    t.(store := Store(Empty(|s.buckets|), s.free + Overflow(s.buckets), s.calls))
  }

  ghost function Resize(c: Client, heap: Heap, t: Table, candidate: nat): Reply
    requires c.InRange() && 0 < |t.store.buckets| && Convertible(candidate, t.tuning) && candidate <= Primes.SIZE_MAX
  {
    match Rehash(c, heap, t.store, BucketSize(candidate, t.tuning))
    case Resized(s) => Reply(t.(store := s), Success)
    case GaveUp(s) => Reply(t.(store := s), Failure)
    case Aborted => Abort
  }

  // ---- Every operation against the set it stands for

  ghost function Elements(t: Table): set<Ptr> {
    set x | x in Data(t.store.buckets)
  }

  ghost predicate Matches(c: Client, s: set<Ptr>, x: Ptr) {
    exists y :: y in s && c.Same(x, y)
  }

  lemma StoredInItsBucket(c: Client, t: Table, y: Ptr)
    requires c.InRange() && WellHashed(c, t.store)
    ensures y in Elements(t) <==> y in BucketOf(c, t, y)
  {
    SlotHolds(c, t.store.buckets, y);
  }

  /** `hash_lookup` returns the one stored datum that compares equal, or NULL if there is none. */
  lemma LookupFindsTheMatch(c: Client, t: Table, x: Ptr)
    requires c.Lawful() && Inv(c, t)
    ensures var r := Lookup(c, t, x);
            && (r.Found? || r == NotFound)
            && (r.Found? <==> Matches(c, Elements(t), x))
            && (r.Found? ==> forall y :: y in Elements(t) && c.Same(x, y) <==> y == r.p)
  {
    var b := BucketOf(c, t, x);
    var k := Find(c, b, x);
    forall y | y in Elements(t) && c.Same(x, y) ensures y in b && k < |b| {
      StoredInItsBucket(c, t, y);
      var j :| 0 <= j < |b| && b[j] == y;
    }
    if k < |b| {
      var p := b[k];
      assert c.Slot(p, |t.store.buckets|) == c.Slot(x, |t.store.buckets|);
      StoredInItsBucket(c, t, p);
      forall y | y in Elements(t) && c.Same(x, y) ensures y == p {
        assert c.Same(p, x);
        assert c.Same(p, y);
      }
    }
  }

  lemma SameDataKeepsInv(c: Client, t: Table, s: Store)
    requires c.InRange() && Inv(c, t) && WellHashed(c, s)
    requires Data(s.buckets) == Data(t.store.buckets)
    requires 11 <= |s.buckets| <= MAX_BUCKETS && Primes.Prime(|s.buckets|)
    ensures Inv(c, t.(store := s)) && Elements(t.(store := s)) == Elements(t)
  {
  }

  /** A resize of any acceptable size, with any allocation failures, is invisible in the set. */
  lemma RehashKeepsInv(c: Client, heap: Heap, t: Table, newSize: nat)
    requires c.InRange() && Inv(c, t)
    requires newSize == 0 || (11 <= newSize <= MAX_BUCKETS && Primes.Prime(newSize))
    ensures var r := Rehash(c, heap, t.store, newSize);
            !r.Aborted? && Inv(c, t.(store := r.t)) && Elements(t.(store := r.t)) == Elements(t)
  {
    RehashIsAllOrNothing(c, heap, t.store, newSize);
    SameDataKeepsInv(c, t, Rehash(c, heap, t.store, newSize).t);
  }

  lemma CheckedKeepsInv(c: Client, t: Table)
    requires c.InRange() && Inv(c, t)
    ensures Inv(c, Checked(t)) && Elements(Checked(t)) == Elements(t)
  {
  }

  lemma EnsureRoomKeepsInv(c: Client, heap: Heap, t: Table)
    requires c.InRange() && Inv(c, t)
    ensures var r := EnsureRoom(c, heap, t);
            !r.Broken? && Inv(c, r.t) && Elements(r.t) == Elements(t)
  {
    CheckedKeepsInv(c, t);
    RehashKeepsInv(c, heap, Checked(t), GrownSize(|t.store.buckets|, Checked(t).tuning));
  }

  lemma NewDatumHasNoTwin(c: Client, d: multiset<Ptr>, x: Ptr)
    requires c.Lawful() && NoTwins(c, d)
    requires forall y :: y in d ==> !c.Same(x, y)
    ensures NoTwins(c, d + multiset{x})
  {
    assert x in d ==> !c.Same(x, x);
    forall y, z | y in d + multiset{x} && z in d + multiset{x} && c.Same(y, z) ensures y == z {
      assert c.Same(z, y);
    }
  }

  lemma PutKeepsInv(c: Client, t: Table, x: Ptr, s: Store)
    requires c.Lawful() && Inv(c, t) && x != NULL && !Matches(c, Elements(t), x)
    requires s.buckets == Put(c, t.store.buckets, x)
    ensures Inv(c, t.(store := s)) && Elements(t.(store := s)) == Elements(t) + {x}
  {
    var d := Data(t.store.buckets);
    assert forall y :: y in d ==> y in Elements(t);
    NewDatumHasNoTwin(c, d, x);
    PutStaysHashed(c, t.store.buckets, x);
    assert Data(s.buckets) == d + multiset{x} by { PutLaws(c, t.store.buckets, x); }
  }

  lemma AddKeepsInv(c: Client, heap: Heap, t: Table, x: Ptr)
    requires c.Lawful() && Inv(c, t) && x != NULL && !Matches(c, Elements(t), x)
    ensures var r := Add(c, heap, t, x);
            && r.Reply? && Inv(c, r.t)
            && (r.answer == Inserted || r.answer == NoMemory)
            && Elements(r.t) == Elements(t) + (if r.answer == Inserted then {x} else {})
  {
    var r := Add(c, heap, t, x);
    if r.answer == Inserted {
      PutKeepsInv(c, t, x, r.t.store);
    } else {
      SameDataKeepsInv(c, t, r.t.store);
    }
  }

  lemma CutOut(c: Client, t: Buckets, i: nat, k: nat)
    requires c.InRange() && i < |t| && k < |t[i]| && Hashed(c, t) && NonNull(t)
    ensures var t' := t[i := Without(t[i], k)];
            Hashed(c, t') && NonNull(t') && Data(t) == Data(t') + multiset{t[i][k]}
  {
    var b, b' := t[i], Without(t[i], k);
    assert forall j :: 0 <= j < |b'| ==> b'[j] == b[if j < k then j else j + 1];
    CutOutData(t, i, k);
  }

  lemma CutOutData(t: Buckets, i: nat, k: nat)
    requires i < |t| && k < |t[i]|
    ensures Data(t) == Data(t[i := Without(t[i], k)]) + multiset{t[i][k]}
  {
    var b, b' := t[i], Without(t[i], k);
    assert b == b[..k] + [b[k]] + b[k + 1..];
    assert multiset(b) == multiset(b') + multiset{b[k]};
    ReplaceBucketData(t, i, b');
    MultisetAssoc(Data(t[i := b']), multiset{b[k]}, multiset(b'));
    MultisetCancel(Data(t[i := b']) + multiset{b[k]}, Data(t), multiset(b'));
  }

  lemma LosingOne(c: Client, d: multiset<Ptr>, d': multiset<Ptr>, p: Ptr)
    requires NoTwins(c, d) && d == d' + multiset{p}
    ensures NoTwins(c, d')
    ensures (set y | y in d') == (set y | y in d) - {p}
  {
    assert d[p] <= 1;
    assert forall y :: d'[y] <= d[y];
  }

  lemma UnlinkKeepsInv(c: Client, t: Table, x: Ptr)
    requires c.Lawful() && Inv(c, t) && Lookup(c, t, x).Found?
    ensures var t' := Unlink(c, t, x);
            Inv(c, t') && Elements(t') == Elements(t) - {Lookup(c, t, x).p}
  {
    var buckets, i := t.store.buckets, c.Slot(x, |t.store.buckets|);
    var k := Find(c, buckets[i], x);
    CutOut(c, buckets, i, k);
    LosingOne(c, Data(buckets), Data(Unlink(c, t, x).store.buckets), buckets[i][k]);
  }

  lemma ShrinkKeepsInv(c: Client, heap: Heap, t: Table, answer: Answer)
    requires c.InRange() && Inv(c, t)
    ensures var r := Shrink(c, heap, t, answer);
            r.Reply? && r.answer == answer && Inv(c, r.t) && Elements(r.t) == Elements(t)
  {
    var t' := Checked(t);
    CheckedKeepsInv(c, t);
    RehashKeepsInv(c, heap, t', ShrunkSize(|t.store.buckets|, t'.tuning));
    var r := Rehash(c, heap, t.store, ShrunkSize(|t.store.buckets|, t'.tuning));
    SameDataKeepsInv(c, t'.(store := r.t), if r.GaveUp? then r.t.(free := 0) else r.t);
  }

  // ---- The entry counter

  lemma RehashKeepsSize(c: Client, heap: Heap, t: Store, newSize: nat)
    requires c.InRange() && WellHashed(c, t)
    ensures var r := Rehash(c, heap, t, newSize); !r.Aborted? && Size(r.t.buckets) == Size(t.buckets)
  {
    RehashIsAllOrNothing(c, heap, t, newSize);
    OverflowIsSizeLessUsed(t.buckets);
    OverflowIsSizeLessUsed(Rehash(c, heap, t, newSize).t.buckets);
  }

  /** An insertion adds one entry exactly when it says so. */
  lemma InsertCounts(c: Client, heap: Heap, t: Table, x: Ptr)
    requires c.Lawful() && Inv(c, t) && x != NULL
    ensures var r := InsertIfAbsent(c, heap, t, x);
            r.Reply? && Size(r.t.store.buckets) == Size(t.store.buckets) + if r.answer == Inserted then 1 else 0
  {
    InsertRefinesSet(c, heap, t, x);
    EnsureRoomKeepsSize(c, heap, t);
    var room := EnsureRoom(c, heap, t);
    if room.Ready? && 0 < |room.t.store.buckets| { PutCounts(c, room.t.store.buckets, x); }
  }

  lemma EnsureRoomKeepsSize(c: Client, heap: Heap, t: Table)
    requires c.InRange() && Inv(c, t)
    ensures var r := EnsureRoom(c, heap, t); !r.Broken? && Size(r.t.store.buckets) == Size(t.store.buckets)
  {
    RehashKeepsSize(c, heap, t.store, GrownSize(|t.store.buckets|, Checked(t).tuning));
  }

  lemma PutCounts(c: Client, t: Buckets, x: Ptr)
    requires c.InRange() && 0 < |t|
    ensures Size(Put(c, t, x)) == Size(t) + 1
  {
    PutLaws(c, t, x);
  }

  /** A removal takes one entry away exactly when it found one. */
  lemma RemoveCounts(c: Client, heap: Heap, t: Table, x: Ptr)
    requires c.Lawful() && Inv(c, t)
    ensures var r := Remove(c, heap, t, x);
            r.Reply? && Size(r.t.store.buckets) == Size(t.store.buckets) - if r.answer.Found? then 1 else 0
  {
    RemoveRefinesSet(c, heap, t, x);
    if Lookup(c, t, x).Found? {
      UnlinkKeepsInv(c, t, x);
      var t' := Unlink(c, t, x);
      RehashKeepsSize(c, heap, t'.store, ShrunkSize(|t.store.buckets|, Checked(t').tuning));
      UnlinkCounts(c, t, x);
    }
  }

  lemma UnlinkCounts(c: Client, t: Table, x: Ptr)
    requires c.InRange() && 0 < |t.store.buckets| && Lookup(c, t, x).Found?
    ensures Size(Unlink(c, t, x).store.buckets) == Size(t.store.buckets) - 1
  {
    var buckets, i := t.store.buckets, c.Slot(x, |t.store.buckets|);
    ReplaceBucket(buckets, i, Without(buckets[i], Find(c, buckets[i], x)));
  }

  // ---- Runs

  datatype Op =
    | OpLookup(x: Ptr)
    | OpInsert(x: Ptr)
    | OpRemove(x: Ptr)
    | OpClear
    | OpRehash(candidate: nat)
    | OpRetune(tuning: Tuning)  // the user writes to the tuning structure the table points at

  /**
   * What the user may ask for.  `hash_rehash` divides by the growth threshold unchecked, so what comes
   * out must be convertible; insertions and removals check the tuning first.
   */
  ghost predicate Legal(t: Table, op: Op) {
    match op
    case OpInsert(x) => x != NULL
    case OpRehash(candidate) => candidate <= Primes.SIZE_MAX && Convertible(candidate, t.tuning)
    case _ => true
  }

  ghost function Step(c: Client, heap: Heap, t: Table, op: Op): Reply
    requires c.InRange() && Inv(c, t) && Legal(t, op)
  {
    match op
    case OpLookup(x) => Reply(t, Lookup(c, t, x))
    case OpInsert(x) => InsertIfAbsent(c, heap, t, x)
    case OpRemove(x) => Remove(c, heap, t, x)
    case OpClear => Reply(Clear(t), Success)
    case OpRehash(candidate) => Resize(c, heap, t, candidate)
    case OpRetune(tuning) => Reply(if t.pinned then t else t.(tuning := tuning), Success)
  }

  /** The set before, the answer, and the set after, as the documentation of the package has it. */
  ghost predicate SetStep(c: Client, s: set<Ptr>, op: Op, answer: Answer, s': set<Ptr>) {
    match op
    case OpLookup(x) => s' == s && AnswersSearch(c, s, x, answer)
    case OpInsert(x) =>
      if Matches(c, s, x) then s' == s && AnswersSearch(c, s, x, answer)
      else (answer == Inserted && s' == s + {x}) || (answer == NoMemory && s' == s)
    case OpRemove(x) =>
      && AnswersSearch(c, s, x, answer)
      && s' == (if answer.Found? then s - {answer.p} else s)
    case OpClear => answer == Success && s' == {}
    case OpRehash(_) => (answer == Success || answer == Failure) && s' == s
    case OpRetune(_) => answer == Success && s' == s
  }

  ghost predicate AnswersSearch(c: Client, s: set<Ptr>, x: Ptr, answer: Answer) {
    if Matches(c, s, x)
    then answer.Found? && answer.p in s && c.Same(x, answer.p)
    else answer == NotFound
  }

  lemma InsertRefinesSet(c: Client, heap: Heap, t: Table, x: Ptr)
    requires c.Lawful() && Inv(c, t) && x != NULL
    ensures var r := InsertIfAbsent(c, heap, t, x);
            r.Reply? && Inv(c, r.t) && SetStep(c, Elements(t), OpInsert(x), r.answer, Elements(r.t))
  {
    LookupFindsTheMatch(c, t, x);
    if !Lookup(c, t, x).Found? {
      EnsureRoomKeepsInv(c, heap, t);
      var room := EnsureRoom(c, heap, t);
      if room.Ready? {
        LookupFindsTheMatch(c, room.t, x);
        AddKeepsInv(c, heap, room.t, x);
      }
    }
  }

  lemma RemoveRefinesSet(c: Client, heap: Heap, t: Table, x: Ptr)
    requires c.Lawful() && Inv(c, t)
    ensures var r := Remove(c, heap, t, x);
            r.Reply? && Inv(c, r.t) && SetStep(c, Elements(t), OpRemove(x), r.answer, Elements(r.t))
  {
    LookupFindsTheMatch(c, t, x);
    var found := Lookup(c, t, x);
    if found.Found? {
      UnlinkKeepsInv(c, t, x);
      ShrinkKeepsInv(c, heap, Unlink(c, t, x), found);
    }
  }

  lemma ClearRefinesSet(c: Client, t: Table)
    requires c.InRange() && Inv(c, t)
    ensures Inv(c, Clear(t)) && Elements(Clear(t)) == {}
  {
    EmptyLaws(|t.store.buckets|);
  }

  lemma StepRefinesSet(c: Client, heap: Heap, t: Table, op: Op)
    requires c.Lawful() && Inv(c, t) && Legal(t, op)
    ensures var r := Step(c, heap, t, op);
            r.Reply? && Inv(c, r.t) && SetStep(c, Elements(t), op, r.answer, Elements(r.t))
  {
    match op
    case OpLookup(x) => LookupFindsTheMatch(c, t, x);
    case OpInsert(x) => InsertRefinesSet(c, heap, t, x);
    case OpRemove(x) => RemoveRefinesSet(c, heap, t, x);
    case OpClear => ClearRefinesSet(c, t);
    case OpRehash(candidate) => RehashKeepsInv(c, heap, t, BucketSize(candidate, t.tuning));
    case OpRetune(tuning) =>
  }

  /** The answers and the final table of a run; nothing once an operation has aborted. */
  datatype Trace = Trace(t: Table, answers: seq<Answer>) | Dead

  /** Every operation is legal when its turn comes. */
  ghost predicate LegalRun(c: Client, heap: Heap, t: Table, ops: seq<Op>)
    requires c.Lawful() && Inv(c, t)
    decreases |ops|
  {
    ops == [] ||
    (Legal(t, ops[0]) && (StepRefinesSet(c, heap, t, ops[0]); LegalRun(c, heap, Step(c, heap, t, ops[0]).t, ops[1..])))
  }

  ghost function Run(c: Client, heap: Heap, t: Table, ops: seq<Op>): Trace
    requires c.Lawful() && Inv(c, t) && LegalRun(c, heap, t, ops)
    decreases |ops|
  {
    if ops == [] then Trace(t, [])
    else
      StepRefinesSet(c, heap, t, ops[0]);
      match Step(c, heap, t, ops[0])
      case Abort => Dead
      case Reply(t', answer) =>
        var rest := Run(c, heap, t', ops[1..]);
        if rest.Dead? then Dead else Trace(rest.t, [answer] + rest.answers)
  }

  /** A run of the mathematical set that gives these answers. */
  ghost predicate SetRun(c: Client, s: set<Ptr>, ops: seq<Op>, answers: seq<Answer>, s': set<Ptr>)
    decreases |ops|
  {
    |answers| == |ops| &&
    if ops == [] then s' == s
    else exists mid :: SetStep(c, s, ops[0], answers[0], mid) && SetRun(c, mid, ops[1..], answers[1..], s')
  }

  /**
   * Over every sequence of operations and every pattern of allocation failures no `abort ()` is
   * reached, the invariant holds throughout and the answers are those of a mathematical set.
   */
  lemma {:induction false} RunRefinesSet(c: Client, heap: Heap, t: Table, ops: seq<Op>)
    requires c.Lawful() && Inv(c, t) && LegalRun(c, heap, t, ops)
    ensures var r := Run(c, heap, t, ops);
            r.Trace? && Inv(c, r.t) && SetRun(c, Elements(t), ops, r.answers, Elements(r.t))
    decreases |ops|
  {
    if ops != [] {
      StepRefinesSet(c, heap, t, ops[0]);
      var first := Step(c, heap, t, ops[0]);
      RunRefinesSet(c, heap, first.t, ops[1..]);
      var r := Run(c, heap, t, ops);
      assert r.answers[1..] == Run(c, heap, first.t, ops[1..]).answers;
      assert SetStep(c, Elements(t), ops[0], r.answers[0], Elements(first.t));
    }
  }
}
