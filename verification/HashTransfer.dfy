/** `transfer_entries`: entries go from one table to another with which it shares the free list. */
module HashTransfer {
  import opened HashBuckets
  import opened HashEntries
  import opened HashRehash
  import opened HashTable

  /** Entries on their way from one bucket to another table. */
  ghost predicate Detached(rest: seq<Entry>, xs: seq<Ptr>, cursor: Entry?)
    reads rest
  {
    && Linked(cursor, rest) && |rest| == |xs|
    && (forall j :: 0 <= j < |rest| ==> rest[j].data == xs[j])
    && NULL !in xs
  }

  lemma DetachedTail(rest: seq<Entry>, xs: seq<Ptr>, cursor: Entry)
    requires Detached(rest, xs, cursor)
    ensures rest != [] && rest[0] == cursor && cursor.data == xs[0] != NULL
    ensures Detached(rest[1..], xs[1..], cursor.next) && cursor !in rest[1..]
  {
    assert forall j :: 0 <= j < |rest| ==> xs[j] in xs;
  }

  /** Takes the chain of a used bucket off, without resetting the link to it. */
  ghost method DetachChain(src: Hashtable, i: nat) returns (rest: seq<Entry>)
    requires src.Shape(NOWHERE) && NonNull(src.contents) && i < |src.bucket| && src.contents[i] != []
    modifies src`contents, src`nodes, src.bucket[i]
    ensures src.Shape(i) && src.bucket[i].next == old(src.bucket[i].next)
    ensures src.bucket[i].data == old(src.bucket[i].data)
    ensures src.contents == old(src.contents)[i := old(src.contents)[i][..1]]
    ensures Detached(rest, old(src.contents)[i][1..], src.bucket[i].next)
    ensures src.nodes <= old(src.nodes) && src.bucket[i] in src.nodes
    ensures forall e :: e in rest ==> e in old(src.nodes) && e !in src.nodes
  {
    var head := src.bucket[i];
    assert HeadAt(src.bucket, i, NOWHERE);
    rest := head.chain;
    var lost := head.repr - {head};
    head.GiveUpChain();
    src.RowChanged(i, NOWHERE, i, src.nodes - lost);
    ReplaceBucketUsed(src.contents, i, head.contents);
    src.contents := src.contents[i := head.contents];
    src.nodes := src.nodes - lost;
  }

  /** Two tables that share the free list, the first in order and the second but for one link. */
  ghost predicate Apart(dst: Hashtable, src: Hashtable, cut: int)
    reads dst, dst.nodes, dst.freeList, dst.freeList.repr, dst.memory, src, src.nodes
  {
    && dst != src && dst.client == src.client && dst.memory == src.memory
    && dst.client.InRange()
    && dst.Good() && src.Shape(cut)
    && src.nodes !! dst.nodes && src.nodes !! dst.freeList.repr && src.nodes <= dst.memory.entries
  }

  /** A table with the entries `rest` on their way to it, the end result of which is `goal`. */
  ghost predicate Receiving(dst: Hashtable, rest: seq<Entry>, xs: seq<Ptr>, cursor: Entry?,
                            goal: (Buckets, nat), moving: set<Entry>)
    reads dst, dst.nodes, dst.freeList, dst.freeList.repr, dst.memory, rest
  {
    && dst.Good() && Detached(rest, xs, cursor) && moving <= dst.memory.entries
    && (forall e :: e in rest ==> e in moving && e !in dst.nodes && e !in dst.freeList.repr)
    && ChainLeadsTo(dst.client, dst.contents, |dst.freeList.entries|, xs, goal)
  }

  /** One turn of the inner loop of `transfer_entries`. */
  method ReceiveNext(dst: Hashtable, cursor: Entry, ghost rest: seq<Entry>, ghost xs: seq<Ptr>,
                     ghost goal: (Buckets, nat), ghost moving: set<Entry>) returns (next: Entry?)
    requires Receiving(dst, rest, xs, cursor, goal, moving)
    modifies dst`contents, dst`nodes, dst`nBucketsUsed, dst.nodes, dst.freeList, cursor
    ensures rest != [] && Receiving(dst, rest[1..], xs[1..], next, goal, moving)
    ensures dst.nodes <= old(dst.nodes) + {cursor} && dst.freeList.repr <= old(dst.freeList.repr) + {cursor}
    ensures cursor in moving
  {
    DetachedTail(rest, xs, cursor);
    ChainStep(dst.client, dst.contents, |dst.freeList.entries|, xs, goal);
    next := cursor.next;
    dst.TakeOver(cursor);
  }

  /** The inner loop of `transfer_entries`, over the entries of a chain that has been taken off. */
  method TransferDetached(dst: Hashtable, first: Entry?, ghost chain: seq<Entry>, ghost xs: seq<Ptr>,
                          ghost goal: (Buckets, nat), ghost moving: set<Entry>)
    requires Receiving(dst, chain, xs, first, goal, moving)
    modifies dst`contents, dst`nodes, dst`nBucketsUsed, dst.nodes, dst.freeList, moving
    ensures dst.Good() && (dst.contents, |dst.freeList.entries|) == goal
    ensures dst.nodes <= old(dst.nodes) + moving && dst.freeList.repr <= old(dst.freeList.repr) + moving
  {
    var cursor := first;
    ghost var rest, ys := chain, xs;
    while cursor != null
      invariant Receiving(dst, rest, ys, cursor, goal, moving)
      invariant dst.nodes <= old(dst.nodes) + moving && dst.freeList.repr <= old(dst.freeList.repr) + moving
      decreases |rest|
    {
      cursor := ReceiveNext(dst, cursor, rest, ys, goal, moving);
      rest, ys := rest[1..], ys[1..];
    }
  }

  ghost function MoveOf(dst: Hashtable, src: Hashtable): Move
    reads dst, dst.freeList, dst.memory, src
  {
    Move(dst.contents, src.contents, |dst.freeList.entries|, dst.memory.calls)
  }

  /** Sends the overflow entries of a used bucket off; the link to them is still there. */
  method SendChain(dst: Hashtable, src: Hashtable, i: nat)
    requires Apart(dst, src, NOWHERE) && NonNull(src.contents)
    requires i < |src.bucket| && src.contents[i] != []
    modifies dst`contents, dst`nodes, dst`nBucketsUsed, dst.nodes, dst.freeList, src`contents, src`nodes, src.nodes
    ensures Apart(dst, src, i)
    ensures MoveOf(dst, src) == MoveOverflow(dst.client, old(MoveOf(dst, src)), i)
  {
    ghost var xs := src.contents[i][1..];
    ghost var goal := OverflowLeads(dst.client, MoveOf(dst, src), i);
    ghost var chain := DetachChain(src, i);
    ghost var moving := old(src.nodes) - src.nodes;
    assert dst.Good();
    TransferDetached(dst, src.bucket[i].next, chain, xs, goal, moving);
    assert src.Shape(i);
  }

  /** Transfers the overflow entries of a used bucket and resets the link to them. */
  method TransferChain(dst: Hashtable, src: Hashtable, i: nat)
    requires Apart(dst, src, NOWHERE) && NonNull(src.contents)
    requires i < |src.bucket| && src.contents[i] != []
    modifies dst`contents, dst`nodes, dst`nBucketsUsed, dst.freeList, src`contents, src`nodes, dst.memory.entries
    ensures Apart(dst, src, NOWHERE)
    ensures MoveOf(dst, src) == MoveOverflow(dst.client, old(MoveOf(dst, src)), i)
  {
    SendChain(dst, src, i);
    ResetLink(src, i);
  }

  method ResetLink(src: Hashtable, i: nat)
    requires src.Shape(i) && i < |src.bucket|
    modifies src.bucket[i]
    ensures src.Shape(NOWHERE)
  {
    assert HeadAt(src.bucket, i, i);
    src.bucket[i].next := null;
    src.RowChanged(i, i, NOWHERE, src.nodes);
    assert src.contents[i := src.bucket[i].contents] == src.contents;
  }

  /** Empties a head whose datum has gone to another table. */
  method EmptyHead(src: Hashtable, i: nat)
    requires src.Shape(NOWHERE) && i < |src.bucket| && |src.contents[i]| == 1
    modifies src`nBucketsUsed, src`contents, src.bucket[i]
    ensures src.Shape(NOWHERE)
    ensures src.contents == old(src.contents)[i := []]
  {
    var head := src.bucket[i];
    assert HeadAt(src.bucket, i, NOWHERE);
    head.Vacate();
    src.RowChanged(i, NOWHERE, NOWHERE, src.nodes);
    ReplaceBucketUsed(src.contents, i, []);
    src.nBucketsUsed := src.nBucketsUsed - 1;
    src.contents := src.contents[i := []];
  }

  /** `m'` is what `MoveHead` makes of `m`, but for the head that is still to be emptied. */
  ghost predicate HeadCopied(c: Client, heap: Heap, m: Move, i: nat, m': Move, ok: bool) {
    && c.InRange() && 0 < |m.dst| && i < |m.src| && |m.src[i]| == 1 && m'.src == m.src
    && MoveHead(c, heap, m, i) == (if ok then m'.(src := m.src[i := []]) else m', ok)
  }

  method CopyHead(dst: Hashtable, src: Hashtable, i: nat) returns (ok: bool)
    requires Apart(dst, src, NOWHERE) && NonNull(src.contents)
    requires i < |src.bucket| && |src.contents[i]| == 1
    modifies dst`contents, dst`nodes, dst`nBucketsUsed, dst.nodes
    modifies dst.freeList, dst.freeList.repr, dst.memory
    ensures Apart(dst, src, NOWHERE)
    ensures HeadCopied(dst.client, dst.memory.succeeds, old(MoveOf(dst, src)), i, MoveOf(dst, src), ok)
    ensures dst.memory.OnlyGrew()
  {
    assert HeadAt(src.bucket, i, NOWHERE);
    ok := dst.AddDatum(src.bucket[i].data);
    assert src.Shape(NOWHERE);
  }

  /** Transfers a lone bucket head, which may fail for want of memory. */
  method TransferHead(dst: Hashtable, src: Hashtable, i: nat) returns (ok: bool)
    requires Apart(dst, src, NOWHERE) && NonNull(src.contents)
    requires i < |src.bucket| && |src.contents[i]| == 1
    modifies dst`contents, dst`nodes, dst`nBucketsUsed, src`contents, src`nBucketsUsed
    modifies dst.freeList, dst.memory, dst.memory.entries
    ensures Apart(dst, src, NOWHERE)
    ensures (MoveOf(dst, src), ok) == MoveHead(dst.client, dst.memory.succeeds, old(MoveOf(dst, src)), i)
    ensures dst.memory.OnlyGrew()
  {
    ok := CopyHead(dst, src, i);
    if ok { EmptyHead(src, i); }
  }

  /** One turn of the outer loop of `transfer_entries`. */
  method TransferBucket(dst: Hashtable, src: Hashtable, i: nat, safe: bool) returns (ok: bool)
    requires Apart(dst, src, NOWHERE) && NonNull(src.contents) && i < |src.bucket|
    modifies dst`contents, dst`nodes, dst`nBucketsUsed, src`contents, src`nodes, src`nBucketsUsed
    modifies dst.freeList, dst.memory, dst.memory.entries
    ensures Apart(dst, src, NOWHERE)
    ensures (MoveOf(dst, src), ok) == MoveBucket(dst.client, dst.memory.succeeds, old(MoveOf(dst, src)), i, safe)
    ensures dst.memory.OnlyGrew()
  {
    assert HeadAt(src.bucket, i, NOWHERE);
    ok := true;
    if src.bucket[i].data != NULL {
      CutStaysNonNull(src.contents, i, src.contents[i][..1]);
      TransferChain(dst, src, i);
      if !safe {
        ok := TransferHead(dst, src, i);
      }
    }
  }

  /** The turn for bucket `i` on the way to `goal`. */
  method TakeTurn(dst: Hashtable, src: Hashtable, i: nat, safe: bool, ghost goal: (Move, bool)) returns (ok: bool)
    requires Apart(dst, src, NOWHERE) && NonNull(src.contents) && i < |src.bucket|
    requires LeadsTo(dst.client, dst.memory.succeeds, MoveOf(dst, src), i, safe, goal)
    modifies dst`contents, dst`nodes, dst`nBucketsUsed, src`contents, src`nodes, src`nBucketsUsed
    modifies dst.freeList, dst.memory, dst.memory.entries
    ensures Apart(dst, src, NOWHERE) && NonNull(src.contents)
    ensures if ok then LeadsTo(dst.client, dst.memory.succeeds, MoveOf(dst, src), i + 1, safe, goal)
            else (MoveOf(dst, src), false) == goal
    ensures dst.memory.OnlyGrew()
  {
    TransferStep(dst.client, dst.memory.succeeds, MoveOf(dst, src), i, safe, goal);
    MoveBucketSource(dst.client, dst.memory.succeeds, MoveOf(dst, src), i, safe);
    ok := TransferBucket(dst, src, i, safe);
  }

  /** `transfer_entries` */
  method TransferEntries(dst: Hashtable, src: Hashtable, safe: bool) returns (ok: bool)
    requires Apart(dst, src, NOWHERE) && NonNull(src.contents)
    modifies dst`contents, dst`nodes, dst`nBucketsUsed, src`contents, src`nodes, src`nBucketsUsed
    modifies dst.freeList, dst.memory, dst.memory.entries
    ensures Apart(dst, src, NOWHERE)
    ensures LeadsTo(dst.client, dst.memory.succeeds, old(MoveOf(dst, src)), 0, safe, (MoveOf(dst, src), ok))
    ensures dst.memory.OnlyGrew()
  {
    ghost var goal := TransferLeads(dst.client, dst.memory.succeeds, MoveOf(dst, src), safe);
    var i := 0;
    while i < |src.bucket|
      invariant 0 <= i <= |src.bucket|
      invariant Apart(dst, src, NOWHERE) && NonNull(src.contents)
      invariant dst.memory.OnlyGrew()
      invariant LeadsTo(dst.client, dst.memory.succeeds, MoveOf(dst, src), i, safe, goal)
    {
      ok := TakeTurn(dst, src, i, safe, goal);
      if !ok { return; }
      i := i + 1;
    }
    TransferEnds(dst.client, dst.memory.succeeds, MoveOf(dst, src), i, safe, goal);
    ok := true;
  }
}
