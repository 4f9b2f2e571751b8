/** The table of gnulib/lib/hash.c itself, on the bucket array, linked chains and the free list. */
module HashTable {
  import opened HashBuckets
  import opened HashEntries
  import opened HashSizing

  const NOWHERE := -1

  /**
   * A row of bucket heads over disjoint chains.  At bucket `cut` the chain has been taken away but
   * the link to it has not been reset yet.
   */
  ghost predicate Row(bucket: seq<Entry>, contents: Buckets, nodes: set<Entry>, cut: int)
    reads nodes
  {
    && |bucket| == |contents|
    && (forall i :: 0 <= i < |bucket| ==> bucket[i] in nodes && bucket[i].repr <= nodes)
    && (forall i :: 0 <= i < |bucket| ==>
          bucket[i].contents == contents[i] && HeadAt(bucket, i, cut))
    && (forall i, k :: 0 <= i < k < |bucket| ==> bucket[i].repr !! bucket[k].repr)
  }

  ghost predicate HeadAt(bucket: seq<Entry>, i: nat, cut: int)
    requires i < |bucket|
    reads bucket[i], bucket[i].repr
  {
    bucket[i].HeadBut(if i == cut then null else bucket[i].next)
  }

  class Hashtable {
    const client: Client
    const memory: Memory
    var bucket: seq<Entry>
    var nBucketsUsed: int
    var nEntries: int
    var tuning: Tuning
    var pinned: bool            // `tuning` is the default one, for good
    var freeList: FreeList

    ghost var contents: Buckets   // the data of each bucket
    ghost var nodes: set<Entry>   // all bucket heads and overflow entries

    ghost predicate Shape(cut: int)
      reads this`bucket, this`nBucketsUsed, this`contents, this`nodes, nodes
    {
      && 0 < |bucket| && Row(bucket, contents, nodes, cut)
      && nBucketsUsed == Used(contents)
    }

    ghost predicate Good()
      reads this`bucket, this`nBucketsUsed, this`contents, this`nodes, nodes
      reads this`freeList, freeList, freeList.repr, memory
    {
      && Shape(NOWHERE) && freeList.Valid() && nodes !! freeList.repr
      && nodes <= memory.entries && freeList.repr <= memory.entries
    }

    constructor (client: Client, memory: Memory, bucket: seq<Entry>, freeList: FreeList,
                 tuning: Tuning, pinned: bool)
      requires 0 < |bucket|
      requires forall i :: 0 <= i < |bucket| ==> bucket[i].Head() && bucket[i].contents == []
      requires forall i :: 0 <= i < |bucket| ==> bucket[i].repr == {bucket[i]}
      requires forall i, k :: 0 <= i < k < |bucket| ==> bucket[i] != bucket[k]
      ensures Shape(NOWHERE) && contents == Empty(|bucket|)
      ensures this.client == client && this.memory == memory && this.bucket == bucket
      ensures this.freeList == freeList && this.tuning == tuning && this.pinned == pinned
      ensures nEntries == 0
      ensures nodes == (set e | e in bucket)
    {
      this.client, this.memory, this.bucket := client, memory, bucket;
      this.freeList, this.tuning, this.pinned := freeList, tuning, pinned;
      nBucketsUsed, nEntries := 0, 0;
      contents, nodes := Empty(|bucket|), set e | e in bucket;
      EmptyLaws(|bucket|);
    }

    /** Only the entries of bucket `i` changed; it may have gained fresh ones or lost some. */
    twostate lemma RowChanged(i: nat, new cut: int, new cut': int, new nodes': set<Entry>)
      requires old(Row(bucket, contents, nodes, cut)) && i < |bucket| && bucket == old(bucket)
      requires cut == cut' || (cut == NOWHERE && cut' == i) || (cut == i && cut' == NOWHERE)
      requires HeadAt(bucket, i, cut')
      requires bucket[i].repr - old(bucket[i].repr) !! old(nodes)
      requires bucket[i].repr <= nodes' && old(nodes) - old(bucket[i].repr) <= nodes'
      requires forall o :: o in old(nodes) && o !in old(bucket[i].repr) ==> unchanged(o)
      ensures Row(bucket, old(contents)[i := bucket[i].contents], nodes', cut')
    {
      assert old(HeadAt(bucket, i, cut));
      forall k | 0 <= k < |bucket| && k != i
        ensures unchanged(bucket[k]) && bucket[k].repr !! bucket[i].repr
        ensures bucket[k].contents == old(contents)[k] && HeadAt(bucket, k, cut')
      {
        assert old(bucket[k].repr) !! old(bucket[i].repr);
        assert old(HeadAt(bucket, k, cut));
      }
    }

    /** Links an entry that is in no list behind the head of a used bucket. */
    method LinkAfterHead(i: nat, e: Entry)
      requires Shape(NOWHERE) && i < |bucket| && bucket[i].data != NULL && e !in nodes
      modifies this`contents, this`nodes, e, bucket[i]
      ensures Shape(NOWHERE) && nodes == old(nodes) + {e}
      ensures contents == old(contents)[i := Link(old(contents)[i], old(e.data))]
    {
      bucket[i].LinkBehind(e);
      RowChanged(i, NOWHERE, NOWHERE, nodes + {e});
      ReplaceBucketUsed(contents, i, bucket[i].contents);
      contents := contents[i := bucket[i].contents];
      nodes := nodes + {e};
    }

    /** Puts a datum into the head of an empty bucket. */
    method FillHead(i: nat, data: Ptr)
      requires Shape(NOWHERE) && i < |bucket| && bucket[i].data == NULL && data != NULL
      modifies this`nBucketsUsed, this`contents, bucket[i]
      ensures Shape(NOWHERE)
      ensures contents == old(contents)[i := [data]]
    {
      bucket[i].Fill(data);
      RowChanged(i, NOWHERE, NOWHERE, nodes);
      nBucketsUsed := nBucketsUsed + 1;
      ReplaceBucketUsed(contents, i, [data]);
      contents := contents[i := [data]];
    }

    /** `safe_hasher` */
    method Slot(x: Ptr) returns (i: nat)
      requires client.InRange() && 0 < |bucket|
      ensures i < |bucket| && i == client.Slot(x, |bucket|)
    {
      i := client.hasher(x, |bucket|);
    }

    /** The datum of an overflow entry becomes a bucket head, and the entry is freed. */
    method FillFrom(i: nat, e: Entry)
      requires Good() && i < |bucket| && bucket[i].data == NULL
      requires e in memory.entries - nodes - freeList.repr && e.data != NULL
      modifies this`contents, this`nBucketsUsed, bucket[i], freeList, e
      ensures Good()
      ensures contents == old(contents)[i := [old(e.data)]]
      ensures |freeList.entries| == old(|freeList.entries|) + 1 && freeList.repr <= old(freeList.repr) + {e}
    {
      FillHead(i, e.data);
      freeList.FreeEntry(e);
      assert Shape(NOWHERE);
    }

    /** An overflow entry of another table arrives: relinked, or freed when it becomes a head. */
    method TakeOver(e: Entry)
      requires Good() && client.InRange() && e in memory.entries - nodes - freeList.repr && e.data != NULL
      modifies this`contents, this`nodes, this`nBucketsUsed, nodes, freeList, e
      ensures Good()
      ensures contents == Put(client, old(contents), old(e.data))
      ensures |freeList.entries| == old(|freeList.entries|) +
                (if old(contents)[client.Slot(old(e.data), |old(contents)|)] == [] then 1 else 0)
      ensures nodes <= old(nodes) + {e} && freeList.repr <= old(freeList.repr) + {e}
    {
      var i := Slot(e.data);
      assert HeadAt(bucket, i, NOWHERE);
      if bucket[i].data != NULL {
        LinkAfterHead(i, e);
      } else {
        FillFrom(i, e);
      }
    }

    /** Puts a datum behind the head of a used bucket, in a recycled or allocated entry. */
    method LinkNew(i: nat, x: Ptr) returns (ok: bool)
      requires Good() && i < |bucket| && bucket[i].data != NULL
      modifies this`contents, this`nodes, bucket[i], freeList, freeList.repr, memory
      ensures Good()
      ensures ok <==> old(freeList.entries) != [] || memory.succeeds(old(memory.calls))
      ensures contents == if ok then old(contents)[i := Link(old(contents)[i], x)] else old(contents)
      ensures old(freeList.entries) == [] ==>
                freeList.entries == [] && memory.calls == old(memory.calls) + 1
      ensures old(freeList.entries) != [] ==>
                freeList.entries == old(freeList.entries)[1..] && memory.calls == old(memory.calls)
      ensures memory.OnlyGrew()
      ensures nodes <= old(nodes) + old(freeList.repr) + (memory.entries - old(memory.entries))
      ensures freeList.repr <= old(freeList.repr)
    {
      var e := freeList.EntryFor(x, memory);
      ok := e != null;
      assert Shape(NOWHERE);
      if ok { LinkAfterHead(i, e); }
    }

    /** Adds a datum: into an empty head, or into an overflow entry if one can be had. */
    method AddDatum(x: Ptr) returns (ok: bool)
      requires Good() && client.InRange() && x != NULL
      modifies this`contents, this`nodes, this`nBucketsUsed, nodes, freeList, freeList.repr, memory
      ensures Good()
      ensures ok <==> || old(contents)[client.Slot(x, |old(contents)|)] == []
                      || old(freeList.entries) != [] || memory.succeeds(old(memory.calls))
      ensures contents == if ok then Put(client, old(contents), x) else old(contents)
      ensures old(contents)[client.Slot(x, |old(contents)|)] == [] ==>
                |freeList.entries| == old(|freeList.entries|) && memory.calls == old(memory.calls)
      ensures old(contents)[client.Slot(x, |old(contents)|)] != [] ==>
                if old(freeList.entries) != []
                then |freeList.entries| == old(|freeList.entries|) - 1 && memory.calls == old(memory.calls)
                else freeList.entries == [] && memory.calls == old(memory.calls) + 1
      ensures memory.OnlyGrew()
      ensures nodes <= old(nodes) + old(freeList.repr) + (memory.entries - old(memory.entries))
      ensures freeList.repr <= old(freeList.repr)
    {
      var i := Slot(x);
      assert HeadAt(bucket, i, NOWHERE);
      if bucket[i].data != NULL {
        ok := LinkNew(i, x);
      } else {
        FillHead(i, x);
        ok := true;
      }
    }

    /** Deletes the match from bucket `i`, if there is one; `t` and `left` are what remains. */
    method DeleteIn(i: nat, x: Ptr) returns (p: Ptr, emptied: bool, ghost t: Buckets, ghost left: set<Entry>)
      requires Good() && i < |bucket| && NULL !in contents[i]
      modifies bucket[i].repr, freeList
      ensures |t| == |contents| && t == contents[i := t[i]] && Row(bucket, t, left, NOWHERE)
      ensures Deleted(client, contents[i], x, p, t[i], old(|freeList.entries|), |freeList.entries|)
      ensures Used(t) == Used(contents) - if emptied then 1 else 0
      ensures freeList.Valid() && left <= nodes && left !! freeList.repr && freeList.repr <= memory.entries
    {
      var head := bucket[i];
      assert HeadAt(bucket, i, NOWHERE);
      p := head.Delete(client, x, freeList);
      left := nodes - (old(head.repr) - head.repr);
      RowChanged(i, NOWHERE, NOWHERE, left);
      t := contents[i := head.contents];
      emptied := p != NULL && head.data == NULL;
      DeletedUsed(client, contents, i, x, p, t[i], old(|freeList.entries|), |freeList.entries|);
    }

    /** Notes what a deletion left, and counts the bucket it may have emptied. */
    method Record(emptied: bool, ghost t: Buckets, ghost left: set<Entry>)
      requires 0 < |bucket| && Row(bucket, t, left, NOWHERE)
      requires Used(t) == nBucketsUsed - if emptied then 1 else 0
      modifies this`contents, this`nodes, this`nBucketsUsed
      ensures Shape(NOWHERE) && contents == t && nodes == left
    {
      if emptied { nBucketsUsed := nBucketsUsed - 1; }
      contents, nodes := t, left;
    }

    /** As `DeleteIn`, keeping count of the used buckets. */
    method DeleteFrom(i: nat, x: Ptr) returns (p: Ptr)
      requires Good() && i < |bucket| && NULL !in contents[i]
      modifies this`contents, this`nodes, this`nBucketsUsed, nodes, freeList
      ensures Good()
      ensures contents == old(contents)[i := contents[i]]
      ensures Deleted(client, old(contents)[i], x, p, contents[i], old(|freeList.entries|), |freeList.entries|)
    {
      var emptied; ghost var t, left;
      p, emptied, t, left := DeleteIn(i, x);
      Record(emptied, t, left);
    }

    /** Empties bucket `i`; the counters are reset by the caller. */
    method ClearBucket(i: nat)
      requires Row(bucket, contents, nodes, NOWHERE) && i < |bucket|
      requires freeList.Valid() && nodes !! freeList.repr && nodes <= memory.entries && freeList.repr <= memory.entries
      modifies this`contents, this`nodes, nodes, freeList
      ensures Row(bucket, contents, nodes, NOWHERE) && nodes <= old(nodes)
      ensures freeList.Valid() && nodes !! freeList.repr && freeList.repr <= memory.entries
      ensures contents == old(contents)[i := []]
      ensures |freeList.entries| == old(|freeList.entries|) + if old(contents)[i] == [] then 0 else |old(contents)[i]| - 1
    {
      var head := bucket[i];
      assert HeadAt(bucket, i, NOWHERE);
      if head.data != NULL {
        head.Clear(freeList);
      }
      ghost var nodes' := nodes - (old(head.repr) - head.repr);
      RowChanged(i, NOWHERE, NOWHERE, nodes');
      contents, nodes := contents[i := head.contents], nodes';
    }
  }
}
