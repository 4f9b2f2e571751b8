/** `struct hash_entry`: bucket heads with their overflow chains, and the list of freed entries. */
module HashEntries {
  import opened HashBuckets

  /**
   * A bucket head or an overflow entry.  The ghost fields of a head describe its bucket: the
   * overflow entries in order, the data of the bucket, and all entries of the bucket.  The `rank`
   * of an entry counts the entries behind it in its list.
   */
  class Entry {
    var data: Ptr
    var next: Entry?
    ghost var rank: int
    ghost var chain: seq<Entry>
    ghost var contents: Bucket
    ghost var repr: set<Entry>

    /** A zeroed entry, as `calloc` leaves it: the head of an empty bucket. */
    constructor ()
      ensures Head() && contents == [] && repr == {this}
    {
      data, next, rank := NULL, null, -1;
      chain, contents, repr := [], [], {this};
    }

    ghost predicate Head()
      reads this, repr
    {
      HeadBut(next)
    }

    /** The head of a bucket whose chain starts at `first`, whatever `next` says. */
    ghost predicate HeadBut(first: Entry?)
      reads this, repr
    {
      && this in repr && rank == -1
      && (data == NULL <==> contents == [])
      && (contents == [] ==> chain == [])
      && (contents != [] ==> |contents| == |chain| + 1 && contents[0] == data)
      && (forall j :: 0 <= j < |chain| ==>
            chain[j] in repr && j + 1 < |contents| && chain[j].data == contents[j + 1])
      && Linked(first, chain)
    }

    /** Puts an entry that is in no list right behind the head of a used bucket. */
    method LinkBehind(e: Entry)
      requires Head() && data != NULL && e !in repr
      modifies this, e
      ensures Head() && data == old(data) && e.data == old(e.data)
      ensures contents == Link(old(contents), e.data) && repr == old(repr) + {e}
    {
      e.next := next;
      next := e;

      e.rank := |chain|;
      contents := Link(contents, e.data);
      chain := [e] + chain;
      repr := repr + {e};
    }

    /** The entry that holds datum number `j` of the bucket; null past the last one. */
    ghost function At(j: nat): Entry?
      reads this
    {
      if j == 0 then this else if j <= |chain| then chain[j - 1] else null
    }

    lemma Step(j: nat)
      requires Head() && j < |contents|
      ensures At(j) != null && At(j) in repr
      ensures At(j).data == contents[j] && At(j).next == At(j + 1)
      ensures At(j + 1) == null <==> j + 1 == |contents|
    {
    }

    /** As `Step`, for the head of an empty bucket too. */
    lemma StepAny(j: nat)
      requires Head() && j <= |chain|
      ensures At(j) != null && At(j) in repr && At(j).next == At(j + 1)
      ensures At(j).data == if contents == [] then NULL else contents[j]
      ensures At(j + 1) == null <==> j == |chain|
    {
    }

    /** The datum of the bucket that matches, or NULL. */
    method Search(client: Client, x: Ptr) returns (p: Ptr)
      requires Head() && NULL !in contents
      ensures var k := Find(client, contents, x);
              p == if k < |contents| then contents[k] else NULL
    {
      if data == NULL { return NULL; }
      var cursor: Entry? := this;
      ghost var j := 0;
      while cursor != null
        invariant j <= |contents| && cursor == At(j) && (cursor == null <==> j == |contents|)
        invariant forall i :: 0 <= i < j ==> !client.Same(x, contents[i])
        decreases |contents| - j
      {
        Step(j);
        if client.Same(x, cursor.data) {
          FindIs(client, contents, x, j);
          return cursor.data;
        }
        cursor := cursor.next;
        j := j + 1;
      }
      FindIs(client, contents, x, j);
      p := NULL;
    }

    /** Deletes the head; the first overflow entry, if any, is copied into it and freed. */
    method DeleteHead(spare: FreeList)
      requires Head() && contents != [] && NULL !in contents && spare.Valid() && repr !! spare.repr
      modifies this, chain, spare
      ensures Head() && contents == old(contents)[1..] && spare.Valid()
      ensures repr <= old(repr) && spare.repr <= old(spare.repr) + old(repr) && repr !! spare.repr
      ensures |spare.entries| == old(|spare.entries|) + if old(|contents|) == 1 then 0 else 1
    {
      if next != null {
        var second := next;
        data, next := second.data, second.next;
        contents, chain, repr := contents[1..], chain[1..], repr - {second};
        spare.FreeEntry(second);
      } else {
        data := NULL;
        contents := [];
      }
    }

    /** Links the list past overflow entry `k`, which follows `cursor`. */
    method PassOver(cursor: Entry, ghost k: nat) returns (e: Entry)
      requires Head() && k < |chain| && cursor == At(k)
      modifies this`next, chain
      ensures e == chain[k] && Linked(next, Drop(chain, k))
      ensures this !in chain && forall j :: 0 <= j < |chain| ==> chain[j].data == old(chain[j].data)
    {
      e := cursor.next;
      if cursor == this {
        next := e.next;
      } else {
        Bypass(cursor, chain, k);
      }
    }

    /** Takes overflow entry `k`, which follows `cursor`, out of the chain. */
    method UnlinkAfter(cursor: Entry, ghost k: nat) returns (e: Entry)
      requires Head() && k < |chain| && cursor == At(k)
      modifies this, chain
      ensures Head() && contents == Without(old(contents), k + 1)
      ensures e in old(chain) && repr == old(repr) - {e}
    {
      e := PassOver(cursor, k);
      DropKeepsOrder(k);
      chain, contents, repr := Drop(chain, k), Without(contents, k + 1), repr - {e};
    }

    /** The entries left still hold the data left. */
    lemma DropKeepsOrder(k: nat)
      requires k < |chain| && |contents| == |chain| + 1
      requires forall j :: 0 <= j < |chain| ==> chain[j].data == contents[j + 1]
      ensures var es, b := Drop(chain, k), Without(contents, k + 1);
              |b| == |es| + 1 && b[0] == contents[0] && forall j :: 0 <= j < |es| ==> es[j].data == b[j + 1]
    {
    }

    /** Unlinks overflow entry `k`, which follows `cursor`, and frees it. */
    method DeleteAfter(cursor: Entry, ghost k: nat, spare: FreeList)
      requires Head() && k < |chain| && cursor == At(k) && spare.Valid() && repr !! spare.repr
      modifies this, chain, spare
      ensures Head() && contents == Without(old(contents), k + 1) && spare.Valid()
      ensures repr <= old(repr) && spare.repr <= old(spare.repr) + old(repr) && repr !! spare.repr
      ensures |spare.entries| == old(|spare.entries|) + 1
    {
      var e := UnlinkAfter(cursor, k);
      spare.FreeEntry(e);
    }

    /** Scans the bucket overflow: the entry in front of the match, if there is one. */
    method ScanOverflow(client: Client, x: Ptr) returns (cursor: Entry, ghost j: nat)
      requires Head() && contents != [] && !client.Same(x, contents[0])
      ensures j <= |chain| && cursor == At(j) && (cursor.next == null <==> j == |chain|)
      ensures Find(client, contents, x) == j + 1
    {
      cursor, j := this, 0;
      while cursor.next != null
        invariant j <= |chain| && cursor == At(j)
        invariant forall i :: 0 <= i <= j ==> !client.Same(x, contents[i])
        decreases |chain| - j
      {
        Step(j);
        Step(j + 1);
        if client.Same(x, cursor.next.data) { break; }
        cursor := cursor.next;
        j := j + 1;
      }
      Step(j);
      FindIs(client, contents, x, j + 1);
    }

    /** `hash_find_entry` with deletion, within one bucket. */
    method Delete(client: Client, x: Ptr, spare: FreeList) returns (p: Ptr)
      requires Head() && NULL !in contents && spare.Valid() && repr !! spare.repr
      modifies this, chain, spare
      ensures Head() && spare.Valid()
      ensures repr <= old(repr) && spare.repr <= old(spare.repr) + old(repr) && repr !! spare.repr
      ensures Deleted(client, old(contents), x, p, contents, old(|spare.entries|), |spare.entries|)
    {
      if data == NULL { return NULL; }
      if client.Same(x, data) {
        p := data;
        FindIs(client, contents, x, 0);
        DeleteHead(spare);
        return;
      }
      var cursor; ghost var j;
      cursor, j := ScanOverflow(client, x);
      p := NULL;
      if cursor.next != null {
        p := cursor.next.data;
        DeleteAfter(cursor, j, spare);
      }
    }

    /** Empties the bucket; its overflow entries go to the free list one at a time. */
    method Clear(spare: FreeList)
      requires Head() && spare.Valid() && repr !! spare.repr
      modifies this, chain, spare
      ensures Head() && contents == [] && repr == {this} && spare.Valid()
      ensures spare.repr <= old(spare.repr) + old(repr) && this !in spare.repr
      ensures |spare.entries| == old(|spare.entries|) + old(|chain|)
    {
      spare.Recycle(next, chain, repr - {this});
      data, next := NULL, null;
      chain, contents, repr := [], [], {this};
    }

    /** Makes a datum the head of an empty bucket. */
    method Vacate()
      requires Head() && chain == []
      modifies this
      ensures Head() && data == NULL && contents == [] && repr == old(repr)
    {
      data := NULL;
      contents := [];
    }

    /** Gives up the chain, though the link to it is still there. */
    ghost method GiveUpChain()
      requires Head() && data != NULL
      modifies this`chain, this`contents, this`repr
      ensures HeadBut(null) && contents == old(contents)[..1] && repr == {this}
    {
      chain, contents, repr := [], contents[..1], {this};
    }

    /** Puts a datum into an empty head. */
    method Fill(x: Ptr)
      requires Head() && data == NULL && x != NULL
      modifies this
      ensures Head() && data == x && contents == [x] && repr == old(repr)
    {
      data := x;
      contents := [x];
    }
  }

  ghost function First(es: seq<Entry>): Entry? {
    if es == [] then null else es[0]
  }

  /** The entries `es`, in this order, make up the list starting at `first`. */
  ghost predicate Linked(first: Entry?, es: seq<Entry>)
    reads es
  {
    && first == First(es)
    && (forall j :: 0 <= j < |es| ==> es[j].rank == |es| - 1 - j)
    && (forall j {:trigger es[j].next} :: 0 <= j < |es| ==>
          es[j].next == if j + 1 < |es| then es[j + 1] else null)
  }

  ghost function Drop(es: seq<Entry>, k: nat): (r: seq<Entry>)
    requires k < |es|
    ensures |r| == |es| - 1
    ensures forall j :: 0 <= j < |r| ==> r[j] == es[if j < k then j else j + 1]
  {
    es[..k] + es[k + 1..]
  }

  /** Links the entry `cursor` of a list past its successor. */
  method Bypass(cursor: Entry, ghost es: seq<Entry>, ghost k: nat)
    requires 1 <= k < |es| && Linked(es[0], es) && cursor == es[k - 1]
    modifies es
    ensures Linked(es[0], Drop(es, k))
    ensures forall j :: 0 <= j < |es| ==> es[j].data == old(es[j].data)
  {
    cursor.next := cursor.next.next;
    forall j | 0 <= j < k { es[j].rank := es[j].rank - 1; }
  }

  /** The C heap: call number `k` succeeds just when `succeeds(k)`. */
  class Memory {
    const succeeds: nat -> bool
    var calls: nat
    ghost var entries: set<Entry>  // all entries handed out so far

    constructor (succeeds: nat -> bool)
      ensures this.succeeds == succeeds && calls == 0 && entries == {}
    {
      this.succeeds := succeeds;
      calls, entries := 0, {};
    }

    /** No entry was forgotten, and those that are new come from allocation. */
    twostate predicate OnlyGrew()
      reads this
    {
      old(entries) <= entries && fresh(entries - old(entries))
    }

    /** One `malloc` of something other than an entry. */
    method Reserve() returns (ok: bool)
      modifies this
      ensures calls == old(calls) + 1 && ok == succeeds(old(calls)) && entries == old(entries)
    {
      ok := succeeds(calls);
      calls := calls + 1;
    }

    /** One `malloc` of an entry. */
    method Malloc() returns (e: Entry?)
      modifies this
      ensures calls == old(calls) + 1
      ensures e != null <==> succeeds(old(calls))
      ensures e != null ==> fresh(e) && entries == old(entries) + {e}
      ensures e == null ==> entries == old(entries)
    {
      e := null;
      if succeeds(calls) {
        e := new Entry();
        entries := entries + {e};
      }
      calls := calls + 1;
    }

    /** One `calloc` of `n` zeroed bucket heads. */
    method Calloc(n: nat) returns (ok: bool, bucket: seq<Entry>)
      modifies this
      ensures calls == old(calls) + 1 && ok == succeeds(old(calls))
      ensures !ok ==> bucket == [] && entries == old(entries)
      ensures ok ==> |bucket| == n && entries == old(entries) + set e | e in bucket
      ensures forall i :: 0 <= i < |bucket| ==> fresh(bucket[i])
      ensures forall i :: 0 <= i < |bucket| ==> bucket[i].Head() && bucket[i].contents == []
      ensures forall i :: 0 <= i < |bucket| ==> bucket[i].repr == {bucket[i]}
      ensures forall i, k :: 0 <= i < k < |bucket| ==> bucket[i] != bucket[k]
    {
      ok, bucket := succeeds(calls), [];
      if ok {
        while |bucket| < n
          invariant |bucket| <= n && calls == old(calls) && entries == old(entries)
          invariant forall i :: 0 <= i < |bucket| ==> fresh(bucket[i])
          invariant forall i :: 0 <= i < |bucket| ==> bucket[i].Head() && bucket[i].contents == []
          invariant forall i :: 0 <= i < |bucket| ==> bucket[i].repr == {bucket[i]}
          invariant forall i, k :: 0 <= i < k < |bucket| ==> bucket[i] != bucket[k]
        {
          var e := new Entry();
          bucket := bucket + [e];
        }
        entries := entries + set e | e in bucket;
      }
      calls := calls + 1;
    }
  }

  /** The entries kept for recycling; a table and its successor share them during a resize. */
  class FreeList {
    var first: Entry?
    ghost var entries: seq<Entry>
    ghost var repr: set<Entry>

    constructor ()
      ensures Valid() && entries == [] && repr == {}
    {
      first, entries, repr := null, [], {};
    }

    ghost predicate Valid()
      reads this, repr
    {
      (forall j :: 0 <= j < |entries| ==> entries[j] in repr) && Linked(first, entries)
    }

    /** `free_entry` */
    method FreeEntry(e: Entry)
      requires Valid() && e !in repr
      modifies this, e
      ensures Valid() && entries == [e] + old(entries) && repr == old(repr) + {e}
    {
      e.data := NULL;
      e.next := first;
      first := e;

      e.rank := |entries|;
      entries := [e] + entries;
      repr := repr + {e};
    }

    /** `allocate_entry`: recycle, or ask the heap. */
    method AllocateEntry(memory: Memory) returns (e: Entry?)
      requires Valid()
      modifies this, memory
      ensures Valid()
      ensures old(entries) != [] ==>
                && e != null && e in old(repr) && repr == old(repr) - {e}
                && entries == old(entries)[1..] && memory.calls == old(memory.calls)
      ensures old(entries) == [] ==>
                && entries == [] && repr == old(repr)
                && memory.calls == old(memory.calls) + 1
                && (e != null <==> memory.succeeds(old(memory.calls)))
                && (e != null ==> fresh(e))
      ensures memory.entries == old(memory.entries) + if e != null && old(entries) == [] then {e} else {}
    {
      if first != null {
        e := first;
        first := e.next;
        entries := entries[1..];
        repr := repr - {e};
      } else {
        e := memory.Malloc();
      }
    }

    /** An entry, if one can be had, that holds `x`. */
    method EntryFor(x: Ptr, memory: Memory) returns (e: Entry?)
      requires Valid()
      modifies this, repr, memory
      ensures Valid() && (e != null ==> e.data == x && e !in repr)
      ensures e != null <==> old(entries) != [] || memory.succeeds(old(memory.calls))
      ensures e != null && old(entries) != [] ==> e in old(repr)
      ensures e != null && old(entries) == [] ==> fresh(e)
      ensures repr == if old(entries) == [] then old(repr) else old(repr) - {e}
      ensures entries == if old(entries) == [] then [] else old(entries)[1..]
      ensures memory.calls == old(memory.calls) + if old(entries) == [] then 1 else 0
      ensures forall o :: o in old(repr) && o != e ==> unchanged(o)
      ensures memory.entries == old(memory.entries) + if e != null && old(entries) == [] then {e} else {}
    {
      e := AllocateEntry(memory);
      if e != null { e.data := x; }
    }

    /** Relinks the entries of a list one at a time. */
    method Recycle(start: Entry?, ghost list: seq<Entry>, ghost owned: set<Entry>)
      requires Valid() && Linked(start, list) && owned !! repr && forall e :: e in list ==> e in owned
      modifies this, list
      ensures Valid() && repr <= old(repr) + owned && |entries| == old(|entries|) + |list|
    {
      var cursor := start;
      ghost var rest := list;
      while cursor != null
        invariant Valid() && Linked(cursor, rest)
        invariant forall e :: e in rest ==> e in owned && e !in repr && e in list
        invariant repr <= old(repr) + owned && |entries| + |rest| == old(|entries|) + |list|
        decreases |rest|
      {
        var following := cursor.next;
        assert cursor == rest[0] && cursor in list;
        rest := rest[1..];
        FreeEntry(cursor);
        cursor := following;
      }
    }

    /** Gives every recycled entry back to the heap. */
    method Release()
      requires Valid()
      modifies this
      ensures Valid() && entries == [] && repr == {}
    {
      var cursor := first;
      ghost var rest := entries;
      while cursor != null
        invariant Linked(cursor, rest)
        decreases |rest|
      {
        cursor := cursor.next;
        rest := rest[1..];
      }
      first := null;
      entries, repr := [], {};
    }
  }
}
