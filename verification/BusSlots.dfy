/** The buses of convert/target_bus_assignment.ml as values: probing, and why order does not matter. */
module BusSlots {
  import opened Wrappers

  datatype SourceDisk = SourceDisk(id: int)

  datatype RemovableType = CDROM | Floppy
  datatype Controller = IDE | SATA | SCSI | NVME | VirtioBlk | VirtioSCSI

  datatype SourceRemovable = SourceRemovable(
    kind: RemovableType,
    controller: Option<Controller>,
    slot: Option<int>)

  datatype Slot = Empty | Disk(disk: SourceDisk) | Removable(removable: SourceRemovable)

  type Bus = seq<Slot>

  /** `slot_is_empty` */
  predicate IsFree(b: Bus, i: nat) {
    i >= |b| || b[i].Empty?
  }

  /** `insert`: the array grows when necessary. */
  function Insert(b: Bus, i: nat, x: Slot): (b': Bus)
    requires IsFree(b, i)
    ensures |b'| == if i < |b| then |b| else i + 1
    ensures b'[i] == x
    ensures forall k :: 0 <= k < |b'| && k != i ==> b'[k] == if k < |b| then b[k] else Empty
  {
    if i < |b| then b[i := x] else b + seq(i - |b|, _ => Empty) + [x]
  }

  /** The slot `insert_after` settles on. */
  function Probe(b: Bus, i: nat): (p: nat)
    ensures i <= p && IsFree(b, p) && forall k :: i <= k < p ==> !IsFree(b, k)
    decreases if i < |b| then |b| - i else 0
  {
    if IsFree(b, i) then i else Probe(b, i + 1)
  }

  function InsertAfter(b: Bus, i: nat, x: Slot): Bus {
    Insert(b, Probe(b, i), x)
  }

  // ---- Occupied slots

  ghost function Occupied(b: Bus): set<nat> {
    set i: nat | i < |b| && !b[i].Empty?
  }

  /** `p` is the least number from `i` on outside `s`. */
  ghost predicate Settles(s: set<nat>, i: nat, p: nat) {
    i <= p && p !in s && forall k :: i <= k < p ==> k in s
  }

  lemma OccupiedAfterInsert(b: Bus, i: nat, x: Slot)
    requires !x.Empty?
    ensures Occupied(InsertAfter(b, i, x)) == Occupied(b) + {Probe(b, i)}
    ensures Settles(Occupied(b), i, Probe(b, i))
  {
    var p := Probe(b, i);
    var b' := Insert(b, p, x);
    forall k: nat ensures k in Occupied(b') <==> k in Occupied(b) || k == p {
    }
    forall k: nat | i <= k < p ensures k in Occupied(b) { assert !IsFree(b, k); }
  }

  lemma SettlesOnce(s: set<nat>, i: nat, p: nat, q: nat)
    requires Settles(s, i, p) && Settles(s, i, q)
    ensures p == q
  {
  }

  /** Two insertions occupy the same two slots in either order. */
  lemma InsertionsCommute(s: set<nat>, i: nat, j: nat, p: nat, q: nat, p': nat, q': nat)
    requires Settles(s, i, p) && Settles(s + {p}, j, q)
    requires Settles(s, j, q') && Settles(s + {q'}, i, p')
    ensures {p, q} == {p', q'}
  {
    if p == q' {
      // Both wish for the same slot; whoever comes second takes the next free one.
      assert Settles(s + {p}, p, q);
      assert Settles(s + {p}, p, p');
      SettlesOnce(s + {p}, p, q, p');
    } else {
      assert Settles(s + {p}, j, q');
      SettlesOnce(s + {p}, j, q, q');
      assert Settles(s + {q'}, i, p);
      SettlesOnce(s + {q'}, i, p, p');
    }
  }

  /** Insertions in turn, each with its wish. */
  function InsertAll(b: Bus, wishes: seq<nat>, xs: seq<Slot>): Bus
    requires |wishes| == |xs|
    decreases |xs|
  {
    if xs == [] then b else InsertAll(InsertAfter(b, wishes[0], xs[0]), wishes[1..], xs[1..])
  }

  /** The occupied set after wishes in turn, without regard to what is inserted. */
  ghost function Fill(s: set<nat>, wishes: seq<nat>): set<nat>
    decreases |wishes|
  {
    if wishes == [] then s else Fill(s + {Next(s, wishes[0])}, wishes[1..])
  }

  ghost function Next(s: set<nat>, i: nat): (p: nat)
    ensures Settles(s, i, p)
    decreases |s - set k: nat | k in s && k < i|
  {
    if i !in s then i
    else
      var above, above' := s - (set k: nat | k in s && k < i), s - (set k: nat | k in s && k < i + 1);
      assert above == above' + {i};
      Next(s, i + 1)
  }

  lemma {:induction false} InsertAllFills(b: Bus, wishes: seq<nat>, xs: seq<Slot>)
    requires |wishes| == |xs| && Empty !in xs
    ensures Occupied(InsertAll(b, wishes, xs)) == Fill(Occupied(b), wishes)
    decreases |xs|
  {
    if xs != [] {
      OccupiedAfterInsert(b, wishes[0], xs[0]);
      SettlesOnce(Occupied(b), wishes[0], Probe(b, wishes[0]), Next(Occupied(b), wishes[0]));
      InsertAllFills(InsertAfter(b, wishes[0], xs[0]), wishes[1..], xs[1..]);
    }
  }

  lemma FillTwo(s: set<nat>, i: nat, j: nat, rest: seq<nat>)
    ensures Fill(s, [i, j] + rest) == Fill(s, [j, i] + rest)
  {
    var p, q' := Next(s, i), Next(s, j);
    var q, p' := Next(s + {p}, j), Next(s + {q'}, i);
    InsertionsCommute(s, i, j, p, q, p', q');
    FillPair(s, i, j, rest);
    FillPair(s, j, i, rest);
    assert s + {p} + {q} == s + {p, q} && s + {q'} + {p'} == s + {p', q'};
  }

  lemma FillPair(s: set<nat>, i: nat, j: nat, rest: seq<nat>)
    ensures var p := Next(s, i);
            Fill(s, [i, j] + rest) == Fill(s + {p} + {Next(s + {p}, j)}, rest)
  {
    assert ([i, j] + rest)[1..] == [j] + rest;
    assert ([j] + rest)[1..] == rest;
  }

  /** A wish further back can be served first. */
  lemma {:induction false} FillBringForward(s: set<nat>, front: seq<nat>, i: nat, back: seq<nat>)
    ensures Fill(s, front + [i] + back) == Fill(s, [i] + front + back)
    decreases |front|
  {
    if front == [] {
      assert front + [i] + back == [i] + front + back;
    } else {
      var j, rest := front[0], front[1..];
      var s' := s + {Next(s, j)};
      assert (front + [i] + back)[1..] == rest + [i] + back;
      FillBringForward(s', rest, i, back);
      assert [i] + front + back == [i, j] + (rest + back);
      FillTwo(s, i, j, rest + back);
      assert ([j, i] + (rest + back))[1..] == [i] + rest + back;
    }
  }

  lemma SameWithout(i: nat, rest: seq<nat>, front: seq<nat>, back: seq<nat>, u: seq<nat>, v: seq<nat>)
    requires u == [i] + rest && v == front + [i] + back && multiset(u) == multiset(v)
    ensures multiset(rest) == multiset(front + back)
  {
    assert multiset(u) - multiset{i} == multiset(rest);
    assert multiset(v) - multiset{i} == multiset(front + back);
  }

  /** The occupied set does not depend on the order of the wishes. */
  lemma {:induction false} FillIgnoresOrder(s: set<nat>, u: seq<nat>, v: seq<nat>)
    requires multiset(u) == multiset(v)
    ensures Fill(s, u) == Fill(s, v)
    decreases |u|
  {
    if u == [] {
      assert |multiset(v)| == 0;
    } else {
      var i := u[0];
      assert i in multiset(v);
      var k :| 0 <= k < |v| && v[k] == i;
      var front, back := v[..k], v[k + 1..];
      assert v == front + [i] + back;
      FillBringForward(s, front, i, back);
      assert [i] + front + back == [i] + (front + back);
      SameWithout(i, u[1..], front, back, u, v);
      FillIgnoresOrder(s + {Next(s, i)}, u[1..], front + back);
      assert ([i] + (front + back))[1..] == front + back;
    }
  }

  // ---- Contents

  /** What is plugged in. */
  ghost function Plugged(b: Bus): multiset<Slot> {
    if b == [] then multiset{}
    else (if b[0].Empty? then multiset{} else multiset{b[0]}) + Plugged(b[1..])
  }

  lemma {:induction false} PluggedAfterInsert(b: Bus, i: nat, x: Slot)
    requires IsFree(b, i) && !x.Empty?
    ensures Plugged(Insert(b, i, x)) == Plugged(b) + multiset{x}
    decreases i
  {
    var b' := Insert(b, i, x);
    if i == 0 {
      assert b'[1..] == if b == [] then [] else b[1..];
    } else {
      var rest := if b == [] then [] else b[1..];
      assert b'[1..] == Insert(rest, i - 1, x);
      PluggedAfterInsert(rest, i - 1, x);
      var first := if b == [] || b[0].Empty? then multiset{} else multiset{b[0]};
      assert Plugged(b') == first + Plugged(Insert(rest, i - 1, x));
      assert Plugged(b) == first + Plugged(rest);
    }
  }

  /** The array never ends in an empty slot. */
  predicate Tight(b: Bus) {
    b == [] || !b[|b| - 1].Empty?
  }

  /** Everything plugged in stays where it is. */
  predicate Keeps(b: Bus, b': Bus) {
    |b| <= |b'| && forall k :: 0 <= k < |b| && !b[k].Empty? ==> b'[k] == b[k]
  }

  /** Insertions in turn add just what they insert, move nothing, and leave the array tight. */
  lemma {:induction false} InsertAllKeeps(b: Bus, wishes: seq<nat>, xs: seq<Slot>)
    requires |wishes| == |xs| && Empty !in xs
    ensures var b' := InsertAll(b, wishes, xs);
            Plugged(b') == Plugged(b) + multiset(xs) && Keeps(b, b') && (Tight(b) ==> Tight(b'))
    decreases |xs|
  {
    if xs != [] {
      var b1 := InsertAfter(b, wishes[0], xs[0]);
      PluggedAfterInsert(b, Probe(b, wishes[0]), xs[0]);
      InsertAllKeeps(b1, wishes[1..], xs[1..]);
      assert xs == [xs[0]] + xs[1..];
    }
  }

  /** At its turn an insertion gets the least slot from its wish on that is free then. */
  lemma {:induction false} InsertAllSettles(b: Bus, wishes: seq<nat>, xs: seq<Slot>, k: nat)
    requires |wishes| == |xs| && Empty !in xs && k < |xs|
    ensures var b' := InsertAll(b, wishes[..k], xs[..k]);
            var p := Probe(b', wishes[k]);
            p < |InsertAll(b, wishes, xs)| && InsertAll(b, wishes, xs)[p] == xs[k]
    decreases |xs|
  {
    var b1 := InsertAfter(b, wishes[0], xs[0]);
    if k == 0 {
      InsertAllKeeps(b1, wishes[1..], xs[1..]);
    } else {
      InsertAllSettles(b1, wishes[1..], xs[1..], k - 1);
      assert wishes[..k][1..] == wishes[1..][..k - 1] && xs[..k][1..] == xs[1..][..k - 1];
    }
  }
}
