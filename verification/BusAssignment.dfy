/** `target_bus_assignment` of convert/target_bus_assignment.ml, on values. */
module BusAssignment {
  import opened Wrappers
  import opened Multisets
  import opened BusSlots

  datatype BusKind = OnVirtioBlk | OnIde | OnScsi | OnFloppy

  /** The bus for fixed disks, by the guest's capabilities. */
  datatype BlockBus = ViaVirtioBlk | ViaIde

  datatype Buses = Buses(virtioBlk: Bus, ide: Bus, scsi: Bus, floppy: Bus) {
    function Get(k: BusKind): Bus {
      match k
      case OnVirtioBlk => virtioBlk
      case OnIde => ide
      case OnScsi => scsi
      case OnFloppy => floppy
    }

    function Set(k: BusKind, b: Bus): Buses {
      match k
      case OnVirtioBlk => this.(virtioBlk := b)
      case OnIde => this.(ide := b)
      case OnScsi => this.(scsi := b)
      case OnFloppy => this.(floppy := b)
    }
  }

  function DiskBus(target: BlockBus): BusKind {
    if target.ViaVirtioBlk? then OnVirtioBlk else OnIde
  }

  function BusOf(r: SourceRemovable): BusKind {
    if r.kind.Floppy? then OnFloppy
    else
      match r.controller
      case None => OnIde
      case Some(VirtioBlk) => OnVirtioBlk
      case Some(IDE) => OnIde
      case Some(_) => OnScsi
  }

  /** OCaml rejects a negative array index. */
  predicate InBounds(r: SourceRemovable) {
    r.slot.Some? ==> 0 <= r.slot.value
  }

  function Wish(r: SourceRemovable): nat
    requires InBounds(r)
  {
    if r.slot.Some? then r.slot.value else 0
  }

  // ---- The assignment as a function

  function Place(bs: Buses, r: SourceRemovable): Buses
    requires InBounds(r)
  {
    var k := BusOf(r);
    bs.Set(k, InsertAfter(bs.Get(k), Wish(r), Removable(r)))
  }

  function PlaceAll(bs: Buses, rs: seq<SourceRemovable>): Buses
    requires forall r :: r in rs ==> InBounds(r)
    decreases |rs|
  {
    if rs == [] then bs else PlaceAll(Place(bs, rs[0]), rs[1..])
  }

  function FixedDisks(disks: seq<SourceDisk>): (b: Bus)
    ensures |b| == |disks| && forall i :: 0 <= i < |b| ==> b[i] == Disk(disks[i])
  {
    seq(|disks|, i requires 0 <= i < |disks| => Disk(disks[i]))
  }

  function Desiring(rs: seq<SourceRemovable>, want: bool): (d: seq<SourceRemovable>)
    ensures forall r :: r in d ==> r in rs && r.slot.Some? == want
  {
    if rs == [] then []
    else if rs[0].slot.Some? == want then [rs[0]] + Desiring(rs[1..], want)
    else Desiring(rs[1..], want)
  }

  /** Fixed disks, then the removables that desire a slot, then the others. */
  function Assign(disks: seq<SourceDisk>, rs: seq<SourceRemovable>, target: BlockBus): Buses
    requires forall r :: r in rs ==> InBounds(r)
  {
    var start := Buses([], [], [], []).Set(DiskBus(target), FixedDisks(disks));
    PlaceAll(PlaceAll(start, Desiring(rs, true)), Desiring(rs, false))
  }

  // ---- One bus at a time

  /** The removables that go to a bus, in order. */
  function For(rs: seq<SourceRemovable>, k: BusKind): (f: seq<SourceRemovable>)
    ensures forall r :: r in f ==> r in rs && BusOf(r) == k
  {
    if rs == [] then [] else if BusOf(rs[0]) == k then [rs[0]] + For(rs[1..], k) else For(rs[1..], k)
  }

  function Wishes(rs: seq<SourceRemovable>): (w: seq<nat>)
    requires forall r :: r in rs ==> InBounds(r)
    ensures |w| == |rs| && forall i :: 0 <= i < |rs| ==> w[i] == Wish(rs[i])
  {
    seq(|rs|, i requires 0 <= i < |rs| => Wish(rs[i]))
  }

  function Plugs(rs: seq<SourceRemovable>): (p: seq<Slot>)
    ensures |p| == |rs| && forall i :: 0 <= i < |rs| ==> p[i] == Removable(rs[i])
  {
    seq(|rs|, i requires 0 <= i < |rs| => Removable(rs[i]))
  }

  /** On each bus the assignment is a run of insertions of the removables meant for that bus. */
  lemma {:induction false} PlaceAllByBus(bs: Buses, rs: seq<SourceRemovable>, k: BusKind)
    requires forall r :: r in rs ==> InBounds(r)
    ensures PlaceAll(bs, rs).Get(k) == InsertAll(bs.Get(k), Wishes(For(rs, k)), Plugs(For(rs, k)))
    decreases |rs|
  {
    if rs != [] {
      PlaceAllByBus(Place(bs, rs[0]), rs[1..], k);
      var f, rest := For(rs, k), For(rs[1..], k);
      if BusOf(rs[0]) == k {
        assert f[1..] == rest;
        assert Wishes(f)[1..] == Wishes(rest) && Plugs(f)[1..] == Plugs(rest);
      }
    }
  }

  lemma {:induction false} InsertAllJoin(b: Bus, u: seq<nat>, xs: seq<Slot>, v: seq<nat>, ys: seq<Slot>)
    requires |u| == |xs| && |v| == |ys|
    ensures InsertAll(InsertAll(b, u, xs), v, ys) == InsertAll(b, u + v, xs + ys)
    decreases |xs|
  {
    if xs == [] {
      assert u + v == v && xs + ys == ys;
    } else {
      InsertAllJoin(InsertAfter(b, u[0], xs[0]), u[1..], xs[1..], v, ys);
      assert (u + v)[1..] == u[1..] + v && (xs + ys)[1..] == xs[1..] + ys;
    }
  }

  /** The removables for a bus in the order in which they are served. */
  function Served(rs: seq<SourceRemovable>, k: BusKind): seq<SourceRemovable> {
    For(Desiring(rs, true), k) + For(Desiring(rs, false), k)
  }

  lemma AssignByBus(disks: seq<SourceDisk>, rs: seq<SourceRemovable>, target: BlockBus, k: BusKind)
    requires forall r :: r in rs ==> InBounds(r)
    ensures var start := if k == DiskBus(target) then FixedDisks(disks) else [];
            Assign(disks, rs, target).Get(k) == InsertAll(start, Wishes(Served(rs, k)), Plugs(Served(rs, k)))
  {
    var first, second := Desiring(rs, true), Desiring(rs, false);
    var bs := Buses([], [], [], []).Set(DiskBus(target), FixedDisks(disks));
    var f, g := For(first, k), For(second, k);
    PlaceAllByBus(bs, first, k);
    PlaceAllByBus(PlaceAll(bs, first), second, k);
    InsertAllJoin(bs.Get(k), Wishes(f), Plugs(f), Wishes(g), Plugs(g));
    JoinLists(f, g);
  }

  lemma JoinLists(f: seq<SourceRemovable>, g: seq<SourceRemovable>)
    requires forall r :: r in f || r in g ==> InBounds(r)
    ensures forall r :: r in f + g ==> InBounds(r)
    ensures Wishes(f) + Wishes(g) == Wishes(f + g) && Plugs(f) + Plugs(g) == Plugs(f + g)
  {
  }

  // ---- Order and grouping do not matter

  lemma {:induction false} ForIsFilter(rs: seq<SourceRemovable>, k: BusKind)
    ensures forall r :: multiset(For(rs, k))[r] == if BusOf(r) == k then multiset(rs)[r] else 0
  {
    if rs != [] {
      ForIsFilter(rs[1..], k);
      assert rs == [rs[0]] + rs[1..];
    }
  }

  lemma {:induction false} DesiringIsFilter(rs: seq<SourceRemovable>, want: bool)
    ensures forall r :: multiset(Desiring(rs, want))[r] == if r.slot.Some? == want then multiset(rs)[r] else 0
  {
    if rs != [] {
      DesiringIsFilter(rs[1..], want);
      assert rs == [rs[0]] + rs[1..];
    }
  }

  /** Serving the groups one after the other only permutes the removables of a bus. */
  lemma ServedIsPermutation(rs: seq<SourceRemovable>, k: BusKind)
    ensures multiset(Served(rs, k)) == multiset(For(rs, k))
  {
    var first, second := Desiring(rs, true), Desiring(rs, false);
    DesiringIsFilter(rs, true);
    DesiringIsFilter(rs, false);
    ForIsFilter(first, k);
    ForIsFilter(second, k);
    ForIsFilter(rs, k);
    forall r ensures multiset(Served(rs, k))[r] == multiset(For(rs, k))[r] {
      assert multiset(Served(rs, k))[r] == multiset(For(first, k))[r] + multiset(For(second, k))[r];
    }
  }

  lemma WishesWithout(v: seq<SourceRemovable>, k: nat)
    requires k < |v| && forall r :: r in v ==> InBounds(r)
    ensures var without := v[..k] + v[k + 1..];
            && multiset(v) == multiset(without) + multiset{v[k]}
            && (forall r :: r in without ==> InBounds(r))
            && multiset(Wishes(v)) == multiset(Wishes(without)) + multiset{Wish(v[k])}
  {
    var without := v[..k] + v[k + 1..];
    assert forall r :: r in without ==> r in v;
    assert v == v[..k] + [v[k]] + v[k + 1..];
    var w := Wishes(v);
    assert w == w[..k] + [w[k]] + w[k + 1..];
    assert Wishes(without) == w[..k] + w[k + 1..];
  }

  lemma {:induction false} WishesOfPermutation(u: seq<SourceRemovable>, v: seq<SourceRemovable>)
    requires multiset(u) == multiset(v)
    requires (forall r :: r in u ==> InBounds(r)) && (forall r :: r in v ==> InBounds(r))
    ensures multiset(Wishes(u)) == multiset(Wishes(v))
    decreases |u|
  {
    if u == [] {
      assert |multiset(v)| == 0;
    } else {
      assert u[0] in multiset(v);
      var k :| 0 <= k < |v| && v[k] == u[0];
      WishesWithout(u, 0);
      WishesWithout(v, k);
      var rest, without := u[..0] + u[1..], v[..k] + v[k + 1..];
      MultisetCancel(multiset(rest), multiset(without), multiset{u[0]});
      WishesOfPermutation(rest, without);
    }
  }

  lemma OccupiedByWishes(start: Bus, s: seq<SourceRemovable>, t: seq<SourceRemovable>)
    requires multiset(s) == multiset(t)
    requires (forall r :: r in s ==> InBounds(r)) && (forall r :: r in t ==> InBounds(r))
    ensures Occupied(InsertAll(start, Wishes(s), Plugs(s))) == Occupied(InsertAll(start, Wishes(t), Plugs(t)))
  {
    WishesOfPermutation(s, t);
    InsertAllFills(start, Wishes(s), Plugs(s));
    InsertAllFills(start, Wishes(t), Plugs(t));
    FillIgnoresOrder(Occupied(start), Wishes(s), Wishes(t));
  }

  lemma ForOfPermutation(u: seq<SourceRemovable>, v: seq<SourceRemovable>, k: BusKind)
    requires multiset(u) == multiset(v)
    ensures multiset(Served(u, k)) == multiset(For(v, k)) == multiset(Served(v, k))
  {
    ServedIsPermutation(u, k);
    ServedIsPermutation(v, k);
    FilterOfPermutation(u, v, k);
  }

  lemma FilterOfPermutation(u: seq<SourceRemovable>, v: seq<SourceRemovable>, k: BusKind)
    requires multiset(u) == multiset(v)
    ensures multiset(For(u, k)) == multiset(For(v, k))
  {
    forall r ensures multiset(For(u, k))[r] == multiset(For(v, k))[r] {
      ForIsFilter(u, k);
      ForIsFilter(v, k);
    }
  }

  /**
   * On every bus the set of occupied slots depends only on which removables there are: not on their
   * order, nor on serving those that desire a slot first.
   */
  lemma OccupiedIgnoresOrder(disks: seq<SourceDisk>, u: seq<SourceRemovable>, v: seq<SourceRemovable>,
                             target: BlockBus, k: BusKind)
    requires multiset(u) == multiset(v)
    requires (forall r :: r in u ==> InBounds(r)) && (forall r :: r in v ==> InBounds(r))
    ensures Occupied(Assign(disks, u, target).Get(k)) == Occupied(Assign(disks, v, target).Get(k))
    ensures Occupied(Assign(disks, u, target).Get(k)) == Occupied(Ungrouped(disks, v, target).Get(k))
  {
    var start := if k == DiskBus(target) then FixedDisks(disks) else [];
    AssignByBus(disks, u, target, k);
    AssignByBus(disks, v, target, k);
    PlaceAllByBus(Buses([], [], [], []).Set(DiskBus(target), FixedDisks(disks)), v, k);
    ForOfPermutation(u, v, k);
    OccupiedByWishes(start, Served(u, k), Served(v, k));
    OccupiedByWishes(start, Served(u, k), For(v, k));
  }

  /** As `Assign`, but serving the removables in the order given. */
  function Ungrouped(disks: seq<SourceDisk>, rs: seq<SourceRemovable>, target: BlockBus): Buses
    requires forall r :: r in rs ==> InBounds(r)
  {
    PlaceAll(Buses([], [], [], []).Set(DiskBus(target), FixedDisks(disks)), rs)
  }

  /**
   * Fixed disk `i` ends in slot `i` of its bus, every removable is plugged in exactly once on its
   * own bus, in the least slot from its wish on that is free at its turn, and no array ends in an
   * empty slot.
   */
  lemma AssignmentIsComplete(disks: seq<SourceDisk>, rs: seq<SourceRemovable>, target: BlockBus, k: BusKind)
    requires forall r :: r in rs ==> InBounds(r)
    ensures var b, start := Assign(disks, rs, target).Get(k), if k == DiskBus(target) then FixedDisks(disks) else [];
            var s := Served(rs, k);
            && multiset(s) == multiset(For(rs, k))
            && Plugged(b) == Plugged(start) + multiset(Plugs(s))
            && Keeps(start, b) && Tight(b)
            && forall i :: 0 <= i < |s| ==> SettledAtTurn(start, s, i, b)
    ensures k == DiskBus(target) ==> forall i :: 0 <= i < |disks| ==>
              i < |Assign(disks, rs, target).Get(k)| && Assign(disks, rs, target).Get(k)[i] == Disk(disks[i])
  {
    var start := if k == DiskBus(target) then FixedDisks(disks) else [];
    var s := Served(rs, k);
    AssignByBus(disks, rs, target, k);
    ServedIsPermutation(rs, k);
    InsertAllKeeps(start, Wishes(s), Plugs(s));
    EachSettles(start, s);
  }

  lemma EachSettles(start: Bus, s: seq<SourceRemovable>)
    requires forall r :: r in s ==> InBounds(r)
    ensures forall i :: 0 <= i < |s| ==> SettledAtTurn(start, s, i, InsertAll(start, Wishes(s), Plugs(s)))
  {
    forall i | 0 <= i < |s| ensures SettledAtTurn(start, s, i, InsertAll(start, Wishes(s), Plugs(s))) {
      InsertAllSettles(start, Wishes(s), Plugs(s), i);
      assert Wishes(s)[..i] == Wishes(s[..i]) && Plugs(s)[..i] == Plugs(s[..i]);
    }
  }

  /** Removable number `i` is in the least slot from its wish on that was free when its turn came. */
  ghost predicate SettledAtTurn(start: Bus, s: seq<SourceRemovable>, i: nat, b: Bus)
    requires i < |s| && forall r :: r in s ==> InBounds(r)
  {
    var p := Probe(InsertAll(start, Wishes(s[..i]), Plugs(s[..i])), Wish(s[i]));
    p < |b| && b[p] == Removable(s[i])
  }

  // ---- Which device ends up where

  lemma OneMore<T>(a: multiset<T>, b: multiset<T>, x: T)
    ensures (a + b)[x] == a[x] + b[x]
  {
  }

  lemma {:induction false} PlugsCount(s: seq<SourceRemovable>, r: SourceRemovable)
    ensures multiset(Plugs(s))[Removable(r)] == multiset(s)[r]
    ensures forall d :: multiset(Plugs(s))[Disk(d)] == 0
  {
    if s != [] {
      PlugsCount(s[1..], r);
      HeadAndTail(s);
      HeadAndTail(Plugs(s));
      assert Plugs(s)[1..] == Plugs(s[1..]);
      OneMore(multiset{s[0]}, multiset(s[1..]), r);
      OneMore(multiset{Removable(s[0])}, multiset(Plugs(s[1..])), Removable(r));
    }
  }

  lemma {:induction false} OnlyDisks(b: Bus, r: SourceRemovable)
    requires forall i :: 0 <= i < |b| ==> b[i].Disk?
    ensures Plugged(b)[Removable(r)] == 0
    ensures b == [] ==> forall d :: Plugged(b)[Disk(d)] == 0
  {
    if b != [] { OnlyDisks(b[1..], r); }
  }

  lemma CountOnBus(disks: seq<SourceDisk>, rs: seq<SourceRemovable>, target: BlockBus, k: BusKind, r: SourceRemovable)
    requires forall r :: r in rs ==> InBounds(r)
    ensures Plugged(Assign(disks, rs, target).Get(k))[Removable(r)] == if BusOf(r) == k then multiset(rs)[r] else 0
    ensures k != DiskBus(target) ==> forall d :: Plugged(Assign(disks, rs, target).Get(k))[Disk(d)] == 0
  {
    AssignmentIsComplete(disks, rs, target, k);
    ForIsFilter(rs, k);
    PlugsCount(Served(rs, k), r);
    OnlyDisks(if k == DiskBus(target) then FixedDisks(disks) else [], r);
  }

  /**
   * Every removable is on one bus, as often as it was given: floppies on the floppy bus, CD-ROMs by
   * their controller, and on IDE if none is known.
   */
  lemma RemovablesGoWhere(disks: seq<SourceDisk>, rs: seq<SourceRemovable>, target: BlockBus, r: SourceRemovable)
    requires forall r :: r in rs ==> InBounds(r)
    ensures var a, x, n := Assign(disks, rs, target), Removable(r), multiset(rs)[r];
            var ide := r.kind.CDROM? && (r.controller == None || r.controller == Some(IDE));
            var virtio := r.kind.CDROM? && r.controller == Some(VirtioBlk);
            && Plugged(a.floppy)[x] == (if r.kind.Floppy? then n else 0)
            && Plugged(a.ide)[x] == (if ide then n else 0)
            && Plugged(a.virtioBlk)[x] == (if virtio then n else 0)
            && Plugged(a.scsi)[x] == (if r.kind.CDROM? && !ide && !virtio then n else 0)
  {
    CountOnBus(disks, rs, target, OnFloppy, r);
    CountOnBus(disks, rs, target, OnIde, r);
    CountOnBus(disks, rs, target, OnVirtioBlk, r);
    CountOnBus(disks, rs, target, OnScsi, r);
  }

  /** Fixed disks go to virtio-blk if the guest can do it, otherwise to IDE, and nowhere else. */
  lemma DisksGoWhere(disks: seq<SourceDisk>, rs: seq<SourceRemovable>, target: BlockBus)
    requires forall r :: r in rs ==> InBounds(r)
    ensures var a := Assign(disks, rs, target);
            var (here, there) := if target.ViaVirtioBlk? then (a.virtioBlk, a.ide) else (a.ide, a.virtioBlk);
            && (forall i :: 0 <= i < |disks| ==> i < |here| && here[i] == Disk(disks[i]))
            && (forall d :: Plugged(there)[Disk(d)] == 0 && Plugged(a.scsi)[Disk(d)] == 0 && Plugged(a.floppy)[Disk(d)] == 0)
  {
    var r := SourceRemovable(CDROM, None, None);
    AssignmentIsComplete(disks, rs, target, DiskBus(target));
    CountOnBus(disks, rs, target, if target.ViaVirtioBlk? then OnIde else OnVirtioBlk, r);
    CountOnBus(disks, rs, target, OnScsi, r);
    CountOnBus(disks, rs, target, OnFloppy, r);
  }

  /** The groups, and the removables of a bus, keep the order in which they were given. */
  lemma {:induction false} GroupsAreStable(u: seq<SourceRemovable>, v: seq<SourceRemovable>, want: bool, k: BusKind)
    ensures Desiring(u + v, want) == Desiring(u, want) + Desiring(v, want)
    ensures For(u + v, k) == For(u, k) + For(v, k)
    decreases |u|
  {
    if u == [] {
      assert u + v == v;
    } else {
      assert (u + v)[1..] == u[1..] + v;
      GroupsAreStable(u[1..], v, want, k);
    }
  }

  /** Whoever wishes for a slot is served before all that do not. */
  lemma WishesFirst(rs: seq<SourceRemovable>, k: BusKind, i: nat, j: nat)
    requires i < j < |Served(rs, k)| && Served(rs, k)[j].slot.Some?
    ensures Served(rs, k)[i].slot.Some?
  {
    var f, g := For(Desiring(rs, true), k), For(Desiring(rs, false), k);
    assert forall n :: 0 <= n < |f| ==> Served(rs, k)[n] == f[n] && f[n] in f;
    assert forall n :: |f| <= n < |f| + |g| ==> Served(rs, k)[n] == g[n - |f|] && g[n - |f|] in g;
  }

  lemma OneGroup(r: SourceRemovable, want: bool, k: BusKind)
    ensures Desiring([r], want) == if r.slot.Some? == want then [r] else []
    ensures Served([r], k) == if BusOf(r) == k then [r] else []
  {
    assert [r][1..] == [];
    assert Desiring([], true) == [] && For([], k) == [];
  }

  /** A removable on its own gets the slot it wishes if that is free, and the first free one if it has no wish. */
  lemma AloneGetsWish(disks: seq<SourceDisk>, r: SourceRemovable, target: BlockBus)
    requires InBounds(r)
    ensures var k := BusOf(r);
            var b, fixed := Assign(disks, [r], target).Get(k), if k == DiskBus(target) then |disks| else 0;
            var p := if r.slot.Some? && fixed <= r.slot.value then r.slot.value else fixed;
            p < |b| && b[p] == Removable(r)
  {
    var k := BusOf(r);
    var start := if k == DiskBus(target) then FixedDisks(disks) else [];
    OneGroup(r, true, k);
    AssignmentIsComplete(disks, [r], target, k);
    assert SettledAtTurn(start, [r], 0, Assign(disks, [r], target).Get(k));
    assert [r][..0] == [] && InsertAll(start, Wishes([]), Plugs([])) == start;
    ProbeFull(start, Wish(r));
  }

  lemma ProbeFull(b: Bus, i: nat)
    requires forall j :: 0 <= j < |b| ==> b[j] != Empty
    ensures Probe(b, i) == if |b| <= i then i else |b|
  {
    assert forall j :: 0 <= j < |b| ==> !IsFree(b, j);
    assert IsFree(b, if |b| <= i then i else |b|);
  }
}
