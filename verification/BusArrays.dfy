/** The code of convert/target_bus_assignment.ml: four references to arrays, grown and written. */
module BusArrays {
  import opened Wrappers
  import opened BusSlots
  import opened BusAssignment

  /** A `target_bus_slot array ref`. */
  class BusRef {
    var slots: array<Slot>

    constructor ()
      ensures slots.Length == 0 && fresh(slots)
    {
      slots := new Slot[0];
    }

    /** `insert`; the OCaml assertion that the slot is empty never fails. */
    method Insert(i: nat, x: Slot)
      requires IsFree(slots[..], i)
      modifies this, slots
      ensures slots[..] == BusSlots.Insert(old(slots[..]), i, x)
      ensures slots == old(slots) || fresh(slots)
    {
      if i >= slots.Length {
        var bigger := new Slot[i + 1](_ => Empty);
        for k := 0 to slots.Length
          invariant slots == old(slots)
          invariant forall j :: 0 <= j < k ==> bigger[j] == slots[j]
          invariant forall j :: k <= j < bigger.Length ==> bigger[j].Empty?
          invariant slots[..] == old(slots[..])
        {
          bigger[k] := slots[k];
        }
        slots := bigger;
      }
      assert slots[i].Empty?;
      slots[i] := x;
    }

    /** `insert_after` returns whether the desired slot was free. */
    method InsertAfter(i: nat, x: Slot) returns (got: bool)
      modifies this, slots
      ensures slots[..] == BusSlots.InsertAfter(old(slots[..]), i, x)
      ensures got <==> IsFree(old(slots[..]), i)
      ensures slots == old(slots) || fresh(slots)
      decreases if i < slots.Length then slots.Length - i else 0
    {
      got := i >= slots.Length || slots[i].Empty?;
      if got {
        Insert(i, x);
      } else {
        var later := InsertAfter(i + 1, x);
      }
    }
  }

  class Machine {
    const virtioBlk: BusRef
    const ide: BusRef
    const scsi: BusRef
    const floppy: BusRef

    ghost predicate Valid()
      reads virtioBlk, ide, scsi, floppy
    {
      && virtioBlk != ide && virtioBlk != scsi && virtioBlk != floppy
      && ide != scsi && ide != floppy && scsi != floppy
      && virtioBlk.slots != ide.slots && virtioBlk.slots != scsi.slots && virtioBlk.slots != floppy.slots
      && ide.slots != scsi.slots && ide.slots != floppy.slots && scsi.slots != floppy.slots
    }

    ghost function Arrays(): set<object>
      reads virtioBlk, ide, scsi, floppy
    {
      {virtioBlk.slots, ide.slots, scsi.slots, floppy.slots}
    }

    ghost function Contents(): Buses
      reads virtioBlk, ide, scsi, floppy, Arrays()
    {
      Buses(virtioBlk.slots[..], ide.slots[..], scsi.slots[..], floppy.slots[..])
    }

    constructor ()
      ensures Valid() && Contents() == Buses([], [], [], [])
      ensures fresh(virtioBlk) && fresh(ide) && fresh(scsi) && fresh(floppy) && fresh(Arrays())
    {
      virtioBlk := new BusRef();
      ide := new BusRef();
      scsi := new BusRef();
      floppy := new BusRef();
    }

    function Ref(k: BusKind): BusRef {
      match k
      case OnVirtioBlk => virtioBlk
      case OnIde => ide
      case OnScsi => scsi
      case OnFloppy => floppy
    }

    method InsertOn(k: BusKind, i: nat, x: Slot)
      requires Valid() && IsFree(Contents().Get(k), i)
      modifies virtioBlk, ide, scsi, floppy, Arrays()
      ensures Valid() && forall o :: o in Arrays() ==> o in old(Arrays()) || fresh(o)
      ensures Contents() == old(Contents()).Set(k, BusSlots.Insert(old(Contents()).Get(k), i, x))
    {
      Ref(k).Insert(i, x);
    }

    method PlaceOne(r: SourceRemovable) returns (got: bool)
      requires Valid() && InBounds(r)
      modifies virtioBlk, ide, scsi, floppy, Arrays()
      ensures Valid() && forall o :: o in Arrays() ==> o in old(Arrays()) || fresh(o)
      ensures Contents() == Place(old(Contents()), r)
      ensures got <==> IsFree(old(Contents()).Get(BusOf(r)), Wish(r))
    {
      got := Ref(BusOf(r)).InsertAfter(Wish(r), Removable(r));
    }

    method InsertDisks(disks: seq<SourceDisk>, k: BusKind)
      requires Valid() && Contents() == Buses([], [], [], [])
      modifies virtioBlk, ide, scsi, floppy, Arrays()
      ensures Valid() && forall o :: o in Arrays() ==> o in old(Arrays()) || fresh(o)
      ensures Contents() == Buses([], [], [], []).Set(k, FixedDisks(disks))
    {
      for i := 0 to |disks|
        invariant Valid() && forall o :: o in Arrays() ==> o in old(Arrays()) || fresh(o)
        invariant Contents() == Buses([], [], [], []).Set(k, FixedDisks(disks[..i]))
      {
        InsertOn(k, i, Disk(disks[i]));
        assert FixedDisks(disks[..i + 1]) == BusSlots.Insert(FixedDisks(disks[..i]), i, Disk(disks[i]));
      }
      assert disks[..|disks|] == disks;
    }

    /** `assign_removables`; false when a negative slot makes OCaml raise an exception. */
    method AssignRemovables(rs: seq<SourceRemovable>) returns (ok: bool)
      requires Valid()
      modifies virtioBlk, ide, scsi, floppy, Arrays()
      ensures Valid() && forall o :: o in Arrays() ==> o in old(Arrays()) || fresh(o)
      ensures ok <==> forall r :: r in rs ==> InBounds(r)
      ensures ok ==> Contents() == PlaceAll(old(Contents()), rs)
    {
      ghost var start := Contents();
      for i := 0 to |rs|
        invariant Valid() && forall o :: o in Arrays() ==> o in old(Arrays()) || fresh(o)
        invariant forall r :: r in rs[..i] ==> InBounds(r)
        invariant Contents() == PlaceAll(start, rs[..i])
      {
        if rs[i].slot.Some? && rs[i].slot.value < 0 {
          assert !InBounds(rs[i]);
          return false;
        }
        PlaceOneMore(start, rs, i);
        var got := PlaceOne(rs[i]);
      }
      assert rs[..|rs|] == rs;
      ok := true;
    }
  }

  lemma {:induction false} PlaceOneMore(start: Buses, rs: seq<SourceRemovable>, i: nat)
    requires i < |rs| && (forall r :: r in rs[..i] ==> InBounds(r)) && InBounds(rs[i])
    ensures forall r :: r in rs[..i + 1] ==> InBounds(r)
    ensures PlaceAll(start, rs[..i + 1]) == Place(PlaceAll(start, rs[..i]), rs[i])
    decreases i
  {
    assert rs[..i + 1] == rs[..i] + [rs[i]];
    if i == 0 {
      assert rs[..0] == [] && rs[..1][1..] == [];
    } else {
      var rest := rs[1..];
      assert rs[..i][1..] == rest[..i - 1] && rs[..i + 1][1..] == rest[..i];
      assert forall r :: r in rest[..i - 1] ==> r in rs[..i];
      PlaceOneMore(Place(start, rs[0]), rest, i - 1);
    }
  }

  lemma DesiringCovers(rs: seq<SourceRemovable>)
    ensures forall r :: r in rs <==> r in Desiring(rs, true) || r in Desiring(rs, false)
  {
    DesiringIsFilter(rs, true);
    DesiringIsFilter(rs, false);
    forall r | r in rs ensures r in Desiring(rs, true) || r in Desiring(rs, false) {
      assert r in multiset(rs);
      assert r in multiset(Desiring(rs, r.slot.Some?));
    }
  }

  /**
   * `target_bus_assignment`: the assignment, unless some removable has a negative slot number, on
   * which the program dies with an exception.
   */
  method TargetBusAssignment(disks: seq<SourceDisk>, rs: seq<SourceRemovable>, target: BlockBus)
      returns (out: Option<Buses>)
    ensures out.Some? <==> forall r :: r in rs ==> InBounds(r)
    ensures out.Some? ==> out.value == Assign(disks, rs, target)
  {
    var m := new Machine();
    m.InsertDisks(disks, DiskBus(target));
    DesiringCovers(rs);
    var ok := m.AssignRemovables(Desiring(rs, true));
    if ok {
      ok := m.AssignRemovables(Desiring(rs, false));
    }
    if !ok { return None; }
    out := Some(Buses(m.virtioBlk.slots[..], m.ide.slots[..], m.scsi.slots[..], m.floppy.slots[..]));
  }
}
