/**
 * The abstract state of the two "_1" parking lots (the object version and the
 * procedural version share it): for every slot, the vehicle type it accepts,
 * whether it is occupied and the id of the vehicle in it; and the vehicle-to-slot
 * map, with each slot written as its position in the lot. `Allocate` and `Free`
 * are the two operations of those lots as functions of this state; the classes
 * of both versions are proved to follow them.
 */
module Ledger {
  import opened Wrappers
  import opened Grid

  /** A slot as the allocator sees it. `holder` is the id of the current vehicle. */
  datatype SlotView = SlotView(id: string, vehicleType: string, occupied: bool, holder: Option<string>)

  type Lot = seq<seq<SlotView>>

  /** The result of one operation: the new lot, the new map, and the slot it used. */
  datatype Step = Step(lot: Lot, where: map<string, Pos>, pos: Option<Pos>)

  /** A slot can take a vehicle of type `t`: same type, and not occupied. */
  predicate Fits(v: SlotView, t: string)
  {
    v.vehicleType == t && !v.occupied
  }

  function Fitting(t: string): SlotView -> bool
  {
    (v: SlotView) => Fits(v, t)
  }

  function IsOccupied(): SlotView -> bool
  {
    (v: SlotView) => v.occupied
  }

  /** What `assign_vehicle` does to a slot. */
  function Occupy(v: SlotView, vehicleId: string): SlotView
  {
    v.(occupied := true, holder := Some(vehicleId))
  }

  /** What `free_slot` does to a slot. */
  function Vacate(v: SlotView): SlotView
  {
    v.(occupied := false, holder := None)
  }

  /**
   * Every slot is occupied exactly when it holds a vehicle. `LevelSpec.Synced`
   * says the same of the levelled lot's spots, which are a different type.
   */
  ghost predicate Synced(lot: Lot)
  {
    forall q :: InGrid(lot, q) ==> (At(lot, q).occupied <==> At(lot, q).holder.Some?)
  }

  /** Every map entry names a slot of the lot. */
  ghost predicate Placed(lot: Lot, where: map<string, Pos>)
  {
    forall id :: id in where ==> InGrid(lot, where[id])
  }

  /** Every map entry names an occupied slot that holds the vehicle with that id. */
  ghost predicate Consistent(lot: Lot, where: map<string, Pos>)
  {
    forall id {:trigger where[id]} {:trigger id in where} :: id in where ==> InGrid(lot, where[id]) && At(lot, where[id]).occupied && At(lot, where[id]).holder == Some(id)
  }

  /**
   * `add_floor`: a new floor whose slots are each in sync keeps the lot synced
   * and the map consistent.
   */
  lemma AppendKeepsConsistent(lot: Lot, where: map<string, Pos>, row: seq<SlotView>)
    requires Synced(lot) && Consistent(lot, where)
    requires forall j :: 0 <= j < |row| ==> (row[j].occupied <==> row[j].holder.Some?)
    ensures Synced(lot + [row]) && Consistent(lot + [row], where)
  {
    AppendKeeps(lot, row);
    forall q | InGrid(lot + [row], q)
      ensures At(lot + [row], q).occupied <==> At(lot + [row], q).holder.Some?
    {
      if q.floor < |lot| {
        assert InGrid(lot, q);
      } else {
        assert At(lot + [row], q) == row[q.slot];
      }
    }
  }

  /** Consistent, and as many occupied slots as map entries. */
  ghost predicate Balanced(lot: Lot, where: map<string, Pos>)
  {
    Synced(lot) && Consistent(lot, where) && Count(lot, IsOccupied()) == |where|
  }

  /**
   * `allocate_slot`: the first fitting slot, floor by floor and slot by slot,
   * takes the vehicle and the map sends its id there; with no fitting slot,
   * nothing changes. An id already in the map is not refused.
   */
  function Allocate(lot: Lot, where: map<string, Pos>, vehicleId: string, t: string): (r: Step)
    ensures r.pos.None? <==> forall q :: InGrid(lot, q) ==> !Fits(At(lot, q), t)
    ensures r.pos.None? ==> r.lot == lot && r.where == where
    ensures r.pos.Some? ==> InGrid(lot, r.pos.value) && Fits(At(lot, r.pos.value), t)
    ensures r.pos.Some? ==> forall q :: InGrid(lot, q) && Before(q, r.pos.value) ==> !Fits(At(lot, q), t)
    ensures r.pos.Some? ==> SameShape(lot, r.lot) && At(r.lot, r.pos.value) == Occupy(At(lot, r.pos.value), vehicleId)
    ensures r.pos.Some? ==> forall q :: InGrid(lot, q) && q != r.pos.value ==> At(r.lot, q) == At(lot, q)
    ensures r.pos.Some? ==> r.where == where[vehicleId := r.pos.value]
  {
    match FirstPos(lot, Fitting(t))
    case None => Step(lot, where, None)
    case Some(p) => Step(Put(lot, p, Occupy(At(lot, p), vehicleId)), where[vehicleId := p], Some(p))
  }

  /**
   * `free_slot`: an unknown id changes nothing; a known id vacates the slot the
   * map names and leaves the map.
   */
  function Free(lot: Lot, where: map<string, Pos>, vehicleId: string): (r: Step)
    requires Placed(lot, where)
    ensures vehicleId !in where ==> r == Step(lot, where, None)
    ensures vehicleId in where ==> r.pos == Some(where[vehicleId]) && r.where.Keys == where.Keys - {vehicleId}
    ensures vehicleId in where ==> forall id :: id in r.where ==> r.where[id] == where[id]
    ensures vehicleId in where ==> SameShape(lot, r.lot) && At(r.lot, where[vehicleId]) == Vacate(At(lot, where[vehicleId]))
    ensures vehicleId in where ==> forall q :: InGrid(lot, q) && q != where[vehicleId] ==> At(r.lot, q) == At(lot, q)
  {
    if vehicleId !in where then Step(lot, where, None)
    else
      var p := where[vehicleId];
      Step(Put(lot, p, Vacate(At(lot, p))), where - {vehicleId}, Some(p))
  }

  /** Occupying a free slot with a new id keeps slots synced and the map, sent there for that id, consistent. */
  lemma OccupyKeepsConsistent(lot: Lot, where: map<string, Pos>, p: Pos, vehicleId: string)
    requires Synced(lot) && Consistent(lot, where) && InGrid(lot, p) && !At(lot, p).occupied
    ensures var lot' := Put(lot, p, Occupy(At(lot, p), vehicleId));
      Synced(lot') && Consistent(lot', where[vehicleId := p])
  {
    var lot' := Put(lot, p, Occupy(At(lot, p), vehicleId));
    forall id | id in where && id != vehicleId
      ensures InGrid(lot', where[id]) && At(lot', where[id]).occupied && At(lot', where[id]).holder == Some(id)
    {
      assert where[id] != p;
    }
  }

  /** Allocation keeps slots synced and the map consistent, even for an id already in the map. */
  lemma AllocateKeepsConsistent(lot: Lot, where: map<string, Pos>, vehicleId: string, t: string)
    requires Synced(lot) && Consistent(lot, where)
    ensures var r := Allocate(lot, where, vehicleId, t); Synced(r.lot) && Consistent(r.lot, r.where)
  {
    var r := Allocate(lot, where, vehicleId, t);
    if r.pos.Some? {
      var p := r.pos.value;
      forall id | id in r.where
        ensures InGrid(r.lot, r.where[id]) && At(r.lot, r.where[id]).occupied && At(r.lot, r.where[id]).holder == Some(id)
      {
        if id != vehicleId {
          assert At(lot, where[id]).occupied;
          assert where[id] != p;
        }
      }
    }
  }

  /** Freeing keeps slots synced and the map consistent. */
  lemma FreeKeepsConsistent(lot: Lot, where: map<string, Pos>, vehicleId: string)
    requires Synced(lot) && Consistent(lot, where)
    ensures var r := Free(lot, where, vehicleId); Synced(r.lot) && Consistent(r.lot, r.where)
  {
    var r := Free(lot, where, vehicleId);
    if vehicleId in where {
      var p := where[vehicleId];
      forall id | id in r.where
        ensures InGrid(r.lot, r.where[id]) && At(r.lot, r.where[id]).occupied && At(r.lot, r.where[id]).holder == Some(id)
      {
        assert At(lot, where[id]).holder != At(lot, p).holder;
      }
    }
  }

  /** Allocating an id not yet in the map keeps the occupied count equal to the map size. */
  lemma AllocateKeepsBalanced(lot: Lot, where: map<string, Pos>, vehicleId: string, t: string)
    requires Balanced(lot, where) && vehicleId !in where
    ensures var r := Allocate(lot, where, vehicleId, t); Balanced(r.lot, r.where)
  {
    AllocateKeepsConsistent(lot, where, vehicleId, t);
    var r := Allocate(lot, where, vehicleId, t);
    if r.pos.Some? {
      var p := r.pos.value;
      assert r.lot == Put(lot, p, Occupy(At(lot, p), vehicleId));
      CountPut(lot, p, Occupy(At(lot, p), vehicleId), IsOccupied());
    }
  }

  /**
   * `add_floor` with a floor whose slots are all free: the occupied count is
   * unchanged, so it still equals the size of the map. Every lot is built as
   * an empty lot followed by such floors, so this is how the count starts.
   */
  lemma AppendKeepsBalanced(lot: Lot, where: map<string, Pos>, row: seq<SlotView>)
    requires Balanced(lot, where)
    requires forall j :: 0 <= j < |row| ==> !row[j].occupied && row[j].holder.None?
    ensures Balanced(lot + [row], where)
  {
    AppendKeepsConsistent(lot, where, row);
    CountAppend(lot, row, IsOccupied());
    CountRowZero(row, IsOccupied());
  }

  /**
   * Allocating an id that is already in the map still takes a new slot, but the
   * map size stays the same: the slot the id held before stays occupied by it
   * and no map entry names that slot any more.
   */
  lemma AllocateDuplicateOrphansSlot(lot: Lot, where: map<string, Pos>, vehicleId: string, t: string)
    requires Balanced(lot, where) && vehicleId in where
    requires Allocate(lot, where, vehicleId, t).pos.Some?
    ensures var r := Allocate(lot, where, vehicleId, t);
      && Count(r.lot, IsOccupied()) == |r.where| + 1
      && At(r.lot, where[vehicleId]) == At(lot, where[vehicleId])
      && At(r.lot, where[vehicleId]).holder == Some(vehicleId)
      && forall id :: id in r.where ==> r.where[id] != where[vehicleId]
  {
    var r := Allocate(lot, where, vehicleId, t);
    var p := r.pos.value;
    assert where[vehicleId] != p;
    assert r.lot == Put(lot, p, Occupy(At(lot, p), vehicleId));
    CountPut(lot, p, Occupy(At(lot, p), vehicleId), IsOccupied());
    forall id | id in r.where
      ensures r.where[id] != where[vehicleId]
    {
      if id != vehicleId {
        assert At(lot, where[id]).holder != At(lot, where[vehicleId]).holder;
      }
    }
  }

  /** Freeing keeps the occupied count equal to the map size. */
  lemma FreeKeepsBalanced(lot: Lot, where: map<string, Pos>, vehicleId: string)
    requires Balanced(lot, where)
    ensures var r := Free(lot, where, vehicleId); Balanced(r.lot, r.where)
  {
    FreeKeepsConsistent(lot, where, vehicleId);
    if vehicleId in where {
      var p := where[vehicleId];
      CountPut(lot, p, Vacate(At(lot, p)), IsOccupied());
    }
  }

  /**
   * Allocate then free the same id: the lot is back as it was, and the map
   * is the old one without that id.
   */
  lemma AllocateThenFree(lot: Lot, where: map<string, Pos>, vehicleId: string, t: string)
    requires Synced(lot) && Placed(lot, where)
    requires Allocate(lot, where, vehicleId, t).pos.Some?
    ensures var a := Allocate(lot, where, vehicleId, t);
      var f := Free(a.lot, a.where, vehicleId);
      f.lot == lot && f.where == where - {vehicleId} && f.pos == a.pos
  {
    var a := Allocate(lot, where, vehicleId, t);
    var p := a.pos.value;
    assert a.lot == Put(lot, p, Occupy(At(lot, p), vehicleId));
    assert Vacate(Occupy(At(lot, p), vehicleId)) == At(lot, p);
    PutPut(lot, p, Occupy(At(lot, p), vehicleId), At(lot, p));
    PutAt(lot, p);
  }

  /** Allocation fails exactly when no slot of the requested type is free anywhere in the lot. */
  lemma NoSlotIffNoneFree(lot: Lot, where: map<string, Pos>, vehicleId: string, t: string)
    ensures Allocate(lot, where, vehicleId, t).pos.None? <==> Count(lot, Fitting(t)) == 0
  {
    CountZeroIffNoFit(lot, Fitting(t));
  }
}
