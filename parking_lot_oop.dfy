/**
 * The object-oriented "_1" parking lot: vehicles, typed slots, floors, the
 * hourly fare and the lot that allocates and frees slots. Objects the Python
 * code updates in place are classes here; each lot keeps its abstract state
 * (the `Ledger` view of every slot and the vehicle-to-position map) in ghost
 * fields, and its methods are proved to follow `Ledger.Allocate` and
 * `Ledger.Free`.
 */
module OopLot {
  import opened Wrappers
  import opened Grid
  import opened Ledger
  import HourlyFare

  class Vehicle {
    const id: string
    const vehicleType: string
    var entryTime: Option<int>
    var exitTime: Option<int>

    constructor (id: string, vehicleType: string)
      ensures this.id == id && this.vehicleType == vehicleType
      ensures entryTime == None && exitTime == None
    {
      this.id := id;
      this.vehicleType := vehicleType;
      entryTime := None;
      exitTime := None;
    }

    /** `set_entry_time`, the clock reading `now` seconds. */
    method SetEntryTime(now: int)
      modifies this`entryTime
      ensures entryTime == Some(now) && exitTime == old(exitTime)
    {
      entryTime := Some(now);
    }

    /** `set_exit_time`, the clock reading `now` seconds. */
    method SetExitTime(now: int)
      modifies this`exitTime
      ensures exitTime == Some(now) && entryTime == old(entryTime)
    {
      exitTime := Some(now);
    }
  }

  class Slot {
    const id: string
    const vehicleType: string
    var occupied: bool
    var currentVehicle: Vehicle?

    constructor (id: string, vehicleType: string)
      ensures View() == SlotView(id, vehicleType, false, None)
      ensures currentVehicle == null
    {
      this.id := id;
      this.vehicleType := vehicleType;
      occupied := false;
      currentVehicle := null;
    }

    /** The slot as the allocator sees it. */
    function View(): SlotView
      reads this
    {
      SlotView(id, vehicleType, occupied, if currentVehicle == null then None else Some(currentVehicle.id))
    }

    /** `is_available`: the slot takes a vehicle of its own type exactly when it is free. */
    predicate IsAvailable(): (available: bool)
      reads this
      ensures available <==> Fits(View(), vehicleType)
    {
      !occupied
    }

    method AssignVehicle(vehicle: Vehicle)
      modifies this`occupied, this`currentVehicle
      ensures View() == Occupy(old(View()), vehicle.id) && currentVehicle == vehicle
    {
      occupied := true;
      currentVehicle := vehicle;
    }

    method FreeSlot()
      modifies this`occupied, this`currentVehicle
      ensures View() == Vacate(old(View())) && currentVehicle == null
    {
      occupied := false;
      currentVehicle := null;
    }
  }

  /**
   * The views of a list of slots, in order. Each lot module keeps its own copy
   * for its own slot class, so that no module's proofs see the others' classes.
   */
  ghost function ViewsOf(slots: seq<Slot>): (vs: seq<SlotView>)
    reads slots
    ensures |vs| == |slots|
    ensures forall k :: 0 <= k < |slots| ==> vs[k] == slots[k].View()
  {
    seq(|slots|, k requires 0 <= k < |slots| reads slots => slots[k].View())
  }

  class Floor {
    const number: int
    var slots: seq<Slot>

    constructor (number: int)
      ensures this.number == number && slots == []
    {
      this.number := number;
      slots := [];
    }

    method AddSlot(slot: Slot)
      modifies this
      ensures slots == old(slots) + [slot]
    {
      slots := slots + [slot];
    }

    /**
     * `get_available_slot`: the first slot of the floor, in list order, that
     * accepts type `t` and is not occupied; null when there is none.
     */
    method GetAvailableSlot(t: string) returns (slot: Slot?)
      ensures slot == null <==> FirstIndex(ViewsOf(slots), Fitting(t)).None?
      ensures slot != null ==> slot == slots[FirstIndex(ViewsOf(slots), Fitting(t)).value]
    {
      ghost var views := ViewsOf(slots);
      var j := 0;
      while j < |slots|
        invariant 0 <= j <= |slots|
        invariant FirstIndex(views, Fitting(t)) == FirstFrom(views, Fitting(t), j)
      {
        if slots[j].vehicleType == t && slots[j].IsAvailable() {
          return slots[j];
        }
        j := j + 1;
      }
      return null;
    }
  }

  /** The rate of a vehicle type; `_RATES.get(type, 0)`. */
  function RateOf(vehicleType: string): (rate: nat)
    ensures rate > 0 <==> vehicleType in HourlyFare.Rates
    ensures vehicleType in HourlyFare.Rates ==> rate == HourlyFare.Rates[vehicleType]
  {
    if vehicleType in HourlyFare.Rates then HourlyFare.Rates[vehicleType] else 0
  }

  /** `ParkingFare(vehicle).calculate()` for a stay from `entry` to `exit` (seconds). */
  function Calculate(vehicleType: string, entry: int, exit: int): (fare: nat)
    ensures vehicleType !in HourlyFare.Rates ==> fare == 0
    ensures vehicleType in HourlyFare.Rates ==> fare >= HourlyFare.Rates[vehicleType]
    ensures exit - entry < 2 * HourlyFare.SecondsPerHour ==> fare == RateOf(vehicleType)
  {
    HourlyFare.Fare(RateOf(vehicleType), exit - entry)
  }

  /** A known type pays at least one hour; an unknown type pays nothing. */
  lemma CalculateBounds(vehicleType: string, entry: int, exit: int)
    ensures vehicleType in HourlyFare.Rates ==> Calculate(vehicleType, entry, exit) >= HourlyFare.Rates[vehicleType]
    ensures vehicleType !in HourlyFare.Rates ==> Calculate(vehicleType, entry, exit) == 0
  {
    HourlyFare.FareAtLeastRate(RateOf(vehicleType), exit - entry);
  }

  datatype AllocateResult = Allocated(slotId: string, floorNumber: int) | NoAvailableSlot
  datatype FreeResult = Freed(slotId: string, fare: nat) | VehicleNotFound

  /** Each floor object holds the slot list `layout` records for it. */
  ghost predicate Laid(floors: seq<Floor>, layout: seq<seq<Slot>>)
    reads floors
  {
    |layout| == |floors| && forall i :: 0 <= i < |floors| ==> floors[i].slots == layout[i]
  }

  /** `posOf` places the distinct slots of `layout`, and `grid` holds their views. */
  ghost predicate Shown(layout: seq<seq<Slot>>, posOf: map<Slot, Pos>, grid: Lot)
    reads posOf.Keys
  {
    && Indexes(layout, posOf)
    && |grid| == |layout|
    && forall i :: 0 <= i < |layout| ==> ViewsOf(layout[i]) == grid[i]
  }

  /** The map sends each id to a slot of the lot, at the position `where` gives. */
  ghost predicate Registered(slotOf: map<string, Slot>, posOf: map<Slot, Pos>, where: map<string, Pos>)
  {
    && where.Keys == slotOf.Keys
    && forall id :: id in where ==> slotOf[id] in posOf && posOf[slotOf[id]] == where[id]
  }

  /** Every mapped slot holds one of `vehicles`, and its entry time is set. */
  ghost predicate Parked(slotOf: map<string, Slot>, vehicles: set<Vehicle>)
    reads slotOf.Values, vehicles
  {
    forall id :: id in slotOf ==>
      slotOf[id].currentVehicle != null && slotOf[id].currentVehicle in vehicles &&
      slotOf[id].currentVehicle.entryTime.Some?
  }

  /** A floor of new, distinct slots extends the index and the views. */
  lemma ShownAppend(layout: seq<seq<Slot>>, posOf: map<Slot, Pos>, grid: Lot, slots: seq<Slot>)
    requires Shown(layout, posOf, grid)
    requires forall j, j' :: 0 <= j < j' < |slots| ==> slots[j] != slots[j']
    requires forall j :: 0 <= j < |slots| ==> slots[j] !in posOf
    ensures Shown(layout + [slots], posOf + RowIndex(slots, |layout|), grid + [ViewsOf(slots)])
  {
    IndexesAppend(layout, posOf, slots);
    forall i | 0 <= i < |layout| + 1
      ensures ViewsOf((layout + [slots])[i]) == (grid + [ViewsOf(slots)])[i]
    {
      if i < |layout| {
        assert (layout + [slots])[i] == layout[i];
      }
    }
  }

  /** Distinct ids of a consistent map name distinct slots. */
  lemma MappedDistinct(slotOf: map<string, Slot>, posOf: map<Slot, Pos>, where: map<string, Pos>, grid: Lot)
    requires Registered(slotOf, posOf, where) && Consistent(grid, where)
    ensures forall id, id' :: id in slotOf && id' in slotOf && id != id' ==> slotOf[id] != slotOf[id']
  {
    forall id, id' | id in slotOf && id' in slotOf && id != id'
      ensures slotOf[id] != slotOf[id']
    {
      assert At(grid, where[id]).holder != At(grid, where[id']).holder;
    }
  }

  /** A position no map entry names holds a slot that no id is mapped to. */
  lemma UnmappedSlot(layout: seq<seq<Slot>>, posOf: map<Slot, Pos>, slotOf: map<string, Slot>, where: map<string, Pos>, p: Pos)
    requires Indexes(layout, posOf) && Registered(slotOf, posOf, where) && InGrid(layout, p)
    requires forall id :: id in where ==> where[id] != p
    ensures forall id :: id in slotOf ==> slotOf[id] != At(layout, p)
  {
    assert posOf[layout[p.floor][p.slot]] == p;
  }

  class ParkingLot {
    const lotId: int
    var floors: seq<Floor>
    var vehicleSlotMap: map<string, Slot>

    /** The slot list of every floor, in order. */
    ghost var layout: seq<seq<Slot>>
    /** The position of every slot of the lot. */
    ghost var posOf: map<Slot, Pos>
    /** The abstract state: the view of every slot, floor by floor. */
    ghost var Abs: Lot
    /** The abstract vehicle-to-slot map: the position of each mapped slot. */
    ghost var Where: map<string, Pos>
    /** The vehicles ever parked here. */
    ghost var vehicles: set<Vehicle>

    ghost predicate Valid()
      reads this, floors, posOf.Keys, vehicleSlotMap.Values, vehicles
    {
      && Laid(floors, layout)
      && Shown(layout, posOf, Abs)
      && Registered(vehicleSlotMap, posOf, Where)
      && Synced(Abs) && Consistent(Abs, Where)
      && Parked(vehicleSlotMap, vehicles)
    }

    /** The slot at position `p`, if any: all that a call using `p` may change among the slots. */
    ghost function SlotAt(p: Option<Pos>): set<Slot>
      reads this
    {
      if p.Some? && InGrid(layout, p.value) then {At(layout, p.value)} else {}
    }

    constructor (lotId: int)
      ensures Valid()
      ensures this.lotId == lotId && floors == [] && vehicleSlotMap == map[]
      ensures Abs == [] && Where == map[]
    {
      this.lotId := lotId;
      floors := [];
      vehicleSlotMap := map[];
      layout := [];
      posOf := map[];
      Abs := [];
      Where := map[];
      vehicles := {};
    }

    /**
     * Changing the slot at `p` to show `v`, and no other slot, changes the views
     * by putting `v` at `p`.
     */
    twostate lemma ShownAfterUpdate(new p: Pos, new v: SlotView)
      requires old(Shown(layout, posOf, Abs)) && layout == old(layout) && posOf == old(posOf)
      requires InGrid(layout, p) && forall s :: s in posOf && s != At(layout, p) ==> unchanged(s)
      requires At(layout, p).View() == v && Abs == Put(old(Abs), p, v)
      ensures Shown(layout, posOf, Abs)
    {
      forall i | 0 <= i < |layout|
        ensures ViewsOf(layout[i]) == Abs[i]
      {
        forall k | 0 <= k < |layout[i]|
          ensures layout[i][k].View() == Abs[i][k]
        {
          assert layout[i][k] in posOf && posOf[layout[i][k]] == Pos(i, k);
          if Pos(i, k) != p {
            assert At(Abs, Pos(i, k)) == At(old(Abs), Pos(i, k));
          }
        }
      }
    }

    /** Appending a floor of fresh slots, each in sync, keeps every invariant of the lot. */
    twostate lemma AddFloorKeepsValid(floor: Floor)
      requires old(Valid())
      requires forall j, j' :: 0 <= j < j' < |floor.slots| ==> floor.slots[j] != floor.slots[j']
      requires forall j :: 0 <= j < |floor.slots| ==> floor.slots[j] !in old(posOf)
      requires forall j :: 0 <= j < |floor.slots| ==> (floor.slots[j].occupied <==> floor.slots[j].currentVehicle != null)
      requires floors == old(floors) + [floor] && layout == old(layout) + [floor.slots]
      requires Abs == old(Abs) + [ViewsOf(floor.slots)] && posOf == old(posOf) + RowIndex(floor.slots, |old(layout)|)
      requires unchanged(this`vehicleSlotMap, this`Where, this`vehicles)
      requires unchanged(old(floors), old(posOf).Keys, vehicles)
      ensures Valid()
    {
      ShownAppend(old(layout), old(posOf), old(Abs), floor.slots);
      AppendKeepsConsistent(old(Abs), old(Where), ViewsOf(floor.slots));
      forall i | 0 <= i < |old(floors)|
        ensures floors[i].slots == layout[i]
      {
        assert old(floors)[i] in old(floors);
      }
    }

    /**
     * `add_floor`. The floor's slots must be distinct objects that are not
     * already in the lot (the model does not follow aliased slots).
     */
    method AddFloor(floor: Floor)
      requires Valid()
      requires forall j, j' :: 0 <= j < j' < |floor.slots| ==> floor.slots[j] != floor.slots[j']
      requires forall j :: 0 <= j < |floor.slots| ==> floor.slots[j] !in posOf
      requires forall j :: 0 <= j < |floor.slots| ==> (floor.slots[j].occupied <==> floor.slots[j].currentVehicle != null)
      modifies this`floors, this`layout, this`Abs, this`posOf
      ensures Valid()
      ensures floors == old(floors) + [floor] && Abs == old(Abs) + [ViewsOf(floor.slots)]
    {
      floors, layout, Abs, posOf := floors + [floor], layout + [floor.slots], Abs + [ViewsOf(floor.slots)], posOf + RowIndex(floor.slots, |layout|);
      assert unchanged(old(floors), old(posOf).Keys, vehicles);
      AddFloorKeepsValid(floor);
    }

    /** The scan of `allocate_slot`: floor by floor, the first slot `get_available_slot` gives. */
    method FindSlot(t: string) returns (slot: Slot?, i: nat)
      requires Laid(floors, layout) && |Abs| == |layout| && forall k :: 0 <= k < |layout| ==> ViewsOf(layout[k]) == Abs[k]
      ensures slot == null <==> FirstPosFrom(Abs, Fitting(t), 0).None?
      ensures slot != null ==> var p := FirstPosFrom(Abs, Fitting(t), 0).value; p.floor == i < |floors| && InGrid(layout, p) && slot == At(layout, p)
    {
      i := 0;
      slot := null;
      while i < |floors|
        invariant 0 <= i <= |floors| && slot == null
        invariant FirstPosFrom(Abs, Fitting(t), 0) == FirstPosFrom(Abs, Fitting(t), i)
      {
        slot := floors[i].GetAvailableSlot(t);
        if slot != null {
          return;
        }
        i := i + 1;
      }
    }

    /**
     * One `allocate_slot` step on the heap keeps the invariant: the slot at the
     * first fitting position `p` took `vehicle`, whose entry time is set, no
     * other slot, floor or known vehicle changed, and the ghost state moved to
     * what `Allocate` gives.
     */
    twostate lemma AllocateKeepsValid(new p: Pos, new vehicle: Vehicle)
      requires old(Valid())
      requires floors == old(floors) && layout == old(layout) && posOf == old(posOf)
      requires Laid(floors, layout) && InGrid(layout, p) && InGrid(old(Abs), p) && !At(old(Abs), p).occupied
      requires forall s :: s in posOf && s != At(layout, p) ==> unchanged(s)
      requires forall v :: v in old(vehicles) && v != vehicle ==> unchanged(v)
      requires At(layout, p).View() == Occupy(old(At(layout, p).View()), vehicle.id)
      requires At(layout, p).currentVehicle == vehicle && vehicle.entryTime.Some?
      requires Abs == Put(old(Abs), p, Occupy(At(old(Abs), p), vehicle.id)) && Where == old(Where)[vehicle.id := p]
      requires vehicleSlotMap == old(vehicleSlotMap)[vehicle.id := At(layout, p)] && vehicles == old(vehicles) + {vehicle}
      ensures Valid()
    {
      OccupyKeepsConsistent(old(Abs), old(Where), p, vehicle.id);
      UnmappedSlot(layout, posOf, old(vehicleSlotMap), old(Where), p);
      ShownAfterUpdate(p, Occupy(At(old(Abs), p), vehicle.id));
    }

    /** The slot at the first fitting position `p` takes `vehicle`, as `allocate_slot` does once it has found it. */
    method Take(slot: Slot, vehicle: Vehicle, now: int, ghost p: Pos)
      requires Valid()
      requires InGrid(layout, p) && InGrid(Abs, p) && slot == At(layout, p) && !At(Abs, p).occupied
      modifies this, slot`occupied, slot`currentVehicle, vehicle`entryTime
      ensures Valid()
      ensures floors == old(floors) && layout == old(layout) && posOf == old(posOf)
      ensures Abs == Put(old(Abs), p, Occupy(At(old(Abs), p), vehicle.id)) && Where == old(Where)[vehicle.id := p]
      ensures slot.currentVehicle == vehicle
        && vehicleSlotMap == old(vehicleSlotMap)[vehicle.id := slot]
        && vehicle.entryTime == Some(now) && vehicle.exitTime == old(vehicle.exitTime)
    {
      slot.AssignVehicle(vehicle);
      vehicle.SetEntryTime(now);
      vehicleSlotMap, Abs, Where, vehicles := vehicleSlotMap[vehicle.id := slot], Put(Abs, p, Occupy(At(Abs, p), vehicle.id)), Where[vehicle.id := p], vehicles + {vehicle};
      AllocateKeepsValid(p, vehicle);
    }

    /**
     * `allocate_slot`: the first floor with a slot that fits the vehicle's type
     * gives its first such slot, which takes the vehicle; the vehicle's entry
     * time is set and the map sends its id to that slot. With no fitting slot
     * nothing changes.
     */
    method AllocateSlot(vehicle: Vehicle, now: int) returns (r: AllocateResult)
      requires Valid()
      modifies this, SlotAt(FirstPos(Abs, Fitting(vehicle.vehicleType))), vehicle
      ensures Valid()
      ensures floors == old(floors) && layout == old(layout) && posOf == old(posOf)
      ensures var step := Allocate(old(Abs), old(Where), vehicle.id, vehicle.vehicleType);
        && Abs == step.lot && Where == step.where
        && (step.pos.None? ==>
              r == NoAvailableSlot && unchanged(this, vehicle) && unchanged(posOf.Keys))
        && (step.pos.Some? ==>
              var slot := At(layout, step.pos.value);
              && r == Allocated(slot.id, floors[step.pos.value.floor].number)
              && slot.currentVehicle == vehicle
              && vehicleSlotMap == old(vehicleSlotMap)[vehicle.id := slot]
              && vehicle.entryTime == Some(now) && vehicle.exitTime == old(vehicle.exitTime))
    {
      var slot, i := FindSlot(vehicle.vehicleType);
      if slot == null {
        return NoAvailableSlot;
      }
      ghost var p := FirstPos(Abs, Fitting(vehicle.vehicleType)).value;
      Take(slot, vehicle, now, p);
      return Allocated(slot.id, floors[i].number);
    }

    /**
     * The end of `free_slot`, for an id in the map: the slot's vehicle gets its
     * exit time, the slot is freed and the id leaves the map.
     */
    method Release(vehicleId: string, slot: Slot, vehicle: Vehicle, now: int, ghost p: Pos)
      requires Valid() && vehicleId in Where && Where[vehicleId] == p
      requires InGrid(layout, p) && InGrid(Abs, p) && slot == At(layout, p) && vehicle == slot.currentVehicle
      modifies this`vehicleSlotMap, this`Abs, this`Where
      modifies slot`occupied, slot`currentVehicle, vehicle`exitTime
      ensures Valid()
      ensures Abs == Put(old(Abs), p, Vacate(At(old(Abs), p)))
      ensures Where == old(Where) - {vehicleId} && vehicleSlotMap == old(vehicleSlotMap) - {vehicleId}
      ensures !slot.occupied && slot.currentVehicle == null
      ensures vehicle.exitTime == Some(now) && vehicle.entryTime == old(vehicle.entryTime)
    {
      vehicle.SetExitTime(now);
      slot.FreeSlot();
      vehicleSlotMap, Abs, Where := vehicleSlotMap - {vehicleId}, Put(Abs, p, Vacate(At(Abs, p))), Where - {vehicleId};
      FreeKeepsValid(vehicleId, slot, p);
    }

    /**
     * One `free_slot` step on the heap keeps the invariant: the slot mapped to
     * `vehicleId` was freed, no other slot or floor changed, no entry time
     * changed, and the ghost state moved to what `Free` gives.
     */
    twostate lemma FreeKeepsValid(new vehicleId: string, new slot: Slot, new p: Pos)
      requires old(Valid()) && vehicleId in old(Where) && p == old(Where[vehicleId])
      requires InGrid(layout, p) && slot == At(layout, p)
      requires unchanged(this`floors, this`layout, this`posOf, this`vehicles)
      requires Laid(floors, layout)
      requires forall s :: s in posOf && s != slot ==> unchanged(s)
      requires forall v :: v in vehicles ==> v.entryTime == old(v.entryTime)
      requires slot.View() == Vacate(old(slot.View()))
      requires InGrid(old(Abs), p) && Abs == Put(old(Abs), p, Vacate(At(old(Abs), p)))
      requires Where == old(Where) - {vehicleId} && vehicleSlotMap == old(vehicleSlotMap) - {vehicleId}
      ensures Valid()
    {
      assert old(vehicleSlotMap[vehicleId]) == slot;
      FreeKeepsConsistent(old(Abs), old(Where), vehicleId);
      MappedDistinct(old(vehicleSlotMap), posOf, old(Where), old(Abs));
      ShownAfterUpdate(p, Vacate(At(old(Abs), p)));
    }

    /**
     * `free_slot`: an id not in the map gives "Vehicle not found" and changes
     * nothing. Otherwise the mapped slot's vehicle gets its exit time, the slot
     * is freed, the id leaves the map and the result carries the fare for the
     * stay. The fare is computed after the release here, before it in the
     * Python code; it reads only the vehicle's type and times, which the
     * release does not change.
     */
    method FreeSlot(vehicleId: string, now: int) returns (r: FreeResult)
      requires Valid()
      modifies this, if vehicleId in vehicleSlotMap then {vehicleSlotMap[vehicleId], vehicleSlotMap[vehicleId].currentVehicle} else {}
      ensures Valid()
      ensures floors == old(floors) && layout == old(layout) && posOf == old(posOf)
      ensures var step := Free(old(Abs), old(Where), vehicleId);
        Abs == step.lot && Where == step.where
      ensures vehicleId !in old(vehicleSlotMap) ==>
        r == VehicleNotFound && unchanged(this) && unchanged(posOf.Keys) && unchanged(vehicles)
      ensures vehicleId in old(vehicleSlotMap) ==>
        var slot := old(vehicleSlotMap[vehicleId]);
        var vehicle := old(slot.currentVehicle);
        && r == Freed(slot.id, Calculate(vehicle.vehicleType, old(vehicle.entryTime.value), now))
        && !slot.occupied && slot.currentVehicle == null
        && vehicleSlotMap == old(vehicleSlotMap) - {vehicleId}
        && vehicle.exitTime == Some(now) && vehicle.entryTime == old(vehicle.entryTime)
    {
      if vehicleId !in vehicleSlotMap {
        return VehicleNotFound;
      }
      var slot := vehicleSlotMap[vehicleId];
      var vehicle := slot.currentVehicle;
      ghost var step := Free(Abs, Where, vehicleId);
      Release(vehicleId, slot, vehicle, now, Where[vehicleId]);
      assert Abs == step.lot && Where == step.where;
      var fare := Calculate(vehicle.vehicleType, vehicle.entryTime.value, vehicle.exitTime.value);
      return Freed(slot.id, fare);
    }
  }
}
