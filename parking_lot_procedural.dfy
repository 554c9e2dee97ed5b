/**
 * The procedural "_1" parking lot. `Vehicle`, `Slot` and `Floor` are plain
 * records whose fields the lot sets directly; the lot scans floors and slots
 * in one nested loop, and computes the fare with a rate table that has no
 * default, so a vehicle type missing from it stops `free_slot` half way.
 * Like the object version, the lot keeps its abstract state in ghost fields
 * and is proved to follow `Ledger.Allocate` and `Ledger.Free`.
 */
module ProceduralLot {
  import opened Wrappers
  import opened Grid
  import opened Ledger
  import HourlyFare
  import OopLot

  class Vehicle {
    const id: string
    const vehicleType: string
    var entryTime: Option<int>
    var exitTime: Option<int>

    constructor (id: string, vehicleType: string)
      ensures this.id == id && this.vehicleType == vehicleType
      ensures entryTime == None && exitTime == None
    {
      this.id := id;
      this.vehicleType := vehicleType;
      entryTime := None;
      exitTime := None;
    }
  }

  /** A slot for one vehicle type; the lot sets its fields directly. */
  class Slot {
    const id: string
    const vehicleType: string
    var occupied: bool
    var currentVehicle: Vehicle?

    constructor (id: string, vehicleType: string)
      ensures View() == SlotView(id, vehicleType, false, None)
      ensures currentVehicle == null
    {
      this.id := id;
      this.vehicleType := vehicleType;
      occupied := false;
      currentVehicle := null;
    }

    /** The slot as the allocator sees it. */
    function View(): SlotView
      reads this
    {
      SlotView(id, vehicleType, occupied, if currentVehicle == null then None else Some(currentVehicle.id))
    }
  }

  /**
   * The views of a list of slots, in order. Each lot module keeps its own copy
   * for its own slot class, so that no module's proofs see the others' classes.
   */
  ghost function ViewsOf(slots: seq<Slot>): (vs: seq<SlotView>)
    reads slots
    ensures |vs| == |slots|
    ensures forall k :: 0 <= k < |slots| ==> vs[k] == slots[k].View()
  {
    seq(|slots|, k requires 0 <= k < |slots| reads slots => slots[k].View())
  }

  class Floor {
    const number: int
    var slots: seq<Slot>

    constructor (number: int)
      ensures this.number == number && slots == []
    {
      this.number := number;
      slots := [];
    }

    method AddSlot(slot: Slot)
      modifies this
      ensures slots == old(slots) + [slot]
    {
      slots := slots + [slot];
    }
  }

  /** What `allocate_slot` gives: the slot and floor it used, or "No slot available". */
  datatype AllocateResult = Allocated(slotId: string, floorNumber: int) | NoSlotAvailable

  /**
   * `ParkingFare(vehicle).cal()` for a stay from `entry` to `exit` (seconds):
   * None where `RATES[vehicle_type]` raises KeyError.
   */
  function Cal(vehicleType: string, entry: int, exit: int): (r: Option<nat>)
    ensures r.None? <==> vehicleType !in HourlyFare.Rates
    ensures r.Some? ==> r.value >= HourlyFare.Rates[vehicleType]
  {
    if vehicleType in HourlyFare.Rates then
      HourlyFare.FareAtLeastRate(HourlyFare.Rates[vehicleType], exit - entry);
      Some(HourlyFare.Fare(HourlyFare.Rates[vehicleType], exit - entry))
    else
      None
  }

  /**
   * On the three known types `cal` and the object version's `calculate` agree;
   * on any other type `calculate` charges 0 where `cal` fails.
   */
  lemma CalAgreesWithCalculate(vehicleType: string, entry: int, exit: int)
    ensures vehicleType in HourlyFare.Rates ==> Cal(vehicleType, entry, exit) == Some(OopLot.Calculate(vehicleType, entry, exit))
    ensures vehicleType !in HourlyFare.Rates ==> Cal(vehicleType, entry, exit).None? && OopLot.Calculate(vehicleType, entry, exit) == 0
  {
  }

  /** A stay of under two hours costs one hour; in general `cal` rounds down to whole hours. */
  lemma {:induction false} CalRoundsDown(vehicleType: string, entry: int, hours: nat, extra: nat)
    requires vehicleType in HourlyFare.Rates && hours >= 1 && extra < HourlyFare.SecondsPerHour
    ensures Cal(vehicleType, entry, entry + hours * HourlyFare.SecondsPerHour + extra) == Some(hours * HourlyFare.Rates[vehicleType])
  {
    HourlyFare.RoundsDown(HourlyFare.Rates[vehicleType], hours, extra);
  }

  /**
   * What `free_slot` gives: the freed slot's id and the fare, "Vehicle not
   * found", or the KeyError `cal` raises on a type without a rate.
   */
  datatype ReleaseResult = Released(slotId: string, fare: nat) | NotFound | RateMissing(vehicleType: string)

  /** Each floor object holds the slot list `layout` records for it. */
  ghost predicate Laid(floors: seq<Floor>, layout: seq<seq<Slot>>)
    reads floors
  {
    |layout| == |floors| && forall i :: 0 <= i < |floors| ==> floors[i].slots == layout[i]
  }

  /** `posOf` places the distinct slots of `layout`, and `grid` holds their views. */
  ghost predicate Shown(layout: seq<seq<Slot>>, posOf: map<Slot, Pos>, grid: Lot)
    reads posOf.Keys
  {
    && Indexes(layout, posOf)
    && |grid| == |layout|
    && forall i :: 0 <= i < |layout| ==> ViewsOf(layout[i]) == grid[i]
  }

  /** The map sends each id to a slot of the lot, at the position `where` gives. */
  ghost predicate Registered(slotOf: map<string, Slot>, posOf: map<Slot, Pos>, where: map<string, Pos>)
  {
    && where.Keys == slotOf.Keys
    && forall id :: id in where ==> slotOf[id] in posOf && posOf[slotOf[id]] == where[id]
  }

  /** Every mapped slot holds one of `vehicles`, and its entry time is set. */
  ghost predicate Parked(slotOf: map<string, Slot>, vehicles: set<Vehicle>)
    reads slotOf.Values, vehicles
  {
    forall id :: id in slotOf ==>
      slotOf[id].currentVehicle != null && slotOf[id].currentVehicle in vehicles &&
      slotOf[id].currentVehicle.entryTime.Some?
  }

  /** A floor of new, distinct slots extends the index and the views. */
  lemma ShownAppend(layout: seq<seq<Slot>>, posOf: map<Slot, Pos>, grid: Lot, slots: seq<Slot>)
    requires Shown(layout, posOf, grid)
    requires forall j, j' :: 0 <= j < j' < |slots| ==> slots[j] != slots[j']
    requires forall j :: 0 <= j < |slots| ==> slots[j] !in posOf
    ensures Shown(layout + [slots], posOf + RowIndex(slots, |layout|), grid + [ViewsOf(slots)])
  {
    IndexesAppend(layout, posOf, slots);
    forall i | 0 <= i < |layout| + 1
      ensures ViewsOf((layout + [slots])[i]) == (grid + [ViewsOf(slots)])[i]
    {
      if i < |layout| {
        assert (layout + [slots])[i] == layout[i];
      }
    }
  }

  /** Distinct ids of a consistent map name distinct slots. */
  lemma MappedDistinct(slotOf: map<string, Slot>, posOf: map<Slot, Pos>, where: map<string, Pos>, grid: Lot)
    requires Registered(slotOf, posOf, where) && Consistent(grid, where)
    ensures forall id, id' :: id in slotOf && id' in slotOf && id != id' ==> slotOf[id] != slotOf[id']
  {
    forall id, id' | id in slotOf && id' in slotOf && id != id'
      ensures slotOf[id] != slotOf[id']
    {
      assert At(grid, where[id]).holder != At(grid, where[id']).holder;
    }
  }

  /** A position no map entry names holds a slot that no id is mapped to. */
  lemma UnmappedSlot(layout: seq<seq<Slot>>, posOf: map<Slot, Pos>, slotOf: map<string, Slot>, where: map<string, Pos>, p: Pos)
    requires Indexes(layout, posOf) && Registered(slotOf, posOf, where) && InGrid(layout, p)
    requires forall id :: id in where ==> where[id] != p
    ensures forall id :: id in slotOf ==> slotOf[id] != At(layout, p)
  {
    assert posOf[layout[p.floor][p.slot]] == p;
  }

  class ParkingLot {
    const parkingLotId: int
    var floors: seq<Floor>
    var vehicleSlotMap: map<string, Slot>

    /** The slot list of every floor, in order. */
    ghost var layout: seq<seq<Slot>>
    /** The position of every slot of the lot. */
    ghost var posOf: map<Slot, Pos>
    /** The abstract state: the view of every slot, floor by floor. */
    ghost var Abs: Lot
    /** The abstract vehicle-to-slot map: the position of each mapped slot. */
    ghost var Where: map<string, Pos>
    /** The vehicles ever parked here. */
    ghost var vehicles: set<Vehicle>

    ghost predicate Valid()
      reads this, floors, posOf.Keys, vehicleSlotMap.Values, vehicles
    {
      && Laid(floors, layout)
      && Shown(layout, posOf, Abs)
      && Registered(vehicleSlotMap, posOf, Where)
      && Synced(Abs) && Consistent(Abs, Where)
      && Parked(vehicleSlotMap, vehicles)
    }

    /** The slot at position `p`, if any: all that a call using `p` may change among the slots. */
    ghost function SlotAt(p: Option<Pos>): set<Slot>
      reads this
    {
      if p.Some? && InGrid(layout, p.value) then {At(layout, p.value)} else {}
    }

    constructor (parkingLotId: int)
      ensures Valid()
      ensures this.parkingLotId == parkingLotId && floors == [] && vehicleSlotMap == map[]
      ensures Abs == [] && Where == map[]
    {
      this.parkingLotId := parkingLotId;
      floors := [];
      vehicleSlotMap := map[];
      layout := [];
      posOf := map[];
      Abs := [];
      Where := map[];
      vehicles := {};
    }

    /**
     * Changing the slot at `p` to show `v`, and no other slot, changes the views
     * by putting `v` at `p`.
     */
    twostate lemma ShownAfterUpdate(new p: Pos, new v: SlotView)
      requires old(Shown(layout, posOf, Abs)) && layout == old(layout) && posOf == old(posOf)
      requires InGrid(layout, p) && forall s :: s in posOf && s != At(layout, p) ==> unchanged(s)
      requires At(layout, p).View() == v && Abs == Put(old(Abs), p, v)
      ensures Shown(layout, posOf, Abs)
    {
      forall i | 0 <= i < |layout|
        ensures ViewsOf(layout[i]) == Abs[i]
      {
        forall k | 0 <= k < |layout[i]|
          ensures layout[i][k].View() == Abs[i][k]
        {
          assert layout[i][k] in posOf && posOf[layout[i][k]] == Pos(i, k);
          if Pos(i, k) != p {
            assert At(Abs, Pos(i, k)) == At(old(Abs), Pos(i, k));
          }
        }
      }
    }

    /** Appending a floor of fresh slots, each in sync, keeps every invariant of the lot. */
    twostate lemma AddFloorKeepsValid(floor: Floor)
      requires old(Valid())
      requires forall j, j' :: 0 <= j < j' < |floor.slots| ==> floor.slots[j] != floor.slots[j']
      requires forall j :: 0 <= j < |floor.slots| ==> floor.slots[j] !in old(posOf)
      requires forall j :: 0 <= j < |floor.slots| ==> (floor.slots[j].occupied <==> floor.slots[j].currentVehicle != null)
      requires floors == old(floors) + [floor] && layout == old(layout) + [floor.slots]
      requires Abs == old(Abs) + [ViewsOf(floor.slots)] && posOf == old(posOf) + RowIndex(floor.slots, |old(layout)|)
      requires unchanged(this`vehicleSlotMap, this`Where, this`vehicles)
      requires unchanged(old(floors), old(posOf).Keys, vehicles)
      ensures Valid()
    {
      ShownAppend(old(layout), old(posOf), old(Abs), floor.slots);
      AppendKeepsConsistent(old(Abs), old(Where), ViewsOf(floor.slots));
      forall i | 0 <= i < |old(floors)|
        ensures floors[i].slots == layout[i]
      {
        assert old(floors)[i] in old(floors);
      }
    }

    /**
     * `add_floor`. The floor's slots must be distinct objects that are not
     * already in the lot (the model does not follow aliased slots).
     */
    method AddFloor(floor: Floor)
      requires Valid()
      requires forall j, j' :: 0 <= j < j' < |floor.slots| ==> floor.slots[j] != floor.slots[j']
      requires forall j :: 0 <= j < |floor.slots| ==> floor.slots[j] !in posOf
      requires forall j :: 0 <= j < |floor.slots| ==> (floor.slots[j].occupied <==> floor.slots[j].currentVehicle != null)
      modifies this`floors, this`layout, this`Abs, this`posOf
      ensures Valid()
      ensures floors == old(floors) + [floor] && Abs == old(Abs) + [ViewsOf(floor.slots)]
    {
      floors, layout, Abs, posOf := floors + [floor], layout + [floor.slots], Abs + [ViewsOf(floor.slots)], posOf + RowIndex(floor.slots, |layout|);
      assert unchanged(old(floors), old(posOf).Keys, vehicles);
      AddFloorKeepsValid(floor);
    }

    /**
     * The nested scan of `allocate_slot`: floor by floor, slot by slot, the
     * first slot that is not occupied and has the vehicle's type.
     */
    method FindSlot(t: string) returns (slot: Slot?, i: nat)
      requires Laid(floors, layout) && |Abs| == |layout| && forall k :: 0 <= k < |layout| ==> ViewsOf(layout[k]) == Abs[k]
      ensures slot == null <==> FirstPosFrom(Abs, Fitting(t), 0).None?
      ensures slot != null ==> var p := FirstPosFrom(Abs, Fitting(t), 0).value; p.floor == i < |floors| && InGrid(layout, p) && slot == At(layout, p)
    {
      i := 0;
      while i < |floors|
        invariant 0 <= i <= |floors|
        invariant FirstPosFrom(Abs, Fitting(t), 0) == FirstPosFrom(Abs, Fitting(t), i)
      {
        var floor := floors[i];
        var j := 0;
        while j < |floor.slots|
          invariant 0 <= j <= |floor.slots|
          invariant FirstIndex(Abs[i], Fitting(t)) == FirstFrom(Abs[i], Fitting(t), j)
        {
          var candidate := floor.slots[j];
          if !candidate.occupied && candidate.vehicleType == t {
            return candidate, i;
          }
          j := j + 1;
        }
        i := i + 1;
      }
      return null, i;
    }

    /**
     * One `allocate_slot` step on the heap keeps the invariant: the slot at the
     * first fitting position `p` took `vehicle`, whose entry time is set, no
     * other slot, floor or known vehicle changed, and the ghost state moved to
     * what `Allocate` gives.
     */
    twostate lemma AllocateKeepsValid(new p: Pos, new vehicle: Vehicle)
      requires old(Valid())
      requires floors == old(floors) && layout == old(layout) && posOf == old(posOf)
      requires Laid(floors, layout) && InGrid(layout, p) && InGrid(old(Abs), p) && !At(old(Abs), p).occupied
      requires forall s :: s in posOf && s != At(layout, p) ==> unchanged(s)
      requires forall v :: v in old(vehicles) && v != vehicle ==> unchanged(v)
      requires At(layout, p).View() == Occupy(old(At(layout, p).View()), vehicle.id)
      requires At(layout, p).currentVehicle == vehicle && vehicle.entryTime.Some?
      requires Abs == Put(old(Abs), p, Occupy(At(old(Abs), p), vehicle.id)) && Where == old(Where)[vehicle.id := p]
      requires vehicleSlotMap == old(vehicleSlotMap)[vehicle.id := At(layout, p)] && vehicles == old(vehicles) + {vehicle}
      ensures Valid()
    {
      OccupyKeepsConsistent(old(Abs), old(Where), p, vehicle.id);
      UnmappedSlot(layout, posOf, old(vehicleSlotMap), old(Where), p);
      ShownAfterUpdate(p, Occupy(At(old(Abs), p), vehicle.id));
    }

    /**
     * The body of the inner loop of `allocate_slot` once it has found the slot
     * at the first fitting position `p`: the slot is marked occupied and holds
     * the vehicle, the vehicle gets its entry time and the map sends its id to
     * the slot.
     */
    method Take(slot: Slot, vehicle: Vehicle, now: int, ghost p: Pos)
      requires Valid()
      requires InGrid(layout, p) && InGrid(Abs, p) && slot == At(layout, p) && !At(Abs, p).occupied
      modifies this, slot`occupied, slot`currentVehicle, vehicle`entryTime
      ensures Valid()
      ensures floors == old(floors) && layout == old(layout) && posOf == old(posOf)
      ensures Abs == Put(old(Abs), p, Occupy(At(old(Abs), p), vehicle.id)) && Where == old(Where)[vehicle.id := p]
      ensures slot.currentVehicle == vehicle
        && vehicleSlotMap == old(vehicleSlotMap)[vehicle.id := slot]
        && vehicle.entryTime == Some(now) && vehicle.exitTime == old(vehicle.exitTime)
    {
      slot.occupied := true;
      slot.currentVehicle := vehicle;
      vehicle.entryTime := Some(now);
      vehicleSlotMap, Abs, Where, vehicles := vehicleSlotMap[vehicle.id := slot], Put(Abs, p, Occupy(At(Abs, p), vehicle.id)), Where[vehicle.id := p], vehicles + {vehicle};
      AllocateKeepsValid(p, vehicle);
    }

    /**
     * `allocate_slot`: the first slot, floor by floor and then slot by slot,
     * that is free and has the vehicle's type takes the vehicle; the vehicle's
     * entry time is set and the map sends its id to that slot. With no such
     * slot ("No slot available") nothing changes.
     */
    method AllocateSlot(vehicle: Vehicle, now: int) returns (r: AllocateResult)
      requires Valid()
      modifies this, SlotAt(FirstPos(Abs, Fitting(vehicle.vehicleType))), vehicle
      ensures Valid()
      ensures floors == old(floors) && layout == old(layout) && posOf == old(posOf)
      ensures var step := Allocate(old(Abs), old(Where), vehicle.id, vehicle.vehicleType);
        && Abs == step.lot && Where == step.where
        && (step.pos.None? ==>
              r == NoSlotAvailable && unchanged(this, vehicle) && unchanged(posOf.Keys))
        && (step.pos.Some? ==>
              var slot := At(layout, step.pos.value);
              && r == Allocated(slot.id, floors[step.pos.value.floor].number)
              && slot.currentVehicle == vehicle
              && vehicleSlotMap == old(vehicleSlotMap)[vehicle.id := slot]
              && vehicle.entryTime == Some(now) && vehicle.exitTime == old(vehicle.exitTime))
    {
      var slot, i := FindSlot(vehicle.vehicleType);
      if slot == null {
        return NoSlotAvailable;
      }
      ghost var p := FirstPos(Abs, Fitting(vehicle.vehicleType)).value;
      Take(slot, vehicle, now, p);
      return Allocated(slot.id, floors[i].number);
    }

    /**
     * Setting a vehicle's exit time keeps the invariant, which speaks of entry
     * times only.
     */
    twostate lemma ExitKeepsValid()
      requires old(Valid()) && unchanged(this) && unchanged(floors) && unchanged(posOf.Keys)
      requires forall v :: v in vehicles ==> v.entryTime == old(v.entryTime)
      ensures Valid()
    {
      assert Parked(vehicleSlotMap, vehicles);
    }

    /**
     * The end of `free_slot`, for an id in the map whose vehicle's type has a
     * rate: the slot is freed and the id leaves the map.
     */
    method Release(vehicleId: string, slot: Slot, ghost p: Pos)
      requires Valid() && vehicleId in Where && Where[vehicleId] == p
      requires InGrid(layout, p) && InGrid(Abs, p) && slot == At(layout, p)
      modifies this`vehicleSlotMap, this`Abs, this`Where, slot`occupied, slot`currentVehicle
      ensures Valid()
      ensures Abs == Put(old(Abs), p, Vacate(At(old(Abs), p)))
      ensures Where == old(Where) - {vehicleId} && vehicleSlotMap == old(vehicleSlotMap) - {vehicleId}
      ensures !slot.occupied && slot.currentVehicle == null
    {
      slot.occupied := false;
      slot.currentVehicle := null;
      vehicleSlotMap, Abs, Where := vehicleSlotMap - {vehicleId}, Put(Abs, p, Vacate(At(Abs, p))), Where - {vehicleId};
      FreeKeepsValid(vehicleId, slot, p);
    }

    /**
     * One `free_slot` step on the heap keeps the invariant: the slot mapped to
     * `vehicleId` was freed, no other slot or floor changed, no entry time
     * changed, and the ghost state moved to what `Free` gives.
     */
    twostate lemma FreeKeepsValid(new vehicleId: string, new slot: Slot, new p: Pos)
      requires old(Valid()) && vehicleId in old(Where) && p == old(Where[vehicleId])
      requires InGrid(layout, p) && slot == At(layout, p)
      requires unchanged(this`floors, this`layout, this`posOf, this`vehicles)
      requires Laid(floors, layout)
      requires forall s :: s in posOf && s != slot ==> unchanged(s)
      requires unchanged(vehicles)
      requires slot.View() == Vacate(old(slot.View()))
      requires InGrid(old(Abs), p) && Abs == Put(old(Abs), p, Vacate(At(old(Abs), p)))
      requires Where == old(Where) - {vehicleId} && vehicleSlotMap == old(vehicleSlotMap) - {vehicleId}
      ensures Valid()
    {
      assert old(vehicleSlotMap[vehicleId]) == slot;
      FreeKeepsConsistent(old(Abs), old(Where), vehicleId);
      MappedDistinct(old(vehicleSlotMap), posOf, old(Where), old(Abs));
      ShownAfterUpdate(p, Vacate(At(old(Abs), p)));
    }

    /**
     * `free_slot` once the id is found in the map: the vehicle gets its exit
     * time; a type without a rate raises KeyError in `cal` and nothing else
     * changes; otherwise the slot is freed, the id leaves the map and the
     * result carries the fare.
     */
    method Checkout(vehicleId: string, slot: Slot, vehicle: Vehicle, now: int, ghost p: Pos) returns (r: ReleaseResult)
      requires Valid() && vehicleId in Where && Where[vehicleId] == p
      requires InGrid(layout, p) && InGrid(Abs, p) && slot == At(layout, p) && vehicle == slot.currentVehicle
      modifies this`vehicleSlotMap, this`Abs, this`Where
      modifies slot`occupied, slot`currentVehicle, vehicle`exitTime
      ensures Valid() && vehicle.exitTime == Some(now)
      ensures vehicle.vehicleType !in HourlyFare.Rates ==>
        r == RateMissing(vehicle.vehicleType) && unchanged(this) && unchanged(slot)
      ensures vehicle.vehicleType in HourlyFare.Rates ==>
        && r == Released(slot.id, Cal(vehicle.vehicleType, vehicle.entryTime.value, now).value)
        && Abs == Put(old(Abs), p, Vacate(At(old(Abs), p)))
        && Where == old(Where) - {vehicleId} && vehicleSlotMap == old(vehicleSlotMap) - {vehicleId}
        && !slot.occupied && slot.currentVehicle == null
    {
      vehicle.exitTime := Some(now);
      ExitKeepsValid();
      var fare := Cal(vehicle.vehicleType, vehicle.entryTime.value, vehicle.exitTime.value);
      if fare.None? {
        return RateMissing(vehicle.vehicleType);
      }
      Release(vehicleId, slot, p);
      return Released(slot.id, fare.value);
    }

    /**
     * `free_slot`: an id not in the map gives "Vehicle not found" and changes
     * nothing. Otherwise the mapped slot's vehicle gets its exit time; if its
     * type has no rate, `cal` raises KeyError and nothing else changes; if it
     * has one, the slot is freed, the id leaves the map and the result carries
     * the fare, computed before the release as in the Python code.
     */
    method FreeSlot(vehicleId: string, now: int) returns (r: ReleaseResult)
      requires Valid()
      modifies this, if vehicleId in vehicleSlotMap then {vehicleSlotMap[vehicleId], vehicleSlotMap[vehicleId].currentVehicle} else {}
      ensures Valid()
      ensures floors == old(floors) && layout == old(layout) && posOf == old(posOf)
      ensures vehicleId !in old(vehicleSlotMap) ==>
        r == NotFound && unchanged(this) && unchanged(posOf.Keys) && unchanged(vehicles)
      ensures vehicleId in old(vehicleSlotMap) ==>
        var vehicle := old(vehicleSlotMap[vehicleId].currentVehicle);
        && vehicle.exitTime == Some(now) && vehicle.entryTime == old(vehicle.entryTime)
      ensures vehicleId in old(vehicleSlotMap) && old(vehicleSlotMap[vehicleId].currentVehicle.vehicleType) !in HourlyFare.Rates ==>
        r == RateMissing(old(vehicleSlotMap[vehicleId].currentVehicle.vehicleType))
        && unchanged(this) && unchanged(old(vehicleSlotMap[vehicleId]))
      ensures vehicleId in old(vehicleSlotMap) && old(vehicleSlotMap[vehicleId].currentVehicle.vehicleType) in HourlyFare.Rates ==>
        var slot := old(vehicleSlotMap[vehicleId]);
        var vehicle := old(slot.currentVehicle);
        var step := Free(old(Abs), old(Where), vehicleId);
        && r == Released(slot.id, Cal(vehicle.vehicleType, old(vehicle.entryTime.value), now).value)
        && Abs == step.lot && Where == step.where
        && !slot.occupied && slot.currentVehicle == null
        && vehicleSlotMap == old(vehicleSlotMap) - {vehicleId}
    {
      if vehicleId !in vehicleSlotMap {
        return NotFound;
      }
      var slot := vehicleSlotMap[vehicleId];
      var vehicle := slot.currentVehicle;
      r := Checkout(vehicleId, slot, vehicle, now, Where[vehicleId]);
    }
  }
}
