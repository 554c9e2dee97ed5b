/**
 * The levelled "_2" parking lot: cars, spots laid out in rows on each level,
 * levels, the lot that parks and releases cars, and the per-minute fare. The
 * lot keeps the view of every spot (`LevelSpec.Spot`) in a ghost field, and
 * `park` and `leave` are proved to follow `LevelSpec.Park` and
 * `LevelSpec.Leave`.
 */
module LevelLot {
  import opened Wrappers
  import opened Grid
  import opened LevelSpec

  class Car {
    const license: string
    var entryTime: Option<int>
    var exitTime: Option<int>

    constructor (license: string)
      ensures this.license == license && entryTime == None && exitTime == None
    {
      this.license := license;
      entryTime := None;
      exitTime := None;
    }

    /** `set_entry_time`, the clock reading `now` seconds. */
    method SetEntryTime(now: int)
      modifies this`entryTime
      ensures entryTime == Some(now)
    {
      entryTime := Some(now);
    }

    /** `set_exit_time`, the clock reading `now` seconds. */
    method SetExitTime(now: int)
      modifies this`exitTime
      ensures exitTime == Some(now)
    {
      exitTime := Some(now);
    }
  }

  class ParkingSlot {
    const level: int
    const row: int
    const spot: int
    var occupied: bool
    var car: Car?

    constructor (level: int, row: int, spot: int)
      ensures this.level == level && this.row == row && this.spot == spot
      ensures !occupied && car == null
    {
      this.level := level;
      this.row := row;
      this.spot := spot;
      occupied := false;
      car := null;
    }

    /** The spot as the lot sees it. */
    function View(): Spot
      reads this
    {
      Spot(occupied, if car == null then None else Some(car.license))
    }

    /** `is_occupied`: the flag that `find_free_slot` skips on and `leave` tests first. */
    predicate IsOccupied(): (taken: bool)
      reads this
      ensures taken <==> IsTaken()(View())
      ensures !taken <==> IsFree()(View())
    {
      occupied
    }

    /** `park_car`: the spot takes the car, and the car's entry time is set. */
    method ParkCar(car: Car, now: int)
      modifies this`car, this`occupied, car`entryTime
      ensures this.car == car && View() == Occupied(car.license)
      ensures car.entryTime == Some(now) && car.exitTime == old(car.exitTime)
    {
      this.car := car;
      occupied := true;
      car.SetEntryTime(now);
    }

    /**
     * `remove_car`: a spot with a car sets the car's exit time, clears itself
     * and gives back the car with the fare for its stay; a spot without a car
     * gives back no car and a fare of 0 and stays as it was.
     */
    method RemoveCar(now: int) returns (removed: Car?, fare: real)
      modifies this`car, this`occupied, if car == null then {} else {car}
      ensures old(car) == null ==> removed == null && fare == 0.0 && unchanged(this)
      ensures old(car) != null ==>
        && removed == old(car) && car == null && View() == Vacant
        && removed.exitTime == Some(now) && removed.entryTime == old(removed.entryTime)
        && fare == Fare(removed.entryTime, Some(now))
    {
      if car != null {
        car.SetExitTime(now);
        fare := Fare(car.entryTime, car.exitTime);
        removed := car;
        car := null;
        occupied := false;
        return;
      }
      return null, 0.0;
    }
  }

  /**
   * The views of a list of spots, in order. Each lot module keeps its own copy
   * for its own slot class, so that no module's proofs see the others' classes.
   */
  ghost function ViewsOf(slots: seq<ParkingSlot>): (vs: seq<Spot>)
    reads slots
    ensures |vs| == |slots|
    ensures forall k :: 0 <= k < |slots| ==> vs[k] == slots[k].View()
  {
    seq(|slots|, k requires 0 <= k < |slots| reads slots => slots[k].View())
  }

  /** No spot of the list is occupied or holds a car. */
  ghost predicate Empty(slots: seq<ParkingSlot>)
    reads slots
  {
    forall k :: 0 <= k < |slots| ==> !slots[k].occupied && slots[k].car == null
  }

  /** The `(row, spot)` coordinates of a list of spots, in order. */
  function Coords(slots: seq<ParkingSlot>): (cs: seq<(int, int)>)
    ensures |cs| == |slots|
    ensures forall k :: 0 <= k < |slots| ==> cs[k] == (slots[k].row, slots[k].spot)
  {
    seq(|slots|, k requires 0 <= k < |slots| => (slots[k].row, slots[k].spot))
  }

  class Level {
    const slots: seq<ParkingSlot>

    /**
     * `Level(level_number, rows, spots_per_row)`: one new, empty spot per row
     * and place, listed row by row.
     */
    constructor (levelNumber: int, rows: int, spotsPerRow: int)
      ensures Coords(slots) == RowMajor(RangeLength(rows), RangeLength(spotsPerRow))
      ensures forall k :: 0 <= k < |slots| ==> slots[k].level == levelNumber && fresh(slots[k])
      ensures forall j, k :: 0 <= j < k < |slots| ==> slots[j] != slots[k]
      ensures Empty(slots)
    {
      var n := RangeLength(spotsPerRow);
      var built: seq<ParkingSlot> := [];
      for r := 0 to RangeLength(rows)
        invariant Coords(built) == RowMajor(r, n)
        invariant forall k :: 0 <= k < |built| ==>
          built[k].level == levelNumber && fresh(built[k]) && !built[k].occupied && built[k].car == null
        invariant forall j, k :: 0 <= j < k < |built| ==> built[j] != built[k]
      {
        for s := 0 to n
          invariant Coords(built) == RowMajor(r, n) + Row(r, n)[..s]
          invariant forall k :: 0 <= k < |built| ==>
            built[k].level == levelNumber && fresh(built[k]) && !built[k].occupied && built[k].car == null
          invariant forall j, k :: 0 <= j < k < |built| ==> built[j] != built[k]
        {
          var slot := new ParkingSlot(levelNumber, r, s);
          assert Coords(built + [slot]) == Coords(built) + [(r, s)];
          assert Row(r, n)[..s + 1] == Row(r, n)[..s] + [(r, s)];
          built := built + [slot];
        }
        assert Row(r, n)[..n] == Row(r, n);
      }
      slots := built;
    }

    /** `find_free_slot`: the first spot of the level, in list order, that is not occupied. */
    method FindFreeSlot() returns (slot: ParkingSlot?)
      ensures slot == null <==> FirstIndex(ViewsOf(slots), IsFree()).None?
      ensures slot != null ==> slot == slots[FirstIndex(ViewsOf(slots), IsFree()).value]
    {
      ghost var views := ViewsOf(slots);
      for j := 0 to |slots|
        invariant FirstIndex(views, IsFree()) == FirstFrom(views, IsFree(), j)
      {
        if !slots[j].IsOccupied() {
          return slots[j];
        }
      }
      return null;
    }
  }

  /** The spot of row `k / spotsPerRow`, place `k % spotsPerRow` is the `k`-th a new level lists. */
  lemma LevelSpotAt(level: Level, rows: nat, spotsPerRow: nat, k: nat)
    requires Coords(level.slots) == RowMajor(rows, spotsPerRow) && k < |level.slots|
    ensures level.slots[k].row == k / spotsPerRow && level.slots[k].spot == k % spotsPerRow
  {
    RowMajorAt(rows, spotsPerRow, k);
  }

  datatype ParkResult = Parked(license: string, level: int, row: int, spot: int) | NoAvailableSlots
  datatype LeaveResult = Exited(license: string, fare: real) | CarNotFound

  /** The spot lists of the levels, in order. */
  function Layout(levels: seq<Level>): (layout: seq<seq<ParkingSlot>>)
    ensures |layout| == |levels| && forall i :: 0 <= i < |levels| ==> layout[i] == levels[i].slots
  {
    seq(|levels|, i requires 0 <= i < |levels| => levels[i].slots)
  }

  /** No spot object appears twice among the levels. */
  ghost predicate Distinct(layout: seq<seq<ParkingSlot>>)
  {
    forall i, j, i', j' ::
      (0 <= i < |layout| && 0 <= j < |layout[i]| && 0 <= i' < |layout| && 0 <= j' < |layout[i']| &&
       layout[i][j] == layout[i'][j']) ==> i == i' && j == j'
  }

  /** The position of every spot of distinct levels. */
  ghost function PositionsOf(layout: seq<seq<ParkingSlot>>): (posOf: map<ParkingSlot, Pos>)
    requires Distinct(layout)
  {
    map i, j | 0 <= i < |layout| && 0 <= j < |layout[i]| :: layout[i][j] := Pos(i, j)
  }

  /** The positions of distinct levels index them. */
  lemma PositionsIndex(layout: seq<seq<ParkingSlot>>)
    requires Distinct(layout)
    ensures Indexes(layout, PositionsOf(layout))
  {
    var m := PositionsOf(layout);
    forall i, j | 0 <= i < |layout| && 0 <= j < |layout[i]|
      ensures layout[i][j] in m && m[layout[i][j]] == Pos(i, j)
    {
    }
  }

  /** `posOf` places the distinct spots of `layout`, and `grid` holds their views. */
  ghost predicate Shown(layout: seq<seq<ParkingSlot>>, posOf: map<ParkingSlot, Pos>, grid: Spots)
    reads posOf.Keys
  {
    && Indexes(layout, posOf)
    && |grid| == |layout|
    && forall i :: 0 <= i < |layout| ==> ViewsOf(layout[i]) == grid[i]
  }

  /** Spots that are each occupied exactly when they hold a car show synced views. */
  lemma ViewsSynced(layout: seq<seq<ParkingSlot>>, grid: Spots)
    requires |grid| == |layout| && forall i :: 0 <= i < |layout| ==> ViewsOf(layout[i]) == grid[i]
    requires forall i, j :: 0 <= i < |layout| && 0 <= j < |layout[i]| ==> (layout[i][j].occupied <==> layout[i][j].car != null)
    ensures Synced(grid)
  {
    forall q | InGrid(grid, q)
      ensures At(grid, q).occupied <==> At(grid, q).holder.Some?
    {
      assert At(grid, q) == layout[q.floor][q.slot].View();
    }
  }

  class ParkingLot {
    const levels: seq<Level>

    /** The spot list of every level, in order. */
    ghost const layout: seq<seq<ParkingSlot>>
    /** The position of every spot of the lot. */
    ghost const posOf: map<ParkingSlot, Pos>
    /** The abstract state: the view of every spot, level by level. */
    ghost var Abs: Spots

    ghost predicate Valid()
      reads this, posOf.Keys
    {
      && layout == Layout(levels)
      && Shown(layout, posOf, Abs)
      && Synced(Abs)
    }

    /** The spot at `p`, if there is one: what `park` or `leave` changes. */
    ghost function SpotsAt(p: Option<Pos>): set<ParkingSlot>
      reads this
    {
      if p.Some? && InGrid(layout, p.value) then {At(layout, p.value)} else {}
    }

    /** The car of the spot at `p`, if there is one: what `leave` changes. */
    ghost function CarsAt(p: Option<Pos>): set<Car>
      reads this, SpotsAt(p)
    {
      if p.Some? && InGrid(layout, p.value) && At(layout, p.value).car != null then {At(layout, p.value).car} else {}
    }

    /**
     * `ParkingLot(levels)`. The levels must not share a spot object, and each
     * spot must be occupied exactly when it holds a car, as every spot a
     * `Level` creates is.
     */
    constructor (levels: seq<Level>)
      requires Distinct(Layout(levels))
      requires forall i, j :: 0 <= i < |levels| && 0 <= j < |levels[i].slots| ==>
        (levels[i].slots[j].occupied <==> levels[i].slots[j].car != null)
      ensures Valid() && this.levels == levels && layout == Layout(levels)
      ensures |Abs| == |levels| && forall i :: 0 <= i < |levels| ==> Abs[i] == ViewsOf(levels[i].slots)
    {
      this.levels := levels;
      layout := Layout(levels);
      posOf := PositionsOf(Layout(levels));
      Abs := seq(|levels|, i requires 0 <= i < |levels| reads if 0 <= i < |levels| then levels[i].slots else [] => ViewsOf(levels[i].slots));
      new;
      PositionsIndex(layout);
      ViewsSynced(layout, Abs);
    }

    /**
     * Changing the spot at `p` to show `v`, and no other spot, keeps the lot
     * valid when `v` is occupied exactly when it holds a car.
     */
    twostate lemma UpdateKeepsValid(new p: Pos, new v: Spot)
      requires old(Valid()) && InGrid(layout, p)
      requires forall s :: s in posOf && s != At(layout, p) ==> unchanged(s)
      requires At(layout, p).View() == v && (v.occupied <==> v.holder.Some?)
      requires InGrid(old(Abs), p) && Abs == Put(old(Abs), p, v)
      ensures Valid()
    {
      forall i | 0 <= i < |layout|
        ensures ViewsOf(layout[i]) == Abs[i]
      {
        forall k | 0 <= k < |layout[i]|
          ensures layout[i][k].View() == Abs[i][k]
        {
          assert layout[i][k] in posOf && posOf[layout[i][k]] == Pos(i, k);
          if Pos(i, k) != p {
            assert At(Abs, Pos(i, k)) == At(old(Abs), Pos(i, k));
          }
        }
      }
      forall q | InGrid(Abs, q)
        ensures At(Abs, q).occupied <==> At(Abs, q).holder.Some?
      {
        if q != p {
          assert At(Abs, q) == At(old(Abs), q);
        }
      }
    }

    /** The scan of `park`: level by level, the first spot `find_free_slot` gives. */
    method FindFree() returns (slot: ParkingSlot?)
      requires layout == Layout(levels) && |Abs| == |layout| && forall k :: 0 <= k < |layout| ==> ViewsOf(layout[k]) == Abs[k]
      ensures slot == null <==> FirstPosFrom(Abs, IsFree(), 0).None?
      ensures slot != null ==> var p := FirstPosFrom(Abs, IsFree(), 0).value; InGrid(layout, p) && slot == At(layout, p)
    {
      var i := 0;
      while i < |levels|
        invariant 0 <= i <= |levels|
        invariant FirstPosFrom(Abs, IsFree(), 0) == FirstPosFrom(Abs, IsFree(), i)
      {
        slot := levels[i].FindFreeSlot();
        if slot != null {
          return;
        }
        i := i + 1;
      }
      return null;
    }

    /** The free spot at position `p` takes the car, as `park` does once it has found it. */
    method Fill(slot: ParkingSlot, car: Car, now: int, ghost p: Pos)
      requires Valid() && InGrid(layout, p) && slot == At(layout, p)
      modifies this`Abs, slot`car, slot`occupied, car`entryTime
      ensures Valid() && Abs == Put(old(Abs), p, Occupied(car.license))
      ensures slot.car == car && car.entryTime == Some(now) && car.exitTime == old(car.exitTime)
    {
      slot.ParkCar(car, now);
      Abs := Put(Abs, p, Occupied(car.license));
      UpdateKeepsValid(p, Occupied(car.license));
    }

    /**
     * `park`: the first free spot, level by level and then in list order,
     * takes the car and the car's entry time is set; the answer names the
     * car and the spot. With no free spot nothing changes.
     */
    method Park(car: Car, now: int) returns (r: ParkResult)
      requires Valid()
      modifies this`Abs, SpotsAt(LevelSpec.Park(Abs, car.license).pos), car`entryTime
      ensures Valid()
      ensures var move := LevelSpec.Park(old(Abs), car.license);
        && Abs == move.spots
        && (move.pos.None? ==> r == NoAvailableSlots && unchanged(car))
        && (move.pos.Some? ==>
              var slot := At(layout, move.pos.value);
              && r == Parked(car.license, slot.level, slot.row, slot.spot)
              && slot.car == car && car.entryTime == Some(now) && car.exitTime == old(car.exitTime))
    {
      var slot := FindFree();
      if slot == null {
        return NoAvailableSlots;
      }
      ghost var p := FirstPos(Abs, IsFree()).value;
      Fill(slot, car, now, p);
      return Parked(car.license, slot.level, slot.row, slot.spot);
    }

    /** The scan of `leave`: level by level, then spot by spot, the first occupied spot whose car has the licence. */
    method FindCar(license: string) returns (slot: ParkingSlot?)
      requires layout == Layout(levels) && |Abs| == |layout| && forall k :: 0 <= k < |layout| ==> ViewsOf(layout[k]) == Abs[k]
      requires Synced(Abs)
      ensures slot == null <==> FirstPosFrom(Abs, Holding(license), 0).None?
      ensures slot != null ==> var p := FirstPosFrom(Abs, Holding(license), 0).value; InGrid(layout, p) && slot == At(layout, p)
    {
      var i := 0;
      while i < |levels|
        invariant 0 <= i <= |levels|
        invariant FirstPosFrom(Abs, Holding(license), 0) == FirstPosFrom(Abs, Holding(license), i)
      {
        var slots := levels[i].slots;
        for j := 0 to |slots|
          invariant FirstIndex(Abs[i], Holding(license)) == FirstFrom(Abs[i], Holding(license), j)
        {
          assert At(Abs, Pos(i, j)) == slots[j].View();
          if slots[j].IsOccupied() && slots[j].car.license == license {
            return slots[j];
          }
        }
        i := i + 1;
      }
      return null;
    }

    /** The occupied spot at position `p` lets its car go, as `leave` does once it has found it. */
    method Vacate(slot: ParkingSlot, now: int, ghost p: Pos) returns (car: Car, fare: real)
      requires Valid() && InGrid(layout, p) && slot == At(layout, p) && At(Abs, p).occupied
      modifies this`Abs, slot`car, slot`occupied, slot.car
      ensures Valid() && Abs == Put(old(Abs), p, Vacant)
      ensures car == old(slot.car) && slot.car == null
      ensures car.exitTime == Some(now) && car.entryTime == old(car.entryTime) && fare == Fare(car.entryTime, Some(now))
    {
      assert At(Abs, p) == slot.View();
      var removed;
      removed, fare := slot.RemoveCar(now);
      car := removed;
      Abs := Put(Abs, p, Vacant);
      UpdateKeepsValid(p, Vacant);
    }

    /**
     * `leave`: the first occupied spot, level by level and then in list
     * order, whose car has the licence lets the car go; the car's exit time
     * is set and the answer carries the fare for its stay. With no such spot
     * the answer is "Car not found" and nothing changes.
     */
    method Leave(license: string, now: int) returns (r: LeaveResult)
      requires Valid()
      modifies this`Abs, SpotsAt(LevelSpec.Leave(Abs, license).pos), CarsAt(LevelSpec.Leave(Abs, license).pos)
      ensures Valid()
      ensures var move := LevelSpec.Leave(old(Abs), license);
        && Abs == move.spots
        && (move.pos.None? ==> r == CarNotFound)
        && (move.pos.Some? ==>
              var slot := At(layout, move.pos.value);
              var car := old(slot.car);
              && car != null && slot.car == null
              && car.exitTime == Some(now) && car.entryTime == old(car.entryTime)
              && r == Exited(license, Fare(car.entryTime, Some(now))))
    {
      var slot := FindCar(license);
      if slot == null {
        return CarNotFound;
      }
      ghost var p := FirstPos(Abs, Holding(license)).value;
      assert At(Abs, p) == slot.View();
      var car, fare := Vacate(slot, now, p);
      return Exited(car.license, fare);
    }
  }
}
