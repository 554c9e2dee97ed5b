/**
 * The abstract state and operations of the levelled parking lot: every spot
 * is free or holds one car, known by its licence number; `Park` puts a car in
 * the first free spot, level by level and then in list order; `Leave` frees
 * the first spot, in the same order, that holds a given licence. Also the
 * row-major order in which a level lists its spots, and the per-minute fare.
 */
module LevelSpec {
  import opened Wrappers
  import opened Grid

  /** A parking spot as the lot sees it: occupied or not, and the licence of its car. */
  datatype Spot = Spot(occupied: bool, holder: Option<string>)

  type Spots = seq<seq<Spot>>

  /** The result of one operation: the new spots, and the position it used. */
  datatype Move = Move(spots: Spots, pos: Option<Pos>)

  function IsFree(): Spot -> bool
  {
    (s: Spot) => !s.occupied
  }

  function IsTaken(): Spot -> bool
  {
    (s: Spot) => s.occupied
  }

  /** The test of `leave`: the spot is occupied and its car has this licence. */
  predicate Holds(s: Spot, license: string)
  {
    s.occupied && s.holder == Some(license)
  }

  function Holding(license: string): Spot -> bool
  {
    (s: Spot) => Holds(s, license)
  }

  /** What `park_car` does to a spot. */
  function Occupied(license: string): Spot
  {
    Spot(true, Some(license))
  }

  /** What `remove_car` does to a spot that has a car. */
  const Vacant: Spot := Spot(false, None)

  /**
   * Every spot is occupied exactly when it has a car; `Ledger.Synced` says the
   * same of the `_1` lots' slot views, which are a different type.
   */
  ghost predicate Synced(g: Spots)
  {
    forall q :: InGrid(g, q) ==> (At(g, q).occupied <==> At(g, q).holder.Some?)
  }

  /**
   * `park`: the first free spot, level by level and then in list order, takes
   * the car; with no free spot nothing changes. A licence that is already
   * parked is not refused.
   */
  function Park(g: Spots, license: string): (r: Move)
    ensures r.pos.None? <==> forall q :: InGrid(g, q) ==> At(g, q).occupied
    ensures r.pos.None? ==> r.spots == g
    ensures r.pos.Some? ==> InGrid(g, r.pos.value) && !At(g, r.pos.value).occupied
    ensures r.pos.Some? ==> forall q :: InGrid(g, q) && Before(q, r.pos.value) ==> At(g, q).occupied
    ensures r.pos.Some? ==> SameShape(g, r.spots) && At(r.spots, r.pos.value) == Occupied(license)
    ensures r.pos.Some? ==> forall q :: InGrid(g, q) && q != r.pos.value ==> At(r.spots, q) == At(g, q)
  {
    match FirstPos(g, IsFree())
    case None => Move(g, None)
    case Some(p) => Move(Put(g, p, Occupied(license)), Some(p))
  }

  /**
   * `leave`: the first spot, level by level and then in list order, that is
   * occupied by a car with this licence is freed; if there is none ("Car not
   * found") nothing changes.
   */
  function Leave(g: Spots, license: string): (r: Move)
    ensures r.pos.None? <==> forall q :: InGrid(g, q) ==> !Holds(At(g, q), license)
    ensures r.pos.None? ==> r.spots == g
    ensures r.pos.Some? ==> InGrid(g, r.pos.value) && Holds(At(g, r.pos.value), license)
    ensures r.pos.Some? ==> forall q :: InGrid(g, q) && Before(q, r.pos.value) ==> !Holds(At(g, q), license)
    ensures r.pos.Some? ==> SameShape(g, r.spots) && At(r.spots, r.pos.value) == Vacant
    ensures r.pos.Some? ==> forall q :: InGrid(g, q) && q != r.pos.value ==> At(r.spots, q) == At(g, q)
  {
    match FirstPos(g, Holding(license))
    case None => Move(g, None)
    case Some(p) => Move(Put(g, p, Vacant), Some(p))
  }

  /** Parking and leaving keep every spot occupied exactly when it has a car. */
  lemma MovesKeepSynced(g: Spots, license: string)
    requires Synced(g)
    ensures Synced(Park(g, license).spots) && Synced(Leave(g, license).spots)
  {
  }

  /** `park` answers "No available slots" exactly when no spot of any level is free. */
  lemma {:induction false} ParkFailsIffFull(g: Spots, license: string)
    ensures Park(g, license).pos.None? <==> Count(g, IsFree()) == 0
  {
    CountZeroIffNoFit(g, IsFree());
  }

  /** A successful `park` occupies exactly one more spot, a successful `leave` one fewer. */
  lemma {:induction false} MovesCount(g: Spots, license: string)
    ensures Park(g, license).pos.Some? ==> Count(Park(g, license).spots, IsTaken()) == Count(g, IsTaken()) + 1
    ensures Leave(g, license).pos.Some? ==> Count(Leave(g, license).spots, IsTaken()) == Count(g, IsTaken()) - 1
  {
    var p := Park(g, license);
    if p.pos.Some? {
      CountPut(g, p.pos.value, Occupied(license), IsTaken());
    }
    var l := Leave(g, license);
    if l.pos.Some? {
      CountPut(g, l.pos.value, Vacant, IsTaken());
    }
  }

  /**
   * A car that is not parked, parked and then taken out again by its licence:
   * the same spot is freed and every spot is as it was.
   */
  lemma ParkThenLeave(g: Spots, license: string)
    requires Synced(g)
    requires forall q :: InGrid(g, q) ==> !Holds(At(g, q), license)
    requires Park(g, license).pos.Some?
    ensures var p := Park(g, license);
      var l := Leave(p.spots, license);
      l.pos == p.pos && l.spots == g
  {
    var p := Park(g, license);
    var x := p.pos.value;
    assert p.spots == Put(g, x, Occupied(license));
    FirstPosUnique(p.spots, Holding(license), x);
    assert At(g, x) == Vacant;
    PutPut(g, x, Occupied(license), Vacant);
    PutAt(g, x);
  }

  /**
   * Parking a licence that is already parked at `held` (its first spot) takes a
   * second spot; `leave` then frees whichever of the two comes first in scan
   * order, and the other still holds the car.
   */
  lemma ParkAgainThenLeave(g: Spots, license: string, held: Pos)
    requires Leave(g, license).pos == Some(held)
    requires Park(g, license).pos.Some?
    ensures var p := Park(g, license);
      var x := p.pos.value;
      var l := Leave(p.spots, license);
      && x != held
      && l.pos == Some(if Before(x, held) then x else held)
      && Holds(At(l.spots, if Before(x, held) then held else x), license)
  {
    var p := Park(g, license);
    var x := p.pos.value;
    var first := if Before(x, held) then x else held;
    assert InGrid(p.spots, first) && Holds(At(p.spots, first), license);
    forall q | InGrid(p.spots, q) && Before(q, first)
      ensures !Holds(At(p.spots, q), license)
    {
      assert q != x && InGrid(g, q);
    }
    FirstPosUnique(p.spots, Holding(license), first);
  }

  /**
   * On an empty lot whose first level has two spots or more: a first car takes
   * the first spot, a second car the second, the first car leaves from the
   * first spot, and a licence that was never parked is not found.
   */
  lemma EmptyLotRun(g: Spots, first: string, second: string, stranger: string)
    requires forall q :: InGrid(g, q) ==> At(g, q) == Vacant
    requires |g| >= 1 && |g[0]| >= 2
    requires first != second && stranger != first && stranger != second
    ensures var p1 := Park(g, first);
      var p2 := Park(p1.spots, second);
      var l1 := Leave(p2.spots, first);
      var l2 := Leave(l1.spots, stranger);
      && p1.pos == Some(Pos(0, 0)) && p2.pos == Some(Pos(0, 1))
      && l1.pos == Some(Pos(0, 0)) && l2.pos.None?
  {
    FirstPosUnique(g, IsFree(), Pos(0, 0));
    var g1 := Park(g, first).spots;
    FirstPosUnique(g1, IsFree(), Pos(0, 1));
    var g2 := Park(g1, second).spots;
    FirstPosUnique(g2, Holding(first), Pos(0, 0));
    var g3 := Leave(g2, first).spots;
    forall q | InGrid(g3, q)
      ensures !Holds(At(g3, q), stranger)
    {
      if q != Pos(0, 0) && q != Pos(0, 1) {
        assert At(g3, q) == At(g, q);
      }
    }
  }

  /**
   * The spot coordinates `(row, spot)` of a level with `rows` rows of
   * `spotsPerRow` spots, in the order `for r in range(rows) for s in
   * range(spots_per_row)` lists them.
   */
  function RowMajor(rows: nat, spotsPerRow: nat): (cs: seq<(int, int)>)
    ensures |cs| == rows * spotsPerRow
  {
    if rows == 0 then [] else RowMajor(rows - 1, spotsPerRow) + Row(rows - 1, spotsPerRow)
  }

  /** The coordinates of row `r`. */
  function Row(r: nat, spotsPerRow: nat): (cs: seq<(int, int)>)
    ensures |cs| == spotsPerRow && forall s :: 0 <= s < spotsPerRow ==> cs[s] == (r, s)
  {
    seq(spotsPerRow, s => (r, s))
  }

  /** The levels of the script at the end of parkingLot_2.py: two rows of two spots, four in all. */
  lemma ScriptLevel()
    ensures RowMajor(RangeLength(2), RangeLength(2)) == [(0, 0), (0, 1), (1, 0), (1, 1)]
  {
    assert Row(0, 2) == [(0, 0), (0, 1)];
    assert Row(1, 2) == [(1, 0), (1, 1)];
  }

  /** Python's `range(n)` is empty for a negative `n`. */
  function RangeLength(n: int): nat
  {
    if n < 0 then 0 else n
  }

  lemma {:induction false} AtLeastOnce(a: nat, n: nat)
    requires a >= 1
    ensures a * n >= n
  {
    if a > 1 {
      AtLeastOnce(a - 1, n);
      assert a * n == (a - 1) * n + n;
    }
  }

  /** Dividing `r * n + s` by `n`, for `s < n`, gives `r` remainder `s`. */
  lemma DivideRowMajor(r: nat, s: nat, n: nat)
    requires s < n
    ensures (r * n + s) / n == r && (r * n + s) % n == s
  {
    var k := r * n + s;
    var d, m := k / n, k % n;
    assert d * n + m == k;
    if d > r {
      assert (d - r) * n == d * n - r * n;
      AtLeastOnce(d - r, n);
    } else if d < r {
      assert (r - d) * n == r * n - d * n;
      AtLeastOnce(r - d, n);
    }
  }

  /** Spot `k` of the level sits in row `k / spotsPerRow`, at place `k % spotsPerRow`. */
  lemma {:induction false} RowMajorAt(rows: nat, spotsPerRow: nat, k: nat)
    requires k < rows * spotsPerRow
    ensures RowMajor(rows, spotsPerRow)[k] == (k / spotsPerRow, k % spotsPerRow)
  {
    var n := spotsPerRow;
    var before := (rows - 1) * n;
    if k < before {
      RowMajorAt(rows - 1, n, k);
    } else {
      DivideRowMajor(rows - 1, k - before, n);
    }
  }

  /**
   * `ParkingFare(car).calculate()` for a stay from `entry` to `exit` seconds:
   * a base fare of 10 or half a rupee per minute, whichever is more; 0 when a
   * time is missing. With both times set it is the larger of 10 and the
   * stay's seconds divided by 120.
   */
  function Fare(entry: Option<int>, exit: Option<int>): (fare: real)
    ensures entry.None? || exit.None? ==> fare == 0.0
    ensures entry.Some? && exit.Some? ==>
      var perMinute := (exit.value - entry.value) as real / 120.0;
      fare >= 10.0 && fare >= perMinute && (fare == 10.0 || fare == perMinute)
  {
    if entry.Some? && exit.Some? then
      var minutes := (exit.value - entry.value) as real / 60.0;
      if 10.0 >= minutes * 0.5 then 10.0 else minutes * 0.5
    else
      0.0
  }

  /** Any stay with both times set costs at least the base fare, and a car missing one costs nothing. */
  lemma FareBounds(entry: Option<int>, exit: Option<int>)
    ensures entry.Some? && exit.Some? ==> Fare(entry, exit) >= 10.0
    ensures entry.None? || exit.None? ==> Fare(entry, exit) == 0.0
  {
  }

  /** From twenty minutes on, the fare is half a rupee per minute; below, the base fare. */
  lemma FarePerMinute(entry: int, exit: int)
    ensures exit - entry >= 1200 ==> Fare(Some(entry), Some(exit)) == (exit - entry) as real / 120.0
    ensures exit - entry <= 1200 ==> Fare(Some(entry), Some(exit)) == 10.0
  {
  }

  /** A longer stay never costs less. */
  lemma FareMonotone(entry: int, shorter: int, longer: int)
    requires shorter <= longer
    ensures Fare(Some(entry), Some(shorter)) <= Fare(Some(entry), Some(longer))
  {
  }
}
