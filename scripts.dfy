/**
 * The test scripts at the end of the two "_1" files, replayed on the abstract
 * state: one floor of five slots (two for bikes, two for cars, one for a bus),
 * five vehicles allocated in turn, then the first three freed after a stay of
 * two seconds.
 */
module Scripts {
  import opened Wrappers
  import opened Grid
  import opened Ledger
  import OopLot
  import ProceduralLot

  /** A one-floor lot: slot `k` has id `ids[k]`, accepts `types[k]` and holds `holders[k]`, if any. */
  function ScriptLot(ids: seq<string>, types: seq<string>, holders: seq<Option<string>>): (lot: Lot)
    requires |ids| == |types| == |holders|
    ensures |lot| == 1 && |lot[0]| == |ids|
    ensures forall k :: 0 <= k < |ids| ==> lot[0][k] == SlotView(ids[k], types[k], holders[k].Some?, holders[k])
  {
    [seq(|ids|, k requires 0 <= k < |ids| => SlotView(ids[k], types[k], holders[k].Some?, holders[k]))]
  }

  /** Allocation on a one-floor lot whose first free slot of type `t` is `k`. */
  lemma ScriptAllocate(ids: seq<string>, types: seq<string>, holders: seq<Option<string>>,
                       where: map<string, Pos>, vehicleId: string, t: string, k: nat)
    requires |ids| == |types| == |holders| && k < |ids|
    requires types[k] == t && holders[k].None?
    requires forall j :: 0 <= j < k ==> types[j] != t || holders[j].Some?
    ensures Allocate(ScriptLot(ids, types, holders), where, vehicleId, t) ==
      Step(ScriptLot(ids, types, holders[k := Some(vehicleId)]), where[vehicleId := Pos(0, k)], Some(Pos(0, k)))
  {
    var lot := ScriptLot(ids, types, holders);
    FirstPosUnique(lot, Fitting(t), Pos(0, k));
    assert Put(lot, Pos(0, k), Occupy(At(lot, Pos(0, k)), vehicleId))[0] == ScriptLot(ids, types, holders[k := Some(vehicleId)])[0];
  }

  /** Allocation on a one-floor lot with no free slot of type `t`. */
  lemma ScriptRefuse(ids: seq<string>, types: seq<string>, holders: seq<Option<string>>,
                     where: map<string, Pos>, vehicleId: string, t: string)
    requires |ids| == |types| == |holders|
    requires forall j :: 0 <= j < |ids| ==> types[j] != t || holders[j].Some?
    ensures Allocate(ScriptLot(ids, types, holders), where, vehicleId, t) == Step(ScriptLot(ids, types, holders), where, None)
  {
    assert forall q :: InGrid(ScriptLot(ids, types, holders), q) ==> q.floor == 0;
  }

  /** Freeing, on a one-floor lot, an id mapped to slot `k`. */
  lemma ScriptFree(ids: seq<string>, types: seq<string>, holders: seq<Option<string>>,
                   where: map<string, Pos>, vehicleId: string, k: nat)
    requires |ids| == |types| == |holders| && k < |ids|
    requires Placed(ScriptLot(ids, types, holders), where) && vehicleId in where && where[vehicleId] == Pos(0, k)
    ensures Free(ScriptLot(ids, types, holders), where, vehicleId) ==
      Step(ScriptLot(ids, types, holders[k := None]), where - {vehicleId}, Some(Pos(0, k)))
  {
    var lot := ScriptLot(ids, types, holders);
    assert Put(lot, Pos(0, k), Vacate(At(lot, Pos(0, k))))[0] == ScriptLot(ids, types, holders[k := None])[0];
  }

  const AlternatingIds: seq<string> := ["B1", "C1", "B2", "C2", "BS1"]
  const AlternatingTypes: seq<string> := ["bike", "car", "bike", "car", "bus"]
  const GroupedIds: seq<string> := ["B1", "B2", "C1", "C2", "BS1"]
  const GroupedTypes: seq<string> := ["bike", "bike", "car", "car", "bus"]

  /** The floor of the object version's script, slots added as B1, C1, B2, C2, BS1, holding `holders`. */
  function Alternating(holders: seq<Option<string>>): Lot
    requires |holders| == 5
  {
    ScriptLot(AlternatingIds, AlternatingTypes, holders)
  }

  /** The floor of the procedural version's script, slots added as B1, B2, C1, C2, BS1, holding `holders`. */
  function Grouped(holders: seq<Option<string>>): Lot
    requires |holders| == 5
  {
    ScriptLot(GroupedIds, GroupedTypes, holders)
  }

  /** The object version's script, first two vehicles: bike V001 takes B1, car V002 takes C1. */
  lemma AlternatingFirstTwo()
    ensures var h0: seq<Option<string>> := [None, None, None, None, None];
      var h1, m1 := h0[0 := Some("V001")], map["V001" := Pos(0, 0)];
      && Allocate(Alternating(h0), map[], "V001", "bike") == Step(Alternating(h1), m1, Some(Pos(0, 0)))
      && Allocate(Alternating(h1), m1, "V002", "car") == Step(Alternating(h1[1 := Some("V002")]), m1["V002" := Pos(0, 1)], Some(Pos(0, 1)))
  {
    var h0: seq<Option<string>> := [None, None, None, None, None];
    ScriptAllocate(AlternatingIds, AlternatingTypes, h0, map[], "V001", "bike", 0);
    ScriptAllocate(AlternatingIds, AlternatingTypes, h0[0 := Some("V001")], map["V001" := Pos(0, 0)], "V002", "car", 1);
  }

  /**
   * The object version's script, next three vehicles: bus V003 takes BS1,
   * bike V004 takes B2, and the third bike V005 gets "No available slot" and
   * changes nothing.
   */
  lemma AlternatingNextThree()
    ensures var h2: seq<Option<string>> := [Some("V001"), Some("V002"), None, None, None];
      var m2 := map["V001" := Pos(0, 0), "V002" := Pos(0, 1)];
      var h3, m3 := h2[4 := Some("V003")], m2["V003" := Pos(0, 4)];
      var h4, m4 := h3[2 := Some("V004")], m3["V004" := Pos(0, 2)];
      && Allocate(Alternating(h2), m2, "V003", "bus") == Step(Alternating(h3), m3, Some(Pos(0, 4)))
      && Allocate(Alternating(h3), m3, "V004", "bike") == Step(Alternating(h4), m4, Some(Pos(0, 2)))
      && Allocate(Alternating(h4), m4, "V005", "bike") == Step(Alternating(h4), m4, None)
  {
    var h2: seq<Option<string>> := [Some("V001"), Some("V002"), None, None, None];
    var m2 := map["V001" := Pos(0, 0), "V002" := Pos(0, 1)];
    ScriptAllocate(AlternatingIds, AlternatingTypes, h2, m2, "V003", "bus", 4);
    var h3, m3 := h2[4 := Some("V003")], m2["V003" := Pos(0, 4)];
    ScriptAllocate(AlternatingIds, AlternatingTypes, h3, m3, "V004", "bike", 2);
    ScriptRefuse(AlternatingIds, AlternatingTypes, h3[2 := Some("V004")], m3["V004" := Pos(0, 2)], "V005", "bike");
  }

  /** The object version's script, freeing V001, V002 and V003 in turn: B1, C1 and BS1 are vacated. */
  lemma AlternatingFrees()
    ensures var h4: seq<Option<string>> := [Some("V001"), Some("V002"), Some("V004"), None, Some("V003")];
      var m4 := map["V001" := Pos(0, 0), "V002" := Pos(0, 1), "V003" := Pos(0, 4), "V004" := Pos(0, 2)];
      var h5, m5 := h4[0 := None], m4 - {"V001"};
      var h6, m6 := h5[1 := None], m5 - {"V002"};
      && Placed(Alternating(h4), m4) && Placed(Alternating(h5), m5) && Placed(Alternating(h6), m6)
      && Free(Alternating(h4), m4, "V001") == Step(Alternating(h5), m5, Some(Pos(0, 0)))
      && Free(Alternating(h5), m5, "V002") == Step(Alternating(h6), m6, Some(Pos(0, 1)))
      && Free(Alternating(h6), m6, "V003") == Step(Alternating(h6[4 := None]), m6 - {"V003"}, Some(Pos(0, 4)))
  {
    var h4: seq<Option<string>> := [Some("V001"), Some("V002"), Some("V004"), None, Some("V003")];
    var m4 := map["V001" := Pos(0, 0), "V002" := Pos(0, 1), "V003" := Pos(0, 4), "V004" := Pos(0, 2)];
    ScriptFree(AlternatingIds, AlternatingTypes, h4, m4, "V001", 0);
    var h5, m5 := h4[0 := None], m4 - {"V001"};
    ScriptFree(AlternatingIds, AlternatingTypes, h5, m5, "V002", 1);
    var h6, m6 := h5[1 := None], m5 - {"V002"};
    ScriptFree(AlternatingIds, AlternatingTypes, h6, m6, "V003", 4);
  }

  /** The procedural version's script, first two vehicles: bike V001 takes B1, car V002 takes C1. */
  lemma GroupedFirstTwo()
    ensures var h0: seq<Option<string>> := [None, None, None, None, None];
      var h1, m1 := h0[0 := Some("V001")], map["V001" := Pos(0, 0)];
      && Allocate(Grouped(h0), map[], "V001", "bike") == Step(Grouped(h1), m1, Some(Pos(0, 0)))
      && Allocate(Grouped(h1), m1, "V002", "car") == Step(Grouped(h1[2 := Some("V002")]), m1["V002" := Pos(0, 2)], Some(Pos(0, 2)))
  {
    var h0: seq<Option<string>> := [None, None, None, None, None];
    ScriptAllocate(GroupedIds, GroupedTypes, h0, map[], "V001", "bike", 0);
    ScriptAllocate(GroupedIds, GroupedTypes, h0[0 := Some("V001")], map["V001" := Pos(0, 0)], "V002", "car", 2);
  }

  /**
   * The procedural version's script, next three vehicles: bus V003 takes
   * BS1, bike V004 takes B2, and the third bike V005 gets "No slot
   * available" and changes nothing.
   */
  lemma GroupedNextThree()
    ensures var h2: seq<Option<string>> := [Some("V001"), None, Some("V002"), None, None];
      var m2 := map["V001" := Pos(0, 0), "V002" := Pos(0, 2)];
      var h3, m3 := h2[4 := Some("V003")], m2["V003" := Pos(0, 4)];
      var h4, m4 := h3[1 := Some("V004")], m3["V004" := Pos(0, 1)];
      && Allocate(Grouped(h2), m2, "V003", "bus") == Step(Grouped(h3), m3, Some(Pos(0, 4)))
      && Allocate(Grouped(h3), m3, "V004", "bike") == Step(Grouped(h4), m4, Some(Pos(0, 1)))
      && Allocate(Grouped(h4), m4, "V005", "bike") == Step(Grouped(h4), m4, None)
  {
    var h2: seq<Option<string>> := [Some("V001"), None, Some("V002"), None, None];
    var m2 := map["V001" := Pos(0, 0), "V002" := Pos(0, 2)];
    ScriptAllocate(GroupedIds, GroupedTypes, h2, m2, "V003", "bus", 4);
    var h3, m3 := h2[4 := Some("V003")], m2["V003" := Pos(0, 4)];
    ScriptAllocate(GroupedIds, GroupedTypes, h3, m3, "V004", "bike", 1);
    ScriptRefuse(GroupedIds, GroupedTypes, h3[1 := Some("V004")], m3["V004" := Pos(0, 1)], "V005", "bike");
  }

  /** The procedural version's script, freeing V001, V002 and V003 in turn: B1, C1 and BS1 are vacated. */
  lemma GroupedFrees()
    ensures var h4: seq<Option<string>> := [Some("V001"), Some("V004"), Some("V002"), None, Some("V003")];
      var m4 := map["V001" := Pos(0, 0), "V002" := Pos(0, 2), "V003" := Pos(0, 4), "V004" := Pos(0, 1)];
      var h5, m5 := h4[0 := None], m4 - {"V001"};
      var h6, m6 := h5[2 := None], m5 - {"V002"};
      && Placed(Grouped(h4), m4) && Placed(Grouped(h5), m5) && Placed(Grouped(h6), m6)
      && Free(Grouped(h4), m4, "V001") == Step(Grouped(h5), m5, Some(Pos(0, 0)))
      && Free(Grouped(h5), m5, "V002") == Step(Grouped(h6), m6, Some(Pos(0, 2)))
      && Free(Grouped(h6), m6, "V003") == Step(Grouped(h6[4 := None]), m6 - {"V003"}, Some(Pos(0, 4)))
  {
    var h4: seq<Option<string>> := [Some("V001"), Some("V004"), Some("V002"), None, Some("V003")];
    var m4 := map["V001" := Pos(0, 0), "V002" := Pos(0, 2), "V003" := Pos(0, 4), "V004" := Pos(0, 1)];
    ScriptFree(GroupedIds, GroupedTypes, h4, m4, "V001", 0);
    var h5, m5 := h4[0 := None], m4 - {"V001"};
    ScriptFree(GroupedIds, GroupedTypes, h5, m5, "V002", 2);
    var h6, m6 := h5[2 := None], m5 - {"V002"};
    ScriptFree(GroupedIds, GroupedTypes, h6, m6, "V003", 4);
  }

  /**
   * The fares both scripts print after their two-second stays: one hour at
   * the type's rate, 10 for a bike, 20 for a car and 30 for a bus.
   */
  lemma ScriptFares(t0: int)
    ensures OopLot.Calculate("bike", t0, t0 + 2) == 10 && ProceduralLot.Cal("bike", t0, t0 + 2) == Some(10)
    ensures OopLot.Calculate("car", t0, t0 + 2) == 20 && ProceduralLot.Cal("car", t0, t0 + 2) == Some(20)
    ensures OopLot.Calculate("bus", t0, t0 + 2) == 30 && ProceduralLot.Cal("bus", t0, t0 + 2) == Some(30)
  {
  }
}
