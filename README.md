# Parking lot, modelled in Dafny

This models three small Python parking-lot programs from the same repository.

- `parkingLot_1_oops.py` is an object-oriented lot. It has vehicles of type bike, car or bus. Slots accept one vehicle type. Floors are lists of slots. A lot holds floors and a vehicle-id-to-slot map, and bills an hourly fare.
- `parkingLot_1_procedural.py` is the same lot with plain records. The lot's methods manipulate the fields directly. Its fare function looks the rate up with `RATES[type]`, which raises `KeyError` for an unknown type.
- `parkingLot_2.py` is a lot of levels. Each level lists its spots row by row. A car is known by its licence number. Leaving is found by licence, and the fare is 0.5 per minute with a minimum of 10.

Each mutable Python object becomes a Dafny class: `Vehicle`/`Car`, `Slot`/`ParkingSlot`, `Floor`/`Level` and `ParkingLot`. Each lot carries ghost abstract state: the grid of slot views, floor by floor, and, for the `_1` lots, the map from vehicle id to position. An invariant `Valid()` ties that state to the heap. Every allocation, release, park and leave is proved to move the abstract state exactly as a pure specification function says:

- `Ledger.Allocate` and `Ledger.Free` for the `_1` lots;
- `LevelSpec.Park` and `LevelSpec.Leave` for the levelled lot.

The properties the programs promise are lemmas about those functions:

- first fit in scan order;
- failure exactly when the lot is full;
- allocate-then-free round trips;
- the number of occupied slots;
- the fare's bounds, rounding and monotonicity.

The `Scripts` module replays the test scripts at the end of the two `_1` files on the abstract state.

Conventions of the model:

- The wall clock is a parameter `now` in whole seconds.
- The strings the methods return become result datatypes: `Allocated`, `NoAvailableSlot`, `Freed`, `VehicleNotFound`, and so on.
- Python's `//` by 3600 is Dafny's `/`. Both round toward minus infinity for a positive divisor.

Three behaviours of the code are worth stating plainly, since each is easy to misread:

- **Rounding.** The hourly fare bills completed hours, rounded down, with a minimum of one hour. So a 61-minute stay at 10 per hour costs 10 (`HourlyFare.RoundsDown`, `ProceduralLot.CalRoundsDown`).
- **Duplicate ids.** Allocation does not reject a vehicle whose id is already in the map. A second allocation takes another slot, and the first slot stays occupied with no map entry naming it (`Ledger.AllocateDuplicateOrphansSlot`).
- **Negative durations.** An exit before the entry is billed one hour, like any stay under two hours (`HourlyFare.FareAtLeastRate`).

## Model

| member | source | states |
|---|---|---|
| HourlyFare.BilledHours | parkingLot_1_oops.py:101 | at least one hour is billed; above one, the billed hours are the completed hours of the stay (h hours bracket the seconds from below); under two hours gives one |
| HourlyFare.Fare | parkingLot_1_oops.py:101-103 | the fare is never less than one hour's rate and is exactly that for any stay under two hours; its rounding and growth are `HourlyFare.RoundsDown` and `HourlyFare.FareMonotone` |
| HourlyFare.FareAtLeastRate | parkingLot_1_oops.py:101-103 | every stay, zero or negative included, costs at least the hourly rate |
| HourlyFare.MinimumCharge | parkingLot_1_oops.py:101-103 | any stay shorter than two hours costs exactly one hour |
| HourlyFare.RoundsDown | parkingLot_1_oops.py:101-103 | a stay of h completed hours plus less than an hour costs h times the rate: partial hours are not billed |
| HourlyFare.FareMonotone | parkingLot_1_oops.py:101-103 | a longer stay never costs less |
| Ledger.Allocate | parkingLot_1_oops.py:113-121 | no slot is used iff no slot of the lot fits the type (type matches and not occupied); otherwise the used slot fits, every slot before it in floor-then-slot order does not, only that slot changes (to occupied by the id) and the map sends the id there; on failure nothing changes |
| Ledger.Free | parkingLot_1_oops.py:123-133 | an unmapped id changes nothing; a mapped id vacates exactly the slot the map names, leaves the map, and every other entry and slot stays |
| Ledger.AppendKeepsConsistent | parkingLot_1_oops.py:110-111 | adding a floor whose slots are each in sync keeps every slot in sync and every map entry pointing at the occupied slot holding that id |
| Ledger.OccupyKeepsConsistent | parkingLot_1_oops.py:117-119 | occupying a free slot and mapping the id to it keeps slots in sync and the map consistent |
| Ledger.AllocateKeepsConsistent | parkingLot_1_oops.py:113-121 | allocation, even of an id already mapped, keeps slots in sync and the map consistent |
| Ledger.FreeKeepsConsistent | parkingLot_1_oops.py:123-133 | freeing keeps slots in sync and the map consistent |
| Ledger.AllocateKeepsBalanced | parkingLot_1_oops.py:113-121 | allocating an id not yet mapped keeps the number of occupied slots equal to the number of map entries |
| Ledger.AppendKeepsBalanced | parkingLot_1_oops.py:110-111 | adding a floor of free slots keeps the number of occupied slots equal to the number of map entries, so a lot built by `add_floor` from an empty lot starts balanced |
| Ledger.FreeKeepsBalanced | parkingLot_1_oops.py:123-133 | freeing keeps the number of occupied slots equal to the number of map entries |
| Ledger.AllocateDuplicateOrphansSlot | parkingLot_1_oops.py:113-121 | allocating an id that is already mapped takes a new slot: the old slot still holds the id, no map entry names it, and occupied slots outnumber map entries by one |
| Ledger.AllocateThenFree | parkingLot_1_oops.py:113-133 | a successful allocation followed by freeing the same id restores the lot exactly and leaves the old map without that id, using the same slot |
| Ledger.NoSlotIffNoneFree | parkingLot_1_oops.py:113-121 | allocation fails exactly when the count of fitting slots in the whole lot is zero |
| OopLot.Vehicle.constructor | parkingLot_1_oops.py:8-12 | id and type as given, no entry or exit time |
| OopLot.Vehicle.SetEntryTime | parkingLot_1_oops.py:20-21 | entry time becomes the clock reading; exit time unchanged |
| OopLot.Vehicle.SetExitTime | parkingLot_1_oops.py:23-24 | exit time becomes the clock reading; entry time unchanged |
| OopLot.Slot.constructor | parkingLot_1_oops.py:38-42 | a slot of the given id and type, not occupied, with no vehicle |
| OopLot.Slot.AssignVehicle | parkingLot_1_oops.py:47-49 | the slot becomes occupied by the vehicle; its id and type stay |
| OopLot.Slot.FreeSlot | parkingLot_1_oops.py:51-53 | the slot becomes unoccupied with no vehicle; its id and type stay |
| OopLot.Slot.IsAvailable | parkingLot_1_oops.py:44-45 | true exactly when the slot is not occupied, that is, when the allocator's fit test holds for the slot's own type |
| OopLot.Floor.constructor | parkingLot_1_oops.py:71-73 | a floor of the given number with no slots |
| OopLot.Floor.AddSlot | parkingLot_1_oops.py:75-76 | the slot is appended at the end of the floor's list |
| OopLot.Floor.GetAvailableSlot | parkingLot_1_oops.py:78-82 | null iff no slot of the floor fits the type; otherwise the first fitting slot in list order |
| OopLot.RateOf | parkingLot_1_oops.py:102 | the rate is positive exactly for the three known types (10, 20, 30 per hour) and is their entry in the rate table; any other type gets 0, as `_RATES.get(type, 0)` gives |
| OopLot.Calculate | parkingLot_1_oops.py:98-103 | an unknown type pays 0; a known type pays at least its rate, and exactly its rate for a stay under two hours; `CalculateBounds`, `HourlyFare.RoundsDown` and `ProceduralLot.CalAgreesWithCalculate` state the rest |
| OopLot.CalculateBounds | parkingLot_1_oops.py:92-103 | a known type pays at least its hourly rate; an unknown type (rate 0 by `get`) pays nothing |
| OopLot.ParkingLot.constructor | parkingLot_1_oops.py:105-108 | no floors, an empty map, and an empty abstract lot satisfying the invariant |
| OopLot.ParkingLot.AddFloor | parkingLot_1_oops.py:110-111 | the floor is appended and the abstract lot gains its slot views as a last floor; the invariant is kept |
| OopLot.ParkingLot.FindSlot | parkingLot_1_oops.py:114-116 | null iff no slot of any floor fits the type; otherwise the first fitting slot in floor-then-slot order, with its floor index |
| OopLot.ParkingLot.Take | parkingLot_1_oops.py:117-119 | the free slot takes the vehicle, the entry time is set, the map sends the id to the slot; the abstract lot and map move accordingly |
| OopLot.ParkingLot.AllocateSlot | parkingLot_1_oops.py:113-121 | the abstract lot and map become what `Ledger.Allocate` gives; on failure "no slot" and nothing changes; on success the result names the slot and floor number, the slot holds the vehicle, its entry time is the clock and the map sends its id to the slot; no object other than the slot used and the vehicle changes |
| OopLot.ParkingLot.Release | parkingLot_1_oops.py:128-132 | the vehicle gets its exit time, the slot is freed, the id leaves the map and the abstract state moves as `Ledger.Free` does |
| OopLot.ParkingLot.FreeSlot | parkingLot_1_oops.py:123-133 | the abstract lot and map become what `Ledger.Free` gives; an unmapped id gives "not found" and changes nothing; otherwise the slot is freed, the id unmapped, the exit time set, and the result carries the slot id and the hourly fare of the stay; no object other than the mapped slot and its vehicle changes |
| ProceduralLot.Vehicle.constructor | parkingLot_1_procedural.py:2-6 | id and type as given, no entry or exit time |
| ProceduralLot.Slot.constructor | parkingLot_1_procedural.py:8-12 | a slot of the given id and type, not occupied, with no vehicle |
| ProceduralLot.Floor.constructor | parkingLot_1_procedural.py:14-16 | a floor of the given number with no slots |
| ProceduralLot.Floor.AddSlot | parkingLot_1_procedural.py:18-19 | the slot is appended at the end of the floor's list |
| ProceduralLot.Cal | parkingLot_1_procedural.py:57-66 | fails (KeyError) exactly when the type has no rate; otherwise at least the hourly rate |
| ProceduralLot.CalAgreesWithCalculate | parkingLot_1_procedural.py:63-66 | on a known type `cal` equals the object version's `calculate`; on an unknown type `cal` fails where `calculate` charges 0 |
| ProceduralLot.CalRoundsDown | parkingLot_1_procedural.py:63-66 | h completed hours plus less than an hour cost h times the rate |
| ProceduralLot.ParkingLot.constructor | parkingLot_1_procedural.py:23-26 | no floors, an empty map, and an empty abstract lot satisfying the invariant |
| ProceduralLot.ParkingLot.AddFloor | parkingLot_1_procedural.py:28-29 | the floor is appended and the abstract lot gains its slot views as a last floor; the invariant is kept |
| ProceduralLot.ParkingLot.FindSlot | parkingLot_1_procedural.py:32-34 | the nested loops find null iff no slot of any floor is free with the vehicle's type; otherwise the first such slot in floor-then-slot order |
| ProceduralLot.ParkingLot.Take | parkingLot_1_procedural.py:35-38 | the free slot takes the vehicle, the entry time is set, the map sends the id to the slot; the abstract lot and map move accordingly |
| ProceduralLot.ParkingLot.AllocateSlot | parkingLot_1_procedural.py:31-40 | the abstract lot and map become what `Ledger.Allocate` gives; on failure "no slot" and nothing changes; on success the result names the slot and floor number, the slot holds the vehicle and its entry time is the clock; no object other than the slot used and the vehicle changes |
| ProceduralLot.ParkingLot.Release | parkingLot_1_procedural.py:51-54 | the slot is freed, the id leaves the map and the abstract state moves as `Ledger.Free` does |
| ProceduralLot.ParkingLot.Checkout | parkingLot_1_procedural.py:46-54 | the exit time is set first; a type without a rate raises (RateMissing) with the slot and map untouched; otherwise the slot is released and the result carries the fare `cal` gives |
| ProceduralLot.ParkingLot.FreeSlot | parkingLot_1_procedural.py:42-56 | an unmapped id gives "not found" and changes nothing; a mapped vehicle gets its exit time; with no rate for its type the call fails and the lot and the mapped slot are unchanged; otherwise the abstract state becomes what `Ledger.Free` gives and the result carries the slot id and the fare; no object other than the mapped slot and its vehicle changes |
| LevelSpec.Park | parkingLot_2.py:99-105 | no spot is used iff every spot of every level is occupied; otherwise the used spot was free, every spot before it (level by level, then list order) is occupied, only that spot changes and it now holds the licence; on failure nothing changes |
| LevelSpec.Leave | parkingLot_2.py:107-113 | no spot is freed iff no spot is occupied by that licence; otherwise the first such spot in scan order becomes vacant and nothing else changes |
| LevelSpec.MovesKeepSynced | parkingLot_2.py:99-113 | parking and leaving keep every spot occupied exactly when it holds a car |
| LevelSpec.ParkFailsIffFull | parkingLot_2.py:99-105 | "No available slots" exactly when the number of free spots is zero |
| LevelSpec.MovesCount | parkingLot_2.py:99-113 | a successful park occupies one more spot, a successful leave one fewer |
| LevelSpec.ParkThenLeave | parkingLot_2.py:99-113 | parking a licence that is not parked and then leaving with it frees the same spot and restores every spot |
| LevelSpec.ParkAgainThenLeave | parkingLot_2.py:99-113 | parking an already-parked licence takes a second spot; leaving then frees whichever of the two comes first and the other still holds the licence |
| LevelSpec.EmptyLotRun | parkingLot_2.py:132-153 | on an empty lot two cars take the first and second spots of the first level, the first car leaves from the first spot, and a licence never parked is not found |
| LevelSpec.RowMajor | parkingLot_2.py:77-80 | a level lists rows times spots-per-row coordinates |
| LevelSpec.RowMajorAt | parkingLot_2.py:76-80 | the k-th slot of a level is at row k div spots-per-row, spot k mod spots-per-row |
| LevelSpec.ScriptLevel | parkingLot_2.py:134-137 | a level of 2 rows of 2 spots lists (0,0), (0,1), (1,0), (1,1) in that order |
| LevelSpec.FareBounds | parkingLot_2.py:126-130 | with both times set the fare is at least 10; with either missing it is 0 |
| LevelSpec.FarePerMinute | parkingLot_2.py:126-130 | stays of 20 minutes or more cost 0.5 per minute; shorter ones cost the base fare 10 |
| LevelSpec.FareMonotone | parkingLot_2.py:126-130 | a longer stay never costs less |
| LevelSpec.Fare | parkingLot_2.py:126-130 | with either time missing the fare is 0; with both set it is the larger of the base fare 10 and half a rupee per minute (seconds / 120); `FarePerMinute` and `FareMonotone` state the rest |
| LevelLot.Car.constructor | parkingLot_2.py:15-18 | the licence as given, no entry or exit time |
| LevelLot.Car.SetEntryTime | parkingLot_2.py:29-30 | entry time becomes the clock reading |
| LevelLot.Car.SetExitTime | parkingLot_2.py:32-33 | exit time becomes the clock reading |
| LevelLot.ParkingSlot.constructor | parkingLot_2.py:43-48 | the given level, row and spot, not occupied and with no car |
| LevelLot.ParkingSlot.IsOccupied | parkingLot_2.py:50-51 | true exactly when the spot's occupied flag is set: the spot is taken, and not free, in the sense the park and leave specifications count |
| LevelLot.ParkingSlot.ParkCar | parkingLot_2.py:53-56 | the slot holds the car and is occupied by its licence; the car's entry time is the clock, its exit time unchanged |
| LevelLot.ParkingSlot.RemoveCar | parkingLot_2.py:58-66 | with no car nothing changes and it gives (null, 0); otherwise it gives the car and its fare for the stay ending now, the slot is vacant and the car's exit time is the clock |
| LevelLot.Level.constructor | parkingLot_2.py:76-80 | the slots are new, distinct, empty, on the given level, with coordinates in row-major order |
| LevelLot.Level.FindFreeSlot | parkingLot_2.py:82-86 | null iff every slot of the level is occupied; otherwise the first unoccupied slot in list order |
| LevelLot.LevelSpotAt | parkingLot_2.py:76-80 | the k-th slot of a level built row-major has row k div spots-per-row and spot k mod spots-per-row |
| LevelLot.ParkingLot.constructor | parkingLot_2.py:96-97 | the lot keeps the levels and its abstract spots are the levels' slot views, satisfying the invariant |
| LevelLot.ParkingLot.FindFree | parkingLot_2.py:100-102 | null iff every spot of every level is occupied; otherwise the first free slot in scan order |
| LevelLot.ParkingLot.Fill | parkingLot_2.py:103 | the slot takes the car and the abstract spot becomes occupied by its licence |
| LevelLot.ParkingLot.Park | parkingLot_2.py:99-105 | the abstract spots become what `LevelSpec.Park` gives; when full, "no available slots" and the car untouched; otherwise the result names the licence, level, row and spot of the slot now holding the car, whose entry time is the clock |
| LevelLot.ParkingLot.FindCar | parkingLot_2.py:108-110 | null iff no spot is occupied by that licence; otherwise the first such slot in scan order |
| LevelLot.ParkingLot.Vacate | parkingLot_2.py:111 | the slot's car is removed and returned with its exit time set to now and its fare; the abstract spot becomes vacant |
| LevelLot.ParkingLot.Leave | parkingLot_2.py:107-113 | the abstract spots become what `LevelSpec.Leave` gives; an unknown licence gives "car not found"; otherwise the first slot holding it is emptied and the result carries the fare from its entry time to now |
| Scripts.AlternatingFirstTwo | parkingLot_1_oops.py:144-161 | on the script's floor (B1, C1, B2, C2, BS1) bike V001 takes B1 and car V002 takes C1 |
| Scripts.AlternatingNextThree | parkingLot_1_oops.py:155-164 | bus V003 takes BS1, bike V004 takes B2, and bike V005 is refused with nothing changed |
| Scripts.AlternatingFrees | parkingLot_1_oops.py:170-172 | freeing V001, V002 and V003 vacates B1, C1 and BS1 in turn |
| Scripts.GroupedFirstTwo | parkingLot_1_procedural.py:72-94 | on the script's floor (B1, B2, C1, C2, BS1) bike V001 takes B1 and car V002 takes C1 |
| Scripts.GroupedNextThree | parkingLot_1_procedural.py:86-97 | bus V003 takes BS1, bike V004 takes B2, and bike V005 is refused with nothing changed |
| Scripts.GroupedFrees | parkingLot_1_procedural.py:103-105 | freeing V001, V002 and V003 vacates B1, C1 and BS1 in turn |
| Scripts.ScriptFares | parkingLot_1_oops.py:167-172 | a two-second stay costs one hour in both versions: 10 for a bike, 20 for a car and 30 for a bus |

## Left out

- Clock: `datetime.now()` is a parameter `now` in whole seconds. Sub-second parts of `total_seconds()` are not modelled, and `time.sleep` is not modelled.
- Output: `print`, `__str__` and `__repr__` are not modelled. The formatted messages are result datatypes carrying the same data (slot id, floor number, fare, licence and position).
- Getters such as `get_vehicle_type` and `get_slot_id` are read as the fields they return.
- LevelSpec.Fare: computed on exact real numbers, not IEEE doubles. The `:.2f` rounding of the message is not modelled.
- Truthiness: `if slot:` and `if self._car:` test for a missing object, because Python objects without `__bool__` are always true. They are modelled as null tests.
- OopLot.ParkingLot.AddFloor: requires the new floor's slots to be distinct objects and not already in the lot, and each slot to be occupied exactly when it has a vehicle. Sharing one slot object between two positions (aliasing) is not modelled.
- ProceduralLot.ParkingLot.AddFloor: requires the new floor's slots to be distinct objects and not already in the lot, and each slot to be occupied exactly when it has a vehicle. Sharing one slot object between two positions (aliasing) is not modelled.
- Slots added to a floor after the floor was added to a lot are outside the lot's invariant. The model's `AddSlot` is used to build floors before they are added.
- LevelLot.ParkingLot.constructor: requires the levels' slots to be distinct objects and each slot to be occupied exactly when it has a car. Aliasing is not modelled.
- OopLot.ParkingLot.FreeSlot: computes the fare after the slot is released, while the Python code computes it before. The fare reads only the vehicle's type and times, which the release does not change.
- The imperative replay of the `parkingLot_2.py` script is not modelled, because it is too costly to verify. `LevelSpec.EmptyLotRun`, `LevelSpec.ScriptLevel` and `LevelSpec.FarePerMinute` state what that script shows, on the abstract state.
- The scripts of the `_1` files are replayed on the `Ledger` abstract state (`Scripts`), not on the classes. The classes' methods are proved to follow `Ledger.Allocate` and `Ledger.Free`.
- Exceptions other than the procedural `KeyError` are not modelled. Freeing a mapped vehicle never sees a missing entry time under the invariant, so the `TypeError` that would raise cannot happen.
