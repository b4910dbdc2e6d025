# Greedy delivery planning, modelled in Dafny

This project models the delivery engine of `libs/vrp.ts`. Given a fleet of
vehicles (each with a remaining capacity and a current position) and a list of
customer demands (each with a capacity and a location), `optimizeDeliveryPlan`
works as follows:

- It sorts the demands by increasing capacity.
- It sorts the vehicles by their distance to the first demand.
- It hands the demands out one by one. Each demand goes to the first feasible
  vehicle of least travel cost. A vehicle is feasible when its remaining
  capacity covers the demand. The cost is the distance from the end of the
  vehicle's route so far, or from its current position while its route is
  empty.
- It stops at the first demand no vehicle can take. That demand and everything
  after it are returned as pending.
- The chosen vehicle loses the demand's capacity and moves to its location.
- The caller's demand array is cut down to the demands that were served.

`generateGeoJsonRoute` turns a list of positions into a single-line GeoJSON
feature collection.

Modules:

- `Model` (`model.dfy`): the records of `libs/model.ts` as datatypes. Vehicles
  are identified by their index in the sorted fleet, so the routes map is keyed
  by that index.
- `StableSort` (`stable_sort.dfy`): `Array.prototype.sort` with a comparator.
  It is a stable insertion sort driven by the source's own comparator, proved to
  be a permutation, ordered, and stable.
- `Assignment` (`assignment.dfy`): the scan for a vehicle (`Select`) and the
  loop over the demands (`Run`), as pure functions. The loop's invariant
  (`Tracks`) relates every vehicle to the demands recorded against it.
- `Planning` (`planning.dfy`): the whole operation as one function,
  `DeliveryPlanOf`, and the guarantees of its result.
- `Vrp` (`vrp.dfy`): the source's two classes as imperative Dafny. Their methods
  are proved to compute exactly what `Select`, `Run` and `DeliveryPlanOf`
  compute.
- `GeoJson` (`geojson.dfy`): the route rendering.
- `Scenarios` (`scenarios.dfy`): the engine's result on small fleets, worked
  through the model end to end and proved.

Distances enter as a parameter `dist: (Position, Position) -> real`. Nothing is
required of its values; the scenarios state only the comparisons they need.
The engine throws a `TypeError` in one case: no demand and at least two
vehicles, when the vehicle comparator reads the location of `customerDemands[0]`.
The model returns that case as `Failure(NoFirstDemand)`. With no demand and at
most one vehicle, the comparator is never called, and the result is an empty
plan.

The demand comparator (`libs/vrp.ts:50`) scales both capacities by the location
weight of `a`. With a positive weight, its sign is the sign of the capacity
difference (`CompareDemandsSign`). So the weight never changes the order, and
the order's own `weight` is never read. Because the demands are sorted by
capacity, stopping early never leaves behind a demand that some vehicle could
still take (`NoPendingDemandFits`).

## Model

| member | source | states |
|---|---|---|
| `Vrp.VehicleRoutes.constructor` | libs/vrp.ts:5-6 | the routes map starts empty |
| `Vrp.VehicleRoutes.GetVehicleRoute` | libs/vrp.ts:8-14 | returns the vehicle's route and leaves it in the map; a missing key gets an empty route; no other key changes |
| `Vrp.VehicleRoutes.GetVehicleLastDemand` | libs/vrp.ts:16-20 | no demand exactly when the route is empty, otherwise the route's last demand; the map changes as in `GetVehicleRoute` |
| `Vrp.DeliveryService.constructor` | libs/vrp.ts:39-44 | keeps the caller's vehicles and demands |
| `Vrp.DeliveryService.SelectVehicle` | libs/vrp.ts:67-83 | the result is `Select`: none exactly when no vehicle is feasible, `Some(k)` exactly when `k` is the first feasible vehicle of least cost; each feasible vehicle without a route gets an empty one; no route changes |
| `Vrp.DeliveryService.ServeDemand` | libs/vrp.ts:89-93 | vehicle `k` loses the demand's capacity and moves to its location; the demand is appended to its route; the demands and other vehicles are unchanged |
| `Vrp.DeliveryService.AssignDemands` | libs/vrp.ts:63-94 | the vehicles, the routes and the index where the loop stops are those of `Run` from the first demand |
| `Vrp.DeliveryService.OptimizeDeliveryPlan` | libs/vrp.ts:46-97 | returns what `DeliveryPlanOf` returns: on failure the vehicles are unchanged and the sorted demand array is empty; on success the plan, the sorted and updated vehicles, and the demand array cut to the served prefix |
| `Assignment.Feasible` | libs/vrp.ts:71 | a vehicle can take a demand when its remaining capacity is at least the demand's; its role in the choice is stated by `Assignment.SelectIsFirstMinimum` |
| `Assignment.Below` | libs/vrp.ts:68-78 | the strict `<` against the running minimum, which starts at `Infinity` (`Assignment.Bound`); that it keeps the earliest of equal costs is stated by `Assignment.SelectIsFirstMinimum` |
| `Assignment.Cost` | libs/vrp.ts:72-76 | the cost of a vehicle for a demand: from the last demand on its route, else from its current position; that both agree for the engine's states is stated by `Assignment.CostIsFromCurrentPosition`, and its role in the choice by `Assignment.SelectIsFirstMinimum` |
| `Assignment.Scan` | libs/vrp.ts:70-83 | the scan from a given vehicle on returns an index of the fleet; that it ends at the first cheapest feasible vehicle is stated by `Assignment.ScanFindsFirstMinimum` |
| `Assignment.ScanFindsFirstMinimum` | libs/vrp.ts:70-83 | a scan started with the running minimum of the vehicles before it returns none only when no vehicle is feasible, and otherwise the first feasible vehicle of least cost |
| `Assignment.Select` | libs/vrp.ts:67-83 | a chosen vehicle is an index of the fleet; which one it chooses is stated by `Assignment.SelectIsFirstMinimum` |
| `Assignment.SelectIsFirstMinimum` | libs/vrp.ts:70-83 | none exactly when no vehicle is feasible; `Some(k)` exactly when `k` is feasible, no feasible vehicle is cheaper, and every earlier feasible vehicle is strictly dearer (the strict `<` of line 78 keeps the earliest of equal costs) |
| `Assignment.FirstMinimumUnique` | libs/vrp.ts:78-81 | at most one vehicle is the first cheapest |
| `Assignment.Touch` | libs/vrp.ts:70-72 | the scan's lookups add a key exactly for each feasible vehicle that had none, and change no route |
| `Assignment.Run` | libs/vrp.ts:63-94 | the loop stops between its starting index and the number of demands; the state it leaves is stated by `Assignment.RunTracks` |
| `Assignment.RunTracks` | libs/vrp.ts:63-94 | when the loop ends, each vehicle is its starting record after taking, in order, the demands recorded against it, and each fitted the capacity left at that point; each route is exactly those demands; if the loop stopped early, no vehicle can take the demand it stopped at |
| `Assignment.Moved` | libs/vrp.ts:89-90 | the chosen vehicle after taking a demand; what that does to its history is stated by `Assignment.MovedHistory` |
| `Assignment.Assign` | libs/vrp.ts:89-93 | one turn of the loop that serves a demand; its effect is stated by `Assignment.AssignEffect` and the invariant it keeps by `Assignment.AssignTracks` |
| `Assignment.AssignEffect` | libs/vrp.ts:89-93 | the fleet keeps its length; the chosen vehicle is moved and the demand is appended to its route; every other vehicle and route is unchanged |
| `Assignment.AssignTracks` | libs/vrp.ts:89-93 | serving a demand that fits keeps the loop's invariant, with the demand recorded against the chosen vehicle |
| `Assignment.MovedHistory` | libs/vrp.ts:89-90 | serving a feasible demand extends a vehicle's history by that demand: capacity reduced by it, position at its location |
| `Assignment.HistoryKeepsCapacity` | libs/vrp.ts:71-89 | a vehicle that served a demand has non-negative capacity left; so does one that started non-negative |
| `Assignment.CostIsFromCurrentPosition` | libs/vrp.ts:72-76 | for a tracked vehicle both cost branches agree: the end of its route is its current position |
| `Assignment.RunKeys` | libs/vrp.ts:70-72 | over demands none smaller than the first, the map ends with a key exactly for the vehicles that could take the first demand |
| `Assignment.FinishedConserves` | libs/vrp.ts:63-96 | the routes plus the demands from the stop on hold each demand exactly once |
| `StableSort.SortBy` | libs/vrp.ts:50-58 | `Array.prototype.sort` with a comparator, as a stable insertion; stated by `StableSort.SortPermutation`, `StableSort.SortOrdered`, `StableSort.SortStable` and `StableSort.SortAllEqual` |
| `StableSort.SortPermutation` | libs/vrp.ts:50 | the sort returns a permutation of its input |
| `StableSort.SortOrdered` | libs/vrp.ts:53-58 | with a comparator whose sign agrees with a key, the output is in non-decreasing key order |
| `StableSort.SortStable` | libs/vrp.ts:50 | elements with the same key keep their input order |
| `StableSort.SortAllEqual` | libs/vrp.ts:50 | a comparator that finds every pair equal leaves the input as it is |
| `Planning.CompareDemands` | libs/vrp.ts:50 | the demand comparator, both capacities scaled by the location weight of `a`; its sign is stated by `Planning.CompareDemandsSign` |
| `Planning.CompareVehicles` | libs/vrp.ts:53-58 | the vehicle comparator, the difference of the two distances to the target; the order it gives is stated by `Planning.SortVehiclesSpec` |
| `Planning.CompareDemandsSign` | libs/vrp.ts:50 | the demand comparator is negative, zero or positive exactly when the capacity difference is |
| `Planning.SortDemands` | libs/vrp.ts:50 | the demands after the in-place sort; stated by `Planning.SortDemandsSpec`, through the comparator's sign (`Planning.CompareDemandsSign`) |
| `Planning.SortDemandsSpec` | libs/vrp.ts:47-50 | the demands are permuted into non-decreasing capacity, and demands of equal capacity keep their order |
| `Planning.SortVehicles` | libs/vrp.ts:53-58 | the vehicles after the in-place sort by distance to a target; stated by `Planning.SortVehiclesSpec` |
| `Planning.SortVehiclesSpec` | libs/vrp.ts:52-58 | the vehicles are permuted into non-decreasing distance to the target, and equally distant ones keep their order |
| `Planning.ArrangedFleet` | libs/vrp.ts:52-58 | the fleet sorted by distance to the first sorted demand, untouched without demands; stated by `Planning.ArrangedFleetSpec` and `Planning.SortVehiclesSpec` |
| `Planning.ArrangedFleetSpec` | libs/vrp.ts:52-58 | the arranged fleet is a permutation of the input fleet, of the same length |
| `Planning.DeliveryPlanOf` | libs/vrp.ts:46-97 | the engine's result: the error it throws, or the plan with the caller's arrays as the engine leaves them; stated by `Planning.FailsOnlyWithoutDemands`, `Planning.EmptyDemandsPlan`, `Planning.PlanConservesDemands`, `Planning.PlanRoutesFollowAssignment`, `Planning.PlanVehicleStates`, `Planning.NoPendingDemandFits` and `Planning.PlanRouteKeys` |
| `Planning.PlanFromSorted` | libs/vrp.ts:53-96 | everything after the demand sort: the error when there is no first demand to sort the vehicles by, otherwise the plan read off `Planning.PlanRun` as line 96 does; stated through `Planning.DeliveryPlanOf`'s lemmas |
| `Planning.PlanRun` | libs/vrp.ts:60-94 | the loop on the sorted demands and the arranged fleet, from an empty map; the state it leaves is stated by `Planning.PlanRunFinished` (through `Assignment.RunTracks`) and what it conserves by `Planning.PlanRunConserves` |
| `Planning.PlanRunFinished` | libs/vrp.ts:60-94 | the loop's invariant holds from the empty map, so when the loop ends every vehicle is tracked and an early stop is at a demand no vehicle can take |
| `Planning.PlanRunConserves` | libs/vrp.ts:60-96 | the loop stops within the sorted demands; the fleet keeps its length; only fleet indexes are keys; the routes and the demands from the stop on hold each input demand exactly once |
| `Planning.FailsOnlyWithoutDemands` | libs/vrp.ts:53-55 | the engine fails exactly when there is no demand and there are at least two vehicles |
| `Planning.EmptyDemandsPlan` | libs/vrp.ts:46-96 | with no demand and at most one vehicle: no routes, nothing pending, vehicles unchanged |
| `Planning.PlanConservesDemands` | libs/vrp.ts:96 | the served prefix and the pending suffix make up the sorted demands; the routes and the pending list hold each input demand exactly once; only fleet indexes are keys |
| `Planning.PlanRoutesFollowAssignment` | libs/vrp.ts:89-93 | each route is the served demands recorded against that vehicle, in assignment order |
| `Planning.PlanVehicleStates` | libs/vrp.ts:89-90 | the fleet is a permutation of the input; each vehicle's capacity dropped by exactly its route's demands, each of which fitted when assigned; it stands at its last demand, or is unchanged without one; a non-negative capacity stays non-negative |
| `Planning.NoPendingDemandFits` | libs/vrp.ts:85-87 | no vehicle, as the engine leaves it, can take any pending demand |
| `Planning.StopLeavesNothingThatFits` | libs/vrp.ts:85-87 | over demands in non-decreasing capacity, once the loop stops at a demand no vehicle can take, no vehicle can take any later demand either |
| `Planning.PlanRouteKeys` | libs/vrp.ts:70-72 | the routes map has a key exactly for the vehicles that could take the smallest demand |
| `Planning.CompareDemandsAsWritten` | libs/vrp.ts:50 | the demand comparator over positions without a weight: every comparison reads as equal; its effect is stated by `Planning.SortAsWrittenKeepsOrder` |
| `Planning.DeliveryPlanAsWritten` | libs/vrp.ts:46-97 | the engine with that comparator; stated by `Planning.AsWrittenLeavesFittingDemandPending` |
| `Planning.SortAsWrittenKeepsOrder` | libs/vrp.ts:50 | with the comparator as the files declare it, the demand sort changes nothing |
| `Planning.AsWrittenLeavesFittingDemandPending` | libs/vrp.ts:50 | with that comparator, one vehicle of capacity 10 given demands of 20 then 3 leaves both pending, although the demand of 3 fits |
| `GeoJson.Coordinates` | libs/vrp.ts:24 | one pair per position, in order, each `[longitude, latitude]` |
| `GeoJson.GenerateGeoJsonRoute` | libs/vrp.ts:23-37 | one feature with empty properties whose line runs through each position, in order, as `[longitude, latitude]` |
| `GeoJson.RouteEndsAtVehicle` | libs/vrp.ts:90 | a vehicle's drawn route ends at the position the engine left the vehicle in |
| `Scenarios.NoVehiclesAllPending` | libs/vrp.ts:63-96 | without vehicles every demand is pending, in sorted order, and there are no routes |
| `Scenarios.OversizedDemandPending` | libs/vrp.ts:85-96 | one vehicle of capacity 5 and a demand of 10: the demand is pending and the vehicle untouched |
| `Scenarios.OneVehicleTwoDemands` | libs/vrp.ts:46-97 | one vehicle of capacity 10 and demands of 20 then 3: the 3 is served first and the vehicle moves there; the 20 is pending |
| `Scenarios.TwoVehiclesTwoDemands` | libs/vrp.ts:46-97 | two vehicles, each nearer one of two equal demands, given in the other order: each takes the demand nearer it, and nothing is pending |

## Left out

- `Position.distanceTo` (the haversine formula, `libs/model.ts:11-25`): floating point and trigonometry. The distance is an uninterpreted parameter, so symmetry and non-negativity are not relied on.
- JavaScript numbers: capacities are unbounded integers and distances are reals. NaN, infinities and rounding are not modelled, except for the NaN comparison in the as-written demand sort.
- The `dateTime` field of `DeliveryOrder` (`libs/model.ts:35`) and the order's own `weight` (`libs/model.ts:36`): the engine never reads either. The timestamp is dropped; the weight is carried.
- Object identity: routes are keyed by the vehicle's index in the sorted fleet, not by the vehicle object. The same vehicle object listed twice, and aliasing between the caller's objects, are not modelled.
- The insertion order of the JavaScript `Map` returned in the plan: the model's routes are an unordered map.
- Sorting with a comparator that is not consistent: with a positive weight and a real-valued distance, both comparators are consistent. Other orders the engine's sort might produce are not modelled.
- The `geojson` package's types: only the structure built by `generateGeoJsonRoute` is modelled.
- The demo (`demos/basic.ts`), console output and random input generation are not part of this model.
- The `CustomerDemand` type that `libs/vrp.ts` imports is taken to be `DeliveryOrder` of `libs/model.ts`.

## Findings

| source | as written | input that shows it | evidently intended | confidence | as-written member | corrected member |
|---|---|---|---|---|---|---|
| libs/vrp.ts:50 | the comparator reads `location.weight`, but `Position` (`libs/model.ts:1-6`) declares no `weight`; both products are NaN, the sort reads a NaN comparison as equal, and the demands stay in input order | one vehicle of capacity 10; demands of capacity 20, then 3: the loop stops at the 20 and leaves the 3 pending, although it fits | demands sorted by increasing capacity (the comment at line 47), with positions carrying a positive weight | medium, not executed | `Planning.AsWrittenLeavesFittingDemandPending` | `Planning.NoPendingDemandFits` |
