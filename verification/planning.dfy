/**
 * `DeliveryService.optimizeDeliveryPlan` (libs/vrp.ts:46-97) as one pure
 * function of the caller's vehicles and demands, and the guarantees of the
 * plan it returns.
 */
module Planning {
  import opened Options
  import opened Model
  import opened StableSort
  import opened Assignment

  /**
   * The demand comparator (libs/vrp.ts:50). Both terms are scaled by the
   * location weight of `a`; the weight of `b` and the orders' own weights are
   * never read.
   */
  function CompareDemands(a: CustomerDemand, b: CustomerDemand): real
  {
    (a.capacity as real) * a.location.weight - (b.capacity as real) * a.location.weight
  }

  function CapacityKey(d: CustomerDemand): real
  {
    d.capacity as real
  }

  /** With positive weights, the comparator's sign is that of the capacity difference. */
  lemma CompareDemandsSign(a: CustomerDemand, b: CustomerDemand)
    ensures CompareDemands(a, b) < 0.0 <==> a.capacity < b.capacity
    ensures CompareDemands(a, b) == 0.0 <==> a.capacity == b.capacity
    ensures CompareDemands(a, b) > 0.0 <==> a.capacity > b.capacity
  {
    var w, x := a.location.weight, (a.capacity - b.capacity) as real;
    assert CompareDemands(a, b) == w * x;
    if x > 0.0 {
      assert w * x > 0.0;
    } else if x < 0.0 {
      assert w * -x > 0.0;
    }
  }

  lemma CompareDemandsAgreesWithCapacity()
    ensures AgreesWith(CompareDemands, CapacityKey)
  {
    forall a: CustomerDemand, b: CustomerDemand
      ensures CompareDemands(a, b) <= 0.0 <==> CapacityKey(a) <= CapacityKey(b)
    {
      CompareDemandsSign(a, b);
    }
  }

  /** The demands after the in-place sort of libs/vrp.ts:50. */
  function SortDemands(ds: seq<CustomerDemand>): seq<CustomerDemand>
  {
    SortBy(ds, CompareDemands)
  }

  /** The demands of capacity `c`, in order. */
  function OfCapacity(ds: seq<CustomerDemand>, c: int): seq<CustomerDemand>
  {
    KeyFilter(ds, CapacityKey, c as real)
  }

  /** The sorted demands have non-decreasing capacities. */
  lemma SortDemandsOrdered(ds: seq<CustomerDemand>)
    ensures forall i, j :: 0 <= i < j < |SortDemands(ds)| ==> SortDemands(ds)[i].capacity <= SortDemands(ds)[j].capacity
  {
    CompareDemandsAgreesWithCapacity();
    SortOrdered(ds, CompareDemands, CapacityKey);
  }

  /**
   * The demand sort is a permutation into non-decreasing capacity order, and
   * demands of equal capacity keep their input order.
   */
  lemma SortDemandsSpec(ds: seq<CustomerDemand>)
    ensures multiset(SortDemands(ds)) == multiset(ds) && |SortDemands(ds)| == |ds|
    ensures forall i, j :: 0 <= i < j < |SortDemands(ds)| ==> SortDemands(ds)[i].capacity <= SortDemands(ds)[j].capacity
    ensures forall c: int :: OfCapacity(SortDemands(ds), c) == OfCapacity(ds, c)
  {
    CompareDemandsAgreesWithCapacity();
    SortPermutation(ds, CompareDemands);
    SortDemandsOrdered(ds);
    forall c: int ensures OfCapacity(SortDemands(ds), c) == OfCapacity(ds, c) {
      SortStable(ds, CompareDemands, CapacityKey, c as real);
    }
  }

  /** The vehicle comparator of libs/vrp.ts:53-58: distances to `target`. */
  function CompareVehicles(target: Position, dist: Metric): Comparator<Vehicle>
  {
    (a: Vehicle, b: Vehicle) => dist(a.currentPosition, target) - dist(b.currentPosition, target)
  }

  function DistanceKey(target: Position, dist: Metric): Vehicle -> real
  {
    (v: Vehicle) => dist(v.currentPosition, target)
  }

  function SortVehicles(vs: seq<Vehicle>, target: Position, dist: Metric): seq<Vehicle>
  {
    SortBy(vs, CompareVehicles(target, dist))
  }

  /**
   * The vehicle sort is a permutation into non-decreasing distance from
   * `target`, and vehicles at equal distance keep their input order.
   */
  lemma SortVehiclesSpec(vs: seq<Vehicle>, target: Position, dist: Metric)
    ensures multiset(SortVehicles(vs, target, dist)) == multiset(vs) && |SortVehicles(vs, target, dist)| == |vs|
    ensures forall i, j :: 0 <= i < j < |SortVehicles(vs, target, dist)| ==>
              dist(SortVehicles(vs, target, dist)[i].currentPosition, target)
              <= dist(SortVehicles(vs, target, dist)[j].currentPosition, target)
    ensures forall c: real :: KeyFilter(SortVehicles(vs, target, dist), DistanceKey(target, dist), c)
                           == KeyFilter(vs, DistanceKey(target, dist), c)
  {
    var cmp, key := CompareVehicles(target, dist), DistanceKey(target, dist);
    assert AgreesWith(cmp, key);
    SortPermutation(vs, cmp);
    SortOrdered(vs, cmp, key);
    var r := SortVehicles(vs, target, dist);
    forall i, j | 0 <= i < j < |r| ensures dist(r[i].currentPosition, target) <= dist(r[j].currentPosition, target) {
      assert key(r[i]) <= key(r[j]);
    }
    forall c: real ensures KeyFilter(r, key, c) == KeyFilter(vs, key, c) {
      SortStable(vs, cmp, key, c);
    }
  }

  /**
   * The exception of libs/vrp.ts:54-55: with no demand and at least two
   * vehicles, the vehicle comparator reads the location of a missing demand.
   */
  datatype Error = NoFirstDemand

  /** The plan, and the caller's two arrays as the engine leaves them. */
  datatype Outcome = Outcome(plan: DeliveryPlan, vehicles: seq<Vehicle>, customerDemands: seq<CustomerDemand>)

  /** The fleet after the vehicle sort; without demands the comparator is never called. */
  function ArrangedFleet(vehicles: seq<Vehicle>, sorted: seq<CustomerDemand>, dist: Metric): seq<Vehicle>
  {
    if sorted == [] then vehicles else SortVehicles(vehicles, sorted[0].location, dist)
  }

  /** The assignment loop of libs/vrp.ts:60-94, on the sorted demands and the fleet arranged for them. */
  function PlanRun(vehicles: seq<Vehicle>, sorted: seq<CustomerDemand>, dist: Metric): RunResult
  {
    Run(State(ArrangedFleet(vehicles, sorted, dist), map[]), sorted, dist, 0, [])
  }

  /** Everything after the demand sort (libs/vrp.ts:53-96), from the demands in sorted order. */
  function PlanFromSorted(vehicles: seq<Vehicle>, sorted: seq<CustomerDemand>, dist: Metric): Result<Outcome, Error>
  {
    if sorted == [] && |vehicles| >= 2 then Failure(NoFirstDemand)
    else
      var r := PlanRun(vehicles, sorted, dist);
      Success(Outcome(DeliveryPlan(r.state.routes, sorted[r.stop..]), r.state.fleet, sorted[..r.stop]))
  }

  /** The engine's result: the plan and the caller's arrays, or the exception. */
  function DeliveryPlanOf(vehicles: seq<Vehicle>, demands: seq<CustomerDemand>, dist: Metric): Result<Outcome, Error>
  {
    PlanFromSorted(vehicles, SortDemands(demands), dist)
  }

  // ---------------------------------------------------------------------------
  // Guarantees of the plan

  /** The engine throws exactly when there is no demand and there are two vehicles or more. */
  lemma FailsOnlyWithoutDemands(vehicles: seq<Vehicle>, demands: seq<CustomerDemand>, dist: Metric)
    ensures DeliveryPlanOf(vehicles, demands, dist).Failure? <==> demands == [] && |vehicles| >= 2
  {
    SortPermutation(demands, CompareDemands);
  }

  /** No demand and at most one vehicle: an empty plan, and nothing changes. */
  lemma EmptyDemandsPlan(vehicles: seq<Vehicle>, dist: Metric)
    requires |vehicles| < 2
    ensures DeliveryPlanOf(vehicles, [], dist) == Success(Outcome(DeliveryPlan(map[], []), vehicles, []))
  {
  }

  /** The loop's invariant holds from the start, so its conclusion holds at the end. */
  lemma PlanRunFinished(vehicles: seq<Vehicle>, demands: seq<CustomerDemand>, dist: Metric)
    ensures Finished(ArrangedFleet(vehicles, SortDemands(demands), dist), SortDemands(demands), PlanRun(vehicles, SortDemands(demands), dist))
  {
    var sorted := SortDemands(demands);
    var fleet := ArrangedFleet(vehicles, sorted, dist);
    forall k: nat | k < |fleet| ensures VehicleTracks(fleet, State(fleet, map[]), sorted[..0], [], k) {
    }
    RunTracks(fleet, State(fleet, map[]), sorted, dist, 0, []);
  }

  lemma ArrangedFleetSpec(vehicles: seq<Vehicle>, sorted: seq<CustomerDemand>, dist: Metric)
    ensures multiset(ArrangedFleet(vehicles, sorted, dist)) == multiset(vehicles)
    ensures |ArrangedFleet(vehicles, sorted, dist)| == |vehicles|
  {
    if sorted != [] {
      SortVehiclesSpec(vehicles, sorted[0].location, dist);
    }
  }

  /** What the loop's result conserves, before it is read off as the plan. */
  lemma PlanRunConserves(vehicles: seq<Vehicle>, demands: seq<CustomerDemand>, dist: Metric)
    ensures var r, sorted := PlanRun(vehicles, SortDemands(demands), dist), SortDemands(demands);
            && r.stop <= |sorted|
            && |r.state.fleet| == |vehicles|
            && (forall k :: k in r.state.routes ==> k < |vehicles|)
            && RoutedDemands(r.state.routes, |vehicles|) + multiset(sorted[r.stop..]) == multiset(demands)
  {
    var sorted := SortDemands(demands);
    var fleet := ArrangedFleet(vehicles, sorted, dist);
    PlanRunFinished(vehicles, demands, dist);
    ArrangedFleetSpec(vehicles, sorted, dist);
    SortPermutation(demands, CompareDemands);
    FinishedConserves(fleet, sorted, PlanRun(vehicles, sorted, dist));
  }

  /**
   * Demands are conserved: the demands left in the caller's array and the
   * pending ones split the sorted demands into a prefix and a suffix, and
   * together with the routes they hold every input demand exactly once.
   */
  lemma PlanConservesDemands(vehicles: seq<Vehicle>, demands: seq<CustomerDemand>, dist: Metric)
    requires DeliveryPlanOf(vehicles, demands, dist).Success?
    ensures var o := DeliveryPlanOf(vehicles, demands, dist).value;
            && o.customerDemands + o.plan.pendingOrders == SortDemands(demands)
            && |o.vehicles| == |vehicles|
            && (forall k :: k in o.plan.vehicleRoutes ==> k < |vehicles|)
            && RoutedDemands(o.plan.vehicleRoutes, |vehicles|) + multiset(o.plan.pendingOrders) == multiset(demands)
  {
    var sorted := SortDemands(demands);
    var r := PlanRun(vehicles, sorted, dist);
    PlanRunConserves(vehicles, demands, dist);
    assert sorted[..r.stop] + sorted[r.stop..] == sorted;
  }

  /**
   * Each route lists, in assignment order, the kept demands recorded against
   * that vehicle: one vehicle per assigned demand.
   */
  lemma PlanRoutesFollowAssignment(vehicles: seq<Vehicle>, demands: seq<CustomerDemand>, dist: Metric)
    requires DeliveryPlanOf(vehicles, demands, dist).Success?
    ensures var o, owners := DeliveryPlanOf(vehicles, demands, dist).value, PlanRun(vehicles, SortDemands(demands), dist).owners;
            && |owners| == |o.customerDemands|
            && (forall j :: 0 <= j < |owners| ==> owners[j] < |vehicles|)
            && forall k: nat :: k < |vehicles| ==>
                 Route(o.plan.vehicleRoutes, k) == Project(o.customerDemands, owners, k)
  {
    var sorted := SortDemands(demands);
    var fleet := ArrangedFleet(vehicles, sorted, dist);
    var r := PlanRun(vehicles, sorted, dist);
    PlanRunFinished(vehicles, demands, dist);
    ArrangedFleetSpec(vehicles, sorted, dist);
    forall k: nat | k < |vehicles| ensures Route(r.state.routes, k) == Project(sorted[..r.stop], r.owners, k) {
      assert VehicleTracks(fleet, r.state, sorted[..r.stop], r.owners, k);
    }
  }

  /**
   * Each vehicle of the sorted fleet ends with its capacity reduced by exactly
   * the demands on its route, each of which fitted when it was assigned; it
   * stands at its last demand, or is unchanged when it received none; and its
   * capacity, if it started non-negative, is still non-negative.
   */
  lemma PlanVehicleStates(vehicles: seq<Vehicle>, demands: seq<CustomerDemand>, dist: Metric)
    requires DeliveryPlanOf(vehicles, demands, dist).Success?
    ensures var o, fleet := DeliveryPlanOf(vehicles, demands, dist).value, ArrangedFleet(vehicles, SortDemands(demands), dist);
            && multiset(fleet) == multiset(vehicles)
            && |o.vehicles| == |fleet|
            && forall k :: 0 <= k < |fleet| ==>
                 && VehicleHistory(fleet[k], o.vehicles[k], Route(o.plan.vehicleRoutes, k))
                 && (fleet[k].capacity >= 0 ==> o.vehicles[k].capacity >= 0)
  {
    var sorted := SortDemands(demands);
    var fleet := ArrangedFleet(vehicles, sorted, dist);
    var r := PlanRun(vehicles, sorted, dist);
    PlanRunFinished(vehicles, demands, dist);
    ArrangedFleetSpec(vehicles, sorted, dist);
    forall k | 0 <= k < |fleet|
      ensures VehicleHistory(fleet[k], r.state.fleet[k], Route(r.state.routes, k))
      ensures fleet[k].capacity >= 0 ==> r.state.fleet[k].capacity >= 0
    {
      assert VehicleTracks(fleet, r.state, sorted[..r.stop], r.owners, k);
      HistoryKeepsCapacity(fleet[k], r.state.fleet[k], Route(r.state.routes, k));
    }
  }

  /** Over demands in capacity order, a loop that stopped early leaves behind no demand that fits. */
  lemma StopLeavesNothingThatFits(init: seq<Vehicle>, ds: seq<CustomerDemand>, r: RunResult)
    requires Finished(init, ds, r)
    requires forall i, j :: 0 <= i < j < |ds| ==> ds[i].capacity <= ds[j].capacity
    ensures forall j, k :: r.stop <= j < |ds| && 0 <= k < |r.state.fleet| ==> !Feasible(r.state.fleet[k], ds[j])
  {
    forall j, k | r.stop <= j < |ds| && 0 <= k < |r.state.fleet|
      ensures !Feasible(r.state.fleet[k], ds[j])
    {
      assert !Feasible(r.state.fleet[k], ds[r.stop]);
      assert ds[r.stop].capacity <= ds[j].capacity;
    }
  }

  /**
   * The loop stops at the first demand no vehicle can take, and since demands
   * are sorted by capacity, no vehicle can take any pending demand.
   */
  lemma NoPendingDemandFits(vehicles: seq<Vehicle>, demands: seq<CustomerDemand>, dist: Metric)
    requires DeliveryPlanOf(vehicles, demands, dist).Success?
    ensures var o := DeliveryPlanOf(vehicles, demands, dist).value;
            forall j, k :: 0 <= j < |o.plan.pendingOrders| && 0 <= k < |o.vehicles| ==>
              !Feasible(o.vehicles[k], o.plan.pendingOrders[j])
  {
    var sorted := SortDemands(demands);
    var r := PlanRun(vehicles, sorted, dist);
    PlanRunFinished(vehicles, demands, dist);
    SortDemandsOrdered(demands);
    StopLeavesNothingThatFits(ArrangedFleet(vehicles, sorted, dist), sorted, r);
    var pending := sorted[r.stop..];
    forall j, k | 0 <= j < |pending| && 0 <= k < |r.state.fleet|
      ensures !Feasible(r.state.fleet[k], pending[j])
    {
      assert pending[j] == sorted[r.stop + j];
    }
  }

  /**
   * The routes map has a key exactly for the vehicles that could take the first
   * (smallest) demand, with an empty route for those that were never chosen.
   */
  lemma PlanRouteKeys(vehicles: seq<Vehicle>, demands: seq<CustomerDemand>, dist: Metric)
    requires DeliveryPlanOf(vehicles, demands, dist).Success?
    ensures var o, sorted := DeliveryPlanOf(vehicles, demands, dist).value, SortDemands(demands);
            var fleet := ArrangedFleet(vehicles, sorted, dist);
            forall k: nat :: k in o.plan.vehicleRoutes <==> sorted != [] && k < |fleet| && Feasible(fleet[k], sorted[0])
  {
    var sorted := SortDemands(demands);
    var fleet := ArrangedFleet(vehicles, sorted, dist);
    if sorted != [] {
      SortDemandsOrdered(demands);
      assert GrowingFrom(sorted);
      forall k: nat | k < |fleet| ensures VehicleTracks(fleet, State(fleet, map[]), sorted[..0], [], k) {
      }
      RunKeys(fleet, State(fleet, map[]), sorted, dist, 0, []);
    }
  }

  // ---------------------------------------------------------------------------
  // The demand sort as the repository's files declare it

  /**
   * The comparator of libs/vrp.ts:50 over the `Position` of libs/model.ts:1-6,
   * which declares no `weight`: both products are NaN, and the sort reads a NaN
   * comparison as +0, that is, as "equal".
   */
  function CompareDemandsAsWritten(a: CustomerDemand, b: CustomerDemand): real
  {
    0.0
  }

  /** The plan with that comparator. */
  function DeliveryPlanAsWritten(vehicles: seq<Vehicle>, demands: seq<CustomerDemand>, dist: Metric): Result<Outcome, Error>
  {
    PlanFromSorted(vehicles, SortBy(demands, CompareDemandsAsWritten), dist)
  }

  /** With the weight missing, the demand sort does nothing. */
  lemma SortAsWrittenKeepsOrder(ds: seq<CustomerDemand>)
    ensures SortBy(ds, CompareDemandsAsWritten) == ds
  {
    SortAllEqual(ds, CompareDemandsAsWritten);
  }

  /**
   * The case of `OneVehicleTwoDemands` with the weight missing: the large
   * demand stays first, the loop stops at it, and the small demand, which the
   * vehicle could take, is left pending with it.
   */
  lemma AsWrittenLeavesFittingDemandPending(p: Position, q: Position, r: Position, dist: Metric)
    ensures var v := Vehicle("driver", 10, p);
            var small := DeliveryOrder("c1", "o1", 3, q, 1.0);
            var large := DeliveryOrder("c2", "o2", 20, r, 1.0);
            && Feasible(v, small)
            && DeliveryPlanAsWritten([v], [large, small], dist)
               == Success(Outcome(DeliveryPlan(map[], [large, small]), [v], []))
  {
    var v := Vehicle("driver", 10, p);
    var small := DeliveryOrder("c1", "o1", 3, q, 1.0);
    var large := DeliveryOrder("c2", "o2", 20, r, 1.0);
    var ds := [large, small];
    SortAsWrittenKeepsOrder(ds);
    assert [v][..0] == [];
    assert SortBy([v], CompareVehicles(r, dist)) == Insert(v, [], CompareVehicles(r, dist));
    assert ArrangedFleet([v], ds, dist) == [v];
    assert Scan([v], map[], large, dist, 1, None, Infinity) == None;
    assert Select([v], map[], large, dist) == None;
    assert Touch(map[], [v], large, 0) == map[];
    assert Touch(map[], [v], large, 1) == map[];
    assert Run(State([v], map[]), ds, dist, 0, []) == RunResult(State([v], map[]), 0, []);
    assert ds[0..] == ds && ds[..0] == [];
  }
}
