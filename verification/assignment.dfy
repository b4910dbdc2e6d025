/**
 * The greedy assignment loop of `DeliveryService.optimizeDeliveryPlan`
 * (libs/vrp.ts:60-94) as pure functions over the engine's state, and what it
 * guarantees. The imperative engine in module Vrp is proved equal to `Run`.
 */
module Assignment {
  import opened Options
  import opened Model

  /** What the loop updates: the (sorted) fleet and the routes built so far. */
  datatype State = State(fleet: seq<Vehicle>, routes: Routes)

  /** A vehicle can take a demand when its remaining capacity covers it. */
  predicate Feasible(v: Vehicle, d: DeliveryOrder)
  {
    v.capacity >= d.capacity
  }

  /**
   * The travel cost of vehicle `k` to `d`: from the location of the last demand
   * on its route, or from its current position when its route is empty.
   */
  function Cost(fleet: seq<Vehicle>, routes: Routes, k: nat, d: DeliveryOrder, dist: Metric): real
    requires k < |fleet|
  {
    var route := Route(routes, k);
    if route != [] then dist(route[|route| - 1].location, d.location)
    else dist(fleet[k].currentPosition, d.location)
  }

  /** The running minimum `minDistance`, which starts at `Infinity`. */
  datatype Bound = Finite(value: real) | Infinity

  /** The strict comparison `totalDistance < minDistance` (libs/vrp.ts:78). */
  predicate Below(x: real, b: Bound)
  {
    b.Infinity? || x < b.value
  }

  /**
   * The scan over the vehicles from index `i` on, with the best vehicle and
   * the running minimum found before `i`.
   */
  function Scan(fleet: seq<Vehicle>, routes: Routes, d: DeliveryOrder, dist: Metric,
                i: nat, best: Option<nat>, bound: Bound): (r: Option<nat>)
    requires i <= |fleet|
    requires best.Some? ==> best.value < i
    ensures r.Some? ==> r.value < |fleet|
    decreases |fleet| - i
  {
    if i == |fleet| then best
    else if Feasible(fleet[i], d) && Below(Cost(fleet, routes, i, d, dist), bound) then
      Scan(fleet, routes, d, dist, i + 1, Some(i), Finite(Cost(fleet, routes, i, d, dist)))
    else
      Scan(fleet, routes, d, dist, i + 1, best, bound)
  }

  /** The vehicle chosen for `d`, if any (libs/vrp.ts:67-83). */
  function Select(fleet: seq<Vehicle>, routes: Routes, d: DeliveryOrder, dist: Metric): (r: Option<nat>)
    ensures r.Some? ==> r.value < |fleet|
  {
    Scan(fleet, routes, d, dist, 0, None, Infinity)
  }

  ghost predicate NoneFeasible(fleet: seq<Vehicle>, d: DeliveryOrder, n: nat)
    requires n <= |fleet|
  {
    forall j :: 0 <= j < n ==> !Feasible(fleet[j], d)
  }

  /**
   * Among the first `n` vehicles, `k` is feasible, no feasible vehicle is
   * cheaper, and every feasible vehicle before it is strictly dearer.
   */
  ghost predicate FirstMinimum(fleet: seq<Vehicle>, routes: Routes, d: DeliveryOrder, dist: Metric, k: nat, n: nat)
    requires n <= |fleet|
  {
    && k < n
    && Feasible(fleet[k], d)
    && (forall j :: 0 <= j < n && Feasible(fleet[j], d) ==>
          Cost(fleet, routes, k, d, dist) <= Cost(fleet, routes, j, d, dist))
    && (forall j :: 0 <= j < k && Feasible(fleet[j], d) ==>
          Cost(fleet, routes, k, d, dist) < Cost(fleet, routes, j, d, dist))
  }

  ghost predicate ScanInvariant(fleet: seq<Vehicle>, routes: Routes, d: DeliveryOrder, dist: Metric,
                                n: nat, best: Option<nat>, bound: Bound)
    requires n <= |fleet|
  {
    match best
    case None => bound == Infinity && NoneFeasible(fleet, d, n)
    case Some(k) => FirstMinimum(fleet, routes, d, dist, k, n) && bound == Finite(Cost(fleet, routes, k, d, dist))
  }

  /** One step of the scan keeps `ScanInvariant`. */
  lemma ScanStep(fleet: seq<Vehicle>, routes: Routes, d: DeliveryOrder, dist: Metric,
                                    i: nat, best: Option<nat>, bound: Bound)
    requires i < |fleet|
    requires ScanInvariant(fleet, routes, d, dist, i, best, bound)
    ensures var c := Cost(fleet, routes, i, d, dist);
            if Feasible(fleet[i], d) && Below(c, bound) then ScanInvariant(fleet, routes, d, dist, i + 1, Some(i), Finite(c))
            else ScanInvariant(fleet, routes, d, dist, i + 1, best, bound)
  {
    var c := Cost(fleet, routes, i, d, dist);
    if Feasible(fleet[i], d) && Below(c, bound) {
      forall j | 0 <= j < i && Feasible(fleet[j], d)
        ensures c < Cost(fleet, routes, j, d, dist)
      {
        assert best.Some?;
      }
    }
  }

  lemma {:induction false} ScanFindsFirstMinimum(fleet: seq<Vehicle>, routes: Routes, d: DeliveryOrder, dist: Metric,
                                                 i: nat, best: Option<nat>, bound: Bound)
    requires i <= |fleet|
    requires best.Some? ==> best.value < i
    requires ScanInvariant(fleet, routes, d, dist, i, best, bound)
    ensures Scan(fleet, routes, d, dist, i, best, bound).None? ==> NoneFeasible(fleet, d, |fleet|)
    ensures Scan(fleet, routes, d, dist, i, best, bound).Some? ==>
              FirstMinimum(fleet, routes, d, dist, Scan(fleet, routes, d, dist, i, best, bound).value, |fleet|)
    decreases |fleet| - i
  {
    if i < |fleet| {
      var c := Cost(fleet, routes, i, d, dist);
      ScanStep(fleet, routes, d, dist, i, best, bound);
      if Feasible(fleet[i], d) && Below(c, bound) {
        ScanFindsFirstMinimum(fleet, routes, d, dist, i + 1, Some(i), Finite(c));
      } else {
        ScanFindsFirstMinimum(fleet, routes, d, dist, i + 1, best, bound);
      }
    }
  }

  /**
   * The choice is exactly the first cheapest feasible vehicle, and there is
   * none exactly when no vehicle is feasible.
   */
  lemma SelectIsFirstMinimum(fleet: seq<Vehicle>, routes: Routes, d: DeliveryOrder, dist: Metric)
    ensures Select(fleet, routes, d, dist).None? <==> NoneFeasible(fleet, d, |fleet|)
    ensures forall k: nat :: Select(fleet, routes, d, dist) == Some(k) <==> FirstMinimum(fleet, routes, d, dist, k, |fleet|)
  {
    ScanFindsFirstMinimum(fleet, routes, d, dist, 0, None, Infinity);
    var r := Select(fleet, routes, d, dist);
    forall k: nat | FirstMinimum(fleet, routes, d, dist, k, |fleet|) ensures r == Some(k) {
      assert !NoneFeasible(fleet, d, |fleet|);
      FirstMinimumUnique(fleet, routes, d, dist, r.value, k);
    }
  }

  /** Ties go to the earliest vehicle: at most one vehicle is the first minimum. */
  lemma FirstMinimumUnique(fleet: seq<Vehicle>, routes: Routes, d: DeliveryOrder, dist: Metric, k1: nat, k2: nat)
    requires FirstMinimum(fleet, routes, d, dist, k1, |fleet|)
    requires FirstMinimum(fleet, routes, d, dist, k2, |fleet|)
    ensures k1 == k2
  {
  }

  /**
   * The routes after the scan has looked up the last demand of every feasible
   * vehicle below `n`: each lookup adds an empty route for a missing key.
   */
  function Touch(routes: Routes, fleet: seq<Vehicle>, d: DeliveryOrder, n: nat): (r: Routes)
    requires n <= |fleet|
    ensures forall k: nat :: k in r <==> k in routes || (k < n && Feasible(fleet[k], d))
    ensures forall k :: Route(r, k) == Route(routes, k)
  {
    if n == 0 then routes
    else
      var t := Touch(routes, fleet, d, n - 1);
      if Feasible(fleet[n - 1], d) then t[n - 1 := Route(t, n - 1)] else t
  }

  /** Vehicle `v` after taking `d` (libs/vrp.ts:89-90). */
  function Moved(v: Vehicle, d: DeliveryOrder): Vehicle
  {
    v.(capacity := v.capacity - d.capacity, currentPosition := d.location)
  }

  /** The state after `d` is given to vehicle `k` (libs/vrp.ts:89-93). */
  function Assign(st: State, d: DeliveryOrder, k: nat): State
    requires k < |st.fleet|
  {
    var touched := Touch(st.routes, st.fleet, d, |st.fleet|);
    State(st.fleet[k := Moved(st.fleet[k], d)], touched[k := Route(touched, k) + [d]])
  }

  /** Where the loop stops, the state it leaves, and which vehicle took each demand before. */
  datatype RunResult = RunResult(state: State, stop: nat, owners: seq<nat>)

  /** The loop over the demands from index `i` on (libs/vrp.ts:63-94). */
  function Run(st: State, ds: seq<DeliveryOrder>, dist: Metric, i: nat, owners: seq<nat>): (r: RunResult)
    requires i <= |ds|
    ensures i <= r.stop <= |ds|
    decreases |ds| - i
  {
    if i == |ds| then RunResult(st, i, owners)
    else
      match Select(st.fleet, st.routes, ds[i], dist)
      case None => RunResult(State(st.fleet, Touch(st.routes, st.fleet, ds[i], |st.fleet|)), i, owners)
      case Some(k) => Run(Assign(st, ds[i], k), ds, dist, i + 1, owners + [k])
  }

  /** One turn of the loop that hands demand `i` to vehicle `k`. */
  lemma RunServes(st: State, ds: seq<DeliveryOrder>, dist: Metric, i: nat, owners: seq<nat>, k: nat)
    requires i < |ds| && Select(st.fleet, st.routes, ds[i], dist) == Some(k)
    ensures k < |st.fleet|
    ensures Run(st, ds, dist, i, owners) == Run(Assign(st, ds[i], k), ds, dist, i + 1, owners + [k])
  {
  }

  /** The turn of the loop that finds no vehicle for demand `i`. */
  lemma RunBreaks(st: State, ds: seq<DeliveryOrder>, dist: Metric, i: nat, owners: seq<nat>)
    requires i < |ds| && Select(st.fleet, st.routes, ds[i], dist).None?
    ensures Run(st, ds, dist, i, owners) == RunResult(State(st.fleet, Touch(st.routes, st.fleet, ds[i], |st.fleet|)), i, owners)
  {
  }

  // ---------------------------------------------------------------------------
  // What the loop keeps true

  /** The demands given to vehicle `k`, in the order they were served. */
  function Project(served: seq<DeliveryOrder>, owners: seq<nat>, k: nat): seq<DeliveryOrder>
    requires |owners| == |served|
  {
    if served == [] then []
    else Project(served[..|served| - 1], owners[..|owners| - 1], k)
         + (if owners[|owners| - 1] == k then [served[|served| - 1]] else [])
  }

  /** Each demand of `route`, replayed in order, fitted the capacity left at that point. */
  ghost predicate Replays(capacity: int, route: seq<DeliveryOrder>)
  {
    forall m :: 0 <= m < |route| ==> capacity - TotalCapacity(route[..m]) >= route[m].capacity
  }

  /** How a vehicle `v0` became `v` by taking the demands of `route`. */
  ghost predicate VehicleHistory(v0: Vehicle, v: Vehicle, route: seq<DeliveryOrder>)
  {
    && v.driverId == v0.driverId
    && v.capacity == v0.capacity - TotalCapacity(route)
    && (route == [] ==> v == v0)
    && (route != [] ==> v.currentPosition == route[|route| - 1].location)
    && Replays(v0.capacity, route)
  }

  /** Vehicle `k` of `st` is vehicle `k` of `init` after taking its share of `served`. */
  ghost predicate VehicleTracks(init: seq<Vehicle>, st: State, served: seq<DeliveryOrder>, owners: seq<nat>, k: nat)
    requires |owners| == |served| && k < |init| && |st.fleet| == |init|
  {
    && Route(st.routes, k) == Project(served, owners, k)
    && VehicleHistory(init[k], st.fleet[k], Route(st.routes, k))
  }

  /**
   * State `st` is fleet `init` after the demands `served` went, in order, to
   * the vehicles `owners`.
   */
  ghost predicate Tracks(init: seq<Vehicle>, st: State, served: seq<DeliveryOrder>, owners: seq<nat>)
  {
    && |st.fleet| == |init|
    && |owners| == |served|
    && (forall j :: 0 <= j < |owners| ==> owners[j] < |init|)
    && (forall k :: k in st.routes ==> k < |init|)
    && (forall k: nat :: k < |init| ==> VehicleTracks(init, st, served, owners, k))
  }

  lemma ProjectAppend(served: seq<DeliveryOrder>, owners: seq<nat>, d: DeliveryOrder, o: nat, k: nat)
    requires |owners| == |served|
    ensures Project(served + [d], owners + [o], k)
         == Project(served, owners, k) + (if o == k then [d] else [])
  {
    assert (served + [d])[..|served|] == served;
    assert (owners + [o])[..|owners|] == owners;
  }

  lemma TotalCapacityAppend(route: seq<DeliveryOrder>, d: DeliveryOrder)
    ensures TotalCapacity(route + [d]) == TotalCapacity(route) + d.capacity
  {
    assert (route + [d])[..|route|] == route;
  }

  /** Taking a demand that fits extends a vehicle's history by that demand. */
  lemma MovedHistory(v0: Vehicle, v: Vehicle, route: seq<DeliveryOrder>, d: DeliveryOrder)
    requires VehicleHistory(v0, v, route)
    requires Feasible(v, d)
    ensures VehicleHistory(v0, Moved(v, d), route + [d])
  {
    var r := route + [d];
    TotalCapacityAppend(route, d);
    forall m | 0 <= m < |r| ensures v0.capacity - TotalCapacity(r[..m]) >= r[m].capacity {
      if m < |route| {
        assert r[..m] == route[..m];
      } else {
        assert r[..m] == route;
      }
    }
  }

  /** A vehicle whose capacity started non-negative never goes below zero. */
  lemma HistoryKeepsCapacity(v0: Vehicle, v: Vehicle, route: seq<DeliveryOrder>)
    requires VehicleHistory(v0, v, route)
    ensures route != [] ==> v.capacity >= 0
    ensures v0.capacity >= 0 ==> v.capacity >= 0
  {
    if route != [] {
      var m := |route| - 1;
      assert route == route[..m] + [route[m]];
      TotalCapacityAppend(route[..m], route[m]);
    }
  }

  /** What `Assign` does to the route and the record of each vehicle. */
  lemma AssignEffect(st: State, d: DeliveryOrder, k: nat, j: nat)
    requires k < |st.fleet| && j < |st.fleet|
    ensures |Assign(st, d, k).fleet| == |st.fleet|
    ensures Route(Assign(st, d, k).routes, j)
         == if j == k then Route(st.routes, k) + [d] else Route(st.routes, j)
    ensures Assign(st, d, k).fleet[j] == if j == k then Moved(st.fleet[k], d) else st.fleet[j]
  {
  }

  /** One assignment, seen from vehicle `j`. */
  lemma AssignVehicle(init: seq<Vehicle>, st: State, served: seq<DeliveryOrder>, owners: seq<nat>,
                                         d: DeliveryOrder, k: nat, j: nat)
    requires Tracks(init, st, served, owners)
    requires k < |st.fleet| && Feasible(st.fleet[k], d)
    requires j < |init|
    ensures |Assign(st, d, k).fleet| == |init|
    ensures VehicleTracks(init, Assign(st, d, k), served + [d], owners + [k], j)
  {
    AssignEffect(st, d, k, j);
    ProjectAppend(served, owners, d, k, j);
    assert VehicleTracks(init, st, served, owners, j);
    if j == k {
      MovedHistory(init[k], st.fleet[k], Route(st.routes, k), d);
    }
  }

  /** One assignment keeps `Tracks`, with the demand recorded against the chosen vehicle. */
  lemma AssignTracks(init: seq<Vehicle>, st: State, served: seq<DeliveryOrder>, owners: seq<nat>,
                                        d: DeliveryOrder, k: nat)
    requires Tracks(init, st, served, owners)
    requires k < |st.fleet| && Feasible(st.fleet[k], d)
    ensures Tracks(init, Assign(st, d, k), served + [d], owners + [k])
  {
    var st' := Assign(st, d, k);
    AssignEffect(st, d, k, k);
    forall j: nat | j < |init| ensures VehicleTracks(init, st', served + [d], owners + [k], j) {
      AssignVehicle(init, st, served, owners, d, k, j);
    }
    assert forall j :: 0 <= j < |owners + [k]| ==> (owners + [k])[j] < |init|;
  }

  /** The demand is given to the vehicle `Select` names, which can take it. */
  lemma StepTracks(init: seq<Vehicle>, st: State, served: seq<DeliveryOrder>, owners: seq<nat>,
                                      d: DeliveryOrder, dist: Metric)
    requires Tracks(init, st, served, owners)
    requires Select(st.fleet, st.routes, d, dist).Some?
    ensures Feasible(st.fleet[Select(st.fleet, st.routes, d, dist).value], d)
    ensures Tracks(init, Assign(st, d, Select(st.fleet, st.routes, d, dist).value),
                   served + [d], owners + [Select(st.fleet, st.routes, d, dist).value])
  {
    var k := Select(st.fleet, st.routes, d, dist).value;
    SelectIsFirstMinimum(st.fleet, st.routes, d, dist);
    assert FirstMinimum(st.fleet, st.routes, d, dist, k, |st.fleet|);
    AssignTracks(init, st, served, owners, d, k);
  }

  /** When the scan finds no vehicle, the lookups it made change no route. */
  lemma TouchTracks(init: seq<Vehicle>, st: State, served: seq<DeliveryOrder>, owners: seq<nat>, d: DeliveryOrder)
    requires Tracks(init, st, served, owners)
    ensures Tracks(init, State(st.fleet, Touch(st.routes, st.fleet, d, |st.fleet|)), served, owners)
  {
    var st' := State(st.fleet, Touch(st.routes, st.fleet, d, |st.fleet|));
    forall k: nat | k < |init| ensures VehicleTracks(init, st', served, owners, k) {
      assert VehicleTracks(init, st, served, owners, k);
    }
  }

  /**
   * What holds when the loop ends: `Tracks` for the demands before the stop,
   * and, when it stopped early, no vehicle can take the demand it stopped at.
   */
  ghost predicate Finished(init: seq<Vehicle>, ds: seq<DeliveryOrder>, r: RunResult)
  {
    && r.stop <= |ds|
    && Tracks(init, r.state, ds[..r.stop], r.owners)
    && (r.stop < |ds| ==> NoneFeasible(r.state.fleet, ds[r.stop], |r.state.fleet|))
  }

  /** The loop stops at a demand no vehicle can take, with the state it had. */
  lemma StopFinished(init: seq<Vehicle>, st: State, ds: seq<DeliveryOrder>, dist: Metric,
                                        i: nat, owners: seq<nat>)
    requires i < |ds|
    requires Tracks(init, st, ds[..i], owners)
    requires Select(st.fleet, st.routes, ds[i], dist).None?
    ensures Finished(init, ds, Run(st, ds, dist, i, owners))
  {
    SelectIsFirstMinimum(st.fleet, st.routes, ds[i], dist);
    TouchTracks(init, st, ds[..i], owners, ds[i]);
    RunBreaks(st, ds, dist, i, owners);
  }

  lemma {:induction false} RunTracks(init: seq<Vehicle>, st: State, ds: seq<DeliveryOrder>, dist: Metric,
                                     i: nat, owners: seq<nat>)
    requires i <= |ds|
    requires Tracks(init, st, ds[..i], owners)
    ensures Finished(init, ds, Run(st, ds, dist, i, owners))
    decreases |ds| - i
  {
    if i < |ds| {
      var choice := Select(st.fleet, st.routes, ds[i], dist);
      if choice.None? {
        StopFinished(init, st, ds, dist, i, owners);
      } else {
        StepTracks(init, st, ds[..i], owners, ds[i], dist);
        assert ds[..i] + [ds[i]] == ds[..i + 1];
        RunServes(st, ds, dist, i, owners, choice.value);
        RunTracks(init, Assign(st, ds[i], choice.value), ds, dist, i + 1, owners + [choice.value]);
      }
    }
  }

  /**
   * The two cost branches agree: a vehicle with a non-empty route stands at the
   * location of its last demand (libs/vrp.ts:72-76, 90).
   */
  lemma CostIsFromCurrentPosition(init: seq<Vehicle>, st: State, served: seq<DeliveryOrder>, owners: seq<nat>,
                                                     k: nat, d: DeliveryOrder, dist: Metric)
    requires Tracks(init, st, served, owners)
    requires k < |init|
    ensures Cost(st.fleet, st.routes, k, d, dist) == dist(st.fleet[k].currentPosition, d.location)
  {
    assert VehicleTracks(init, st, served, owners, k);
  }

  // ---------------------------------------------------------------------------
  // Which vehicles get a key in the routes map

  ghost predicate KeysAfter(init: seq<Vehicle>, routes: Routes, ds: seq<DeliveryOrder>, i: nat)
    requires |ds| > 0
  {
    forall k: nat :: k in routes <==> (i > 0 && k < |init| && Feasible(init[k], ds[0]))
  }

  ghost predicate GrowingFrom(ds: seq<DeliveryOrder>)
    requires |ds| > 0
  {
    forall j :: 0 <= j < |ds| ==> ds[0].capacity <= ds[j].capacity
  }

  /** The lookups for demand `i` add keys only for vehicles that could take the first demand. */
  lemma TouchKeys(init: seq<Vehicle>, st: State, ds: seq<DeliveryOrder>, i: nat, owners: seq<nat>)
    requires 0 < |ds| && i < |ds| && GrowingFrom(ds)
    requires Tracks(init, st, ds[..i], owners)
    requires KeysAfter(init, st.routes, ds, i)
    ensures KeysAfter(init, Touch(st.routes, st.fleet, ds[i], |st.fleet|), ds, 1)
  {
    var touched := Touch(st.routes, st.fleet, ds[i], |st.fleet|);
    forall k: nat ensures k in touched <==> k < |init| && Feasible(init[k], ds[0]) {
      if k < |init| && k !in st.routes {
        assert VehicleTracks(init, st, ds[..i], owners, k);
        assert st.fleet[k] == init[k];
      }
    }
  }

  /**
   * With demands that never go below the first one's capacity, a vehicle gets
   * a key exactly when it could take the first demand: a vehicle that cannot
   * is never changed, so it can take no later demand either.
   */
  lemma {:induction false} RunKeys(init: seq<Vehicle>, st: State, ds: seq<DeliveryOrder>, dist: Metric,
                                   i: nat, owners: seq<nat>)
    requires 0 < |ds| && i <= |ds| && GrowingFrom(ds)
    requires Tracks(init, st, ds[..i], owners)
    requires KeysAfter(init, st.routes, ds, i)
    ensures KeysAfter(init, Run(st, ds, dist, i, owners).state.routes, ds, 1)
    decreases |ds| - i
  {
    if i < |ds| {
      TouchKeys(init, st, ds, i, owners);
      var choice := Select(st.fleet, st.routes, ds[i], dist);
      if choice.Some? {
        StepTracks(init, st, ds[..i], owners, ds[i], dist);
        assert ds[..i] + [ds[i]] == ds[..i + 1];
        var st' := Assign(st, ds[i], choice.value);
        assert KeysAfter(init, st'.routes, ds, i + 1);
        RunKeys(init, st', ds, dist, i + 1, owners + [choice.value]);
      }
    }
  }

  // ---------------------------------------------------------------------------
  // Conservation

  /** All demands on the routes of vehicles `0 .. n-1`. */
  function RoutedDemands(routes: Routes, n: nat): multiset<DeliveryOrder>
  {
    if n == 0 then multiset{} else RoutedDemands(routes, n - 1) + multiset(Route(routes, n - 1))
  }

  function ProjectedDemands(served: seq<DeliveryOrder>, owners: seq<nat>, n: nat): multiset<DeliveryOrder>
    requires |owners| == |served|
  {
    if n == 0 then multiset{} else ProjectedDemands(served, owners, n - 1) + multiset(Project(served, owners, n - 1))
  }

  lemma {:induction false} ProjectedDemandsAppend(served: seq<DeliveryOrder>, owners: seq<nat>, d: DeliveryOrder, o: nat, n: nat)
    requires |owners| == |served|
    ensures ProjectedDemands(served + [d], owners + [o], n)
         == ProjectedDemands(served, owners, n) + (if o < n then multiset{d} else multiset{})
  {
    if n > 0 {
      ProjectedDemandsAppend(served, owners, d, o, n - 1);
      ProjectAppend(served, owners, d, o, n - 1);
    }
  }

  lemma {:induction false} ProjectedDemandsEmpty(n: nat)
    ensures ProjectedDemands([], [], n) == multiset{}
  {
    if n > 0 {
      ProjectedDemandsEmpty(n - 1);
    }
  }

  /** Every served demand is on exactly one vehicle's route. */
  lemma {:induction false} ProjectConserves(served: seq<DeliveryOrder>, owners: seq<nat>, n: nat)
    requires |owners| == |served|
    requires forall j :: 0 <= j < |owners| ==> owners[j] < n
    ensures ProjectedDemands(served, owners, n) == multiset(served)
  {
    if served == [] {
      ProjectedDemandsEmpty(n);
    } else {
      var m := |served| - 1;
      ProjectConserves(served[..m], owners[..m], n);
      ProjectedDemandsAppend(served[..m], owners[..m], served[m], owners[m], n);
      assert served[..m] + [served[m]] == served;
      assert owners[..m] + [owners[m]] == owners;
    }
  }

  lemma {:induction false} RoutedIsProjected(routes: Routes, served: seq<DeliveryOrder>, owners: seq<nat>, n: nat)
    requires |owners| == |served|
    requires forall k: nat :: k < n ==> Route(routes, k) == Project(served, owners, k)
    ensures RoutedDemands(routes, n) == ProjectedDemands(served, owners, n)
  {
    if n > 0 {
      RoutedIsProjected(routes, served, owners, n - 1);
      assert Route(routes, n - 1) == Project(served, owners, n - 1);
    }
  }

  /** The routes of a tracked state hold exactly the served demands. */
  lemma TracksConserves(init: seq<Vehicle>, st: State, served: seq<DeliveryOrder>, owners: seq<nat>)
    requires Tracks(init, st, served, owners)
    ensures RoutedDemands(st.routes, |init|) == multiset(served)
  {
    forall k: nat | k < |init| ensures Route(st.routes, k) == Project(served, owners, k) {
      assert VehicleTracks(init, st, served, owners, k);
    }
    RoutedIsProjected(st.routes, served, owners, |init|);
    ProjectConserves(served, owners, |init|);
  }

  /** When the loop ends, the routes and the unprocessed suffix together hold all the demands. */
  lemma FinishedConserves(init: seq<Vehicle>, ds: seq<DeliveryOrder>, r: RunResult)
    requires Finished(init, ds, r)
    ensures |r.state.fleet| == |init|
    ensures forall k :: k in r.state.routes ==> k < |init|
    ensures RoutedDemands(r.state.routes, |init|) + multiset(ds[r.stop..]) == multiset(ds)
  {
    TracksConserves(init, r.state, ds[..r.stop], r.owners);
    assert ds[..r.stop] + ds[r.stop..] == ds;
  }
}
