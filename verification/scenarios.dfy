/**
 * The engine's result on small fleets, worked through the model end to end,
 * with the distance left abstract except for the comparisons each case needs.
 */
module Scenarios {
  import opened Options
  import opened Model
  import opened StableSort
  import opened Assignment
  import opened Planning

  /** Without vehicles nothing is assigned and every demand is pending, in sorted order. */
  lemma NoVehiclesAllPending(demands: seq<CustomerDemand>, dist: Metric)
    ensures DeliveryPlanOf([], demands, dist) == Success(Outcome(DeliveryPlan(map[], SortDemands(demands)), [], []))
  {
    var sorted := SortDemands(demands);
    SortPermutation(demands, CompareDemands);
    if sorted != [] {
      SortPermutation([], CompareVehicles(sorted[0].location, dist));
      assert ArrangedFleet([], sorted, dist) == [];
      assert Select([], map[], sorted[0], dist) == None;
      assert Touch(map[], [], sorted[0], 0) == map[];
    }
    assert sorted[0..] == sorted && sorted[..0] == [];
  }

  /** A demand larger than the only vehicle stays pending and the vehicle is untouched. */
  lemma OversizedDemandPending(p: Position, q: Position, dist: Metric)
    ensures var v := Vehicle("driver", 5, p);
            var d := DeliveryOrder("c1", "o1", 10, q, 1.0);
            DeliveryPlanOf([v], [d], dist) == Success(Outcome(DeliveryPlan(map[], [d]), [v], []))
  {
    var v := Vehicle("driver", 5, p);
    var d := DeliveryOrder("c1", "o1", 10, q, 1.0);
    assert [d][..0] == [] && [v][..0] == [];
    assert SortBy([d], CompareDemands) == Insert(d, [], CompareDemands);
    assert SortDemands([d]) == [d];
    assert SortBy([v], CompareVehicles(q, dist)) == Insert(v, [], CompareVehicles(q, dist));
    assert ArrangedFleet([v], [d], dist) == [v];
    assert Scan([v], map[], d, dist, 1, None, Infinity) == None;
    assert Touch(map[], [v], d, 0) == map[];
    assert Touch(map[], [v], d, 1) == map[];
    assert [d][0..] == [d];
  }

  /**
   * One vehicle of capacity 10 and demands of capacity 20 and 3.
   * The smaller demand is served first and the vehicle moves to it; the larger
   * one fits no more and is left pending.
   */
  lemma OneVehicleTwoDemands(p: Position, q: Position, r: Position, dist: Metric)
    ensures var v := Vehicle("driver", 10, p);
            var small := DeliveryOrder("c1", "o1", 3, q, 1.0);
            var large := DeliveryOrder("c2", "o2", 20, r, 1.0);
            DeliveryPlanOf([v], [large, small], dist)
              == Success(Outcome(DeliveryPlan(map[0 := [small]], [large]), [Vehicle("driver", 7, q)], [small]))
  {
    var v := Vehicle("driver", 10, p);
    var small := DeliveryOrder("c1", "o1", 3, q, 1.0);
    var large := DeliveryOrder("c2", "o2", 20, r, 1.0);
    assert [large, small][..1] == [large];
    assert SortBy([large], CompareDemands) == [large];
    assert CompareDemands(large, small) > 0.0;
    assert SortDemands([large, small]) == [small, large];
    var sorted := [small, large];
    assert [v][..0] == [];
    assert SortBy([v], CompareVehicles(q, dist)) == Insert(v, [], CompareVehicles(q, dist));
    assert ArrangedFleet([v], sorted, dist) == [v];
    var c := Cost([v], map[], 0, small, dist);
    assert Scan([v], map[], small, dist, 1, Some(0), Finite(c)) == Some(0);
    assert Select([v], map[], small, dist) == Some(0);
    assert Touch(map[], [v], small, 0) == map[];
    assert Touch(map[], [v], small, 1) == map[0 := []];
    var after := Assign(State([v], map[]), small, 0);
    assert Moved(v, small) == Vehicle("driver", 7, q);
    assert Route(map[0 := []], 0) + [small] == [small];
    assert after == State([Vehicle("driver", 7, q)], map[0 := [small]]);
    assert Scan(after.fleet, after.routes, large, dist, 1, None, Infinity) == None;
    assert Select(after.fleet, after.routes, large, dist) == None;
    assert Touch(after.routes, after.fleet, large, 0) == after.routes;
    assert Touch(after.routes, after.fleet, large, 1) == after.routes;
    assert Run(State([v], map[]), sorted, dist, 0, []) == Run(after, sorted, dist, 1, [0]);
    assert Run(after, sorted, dist, 1, [0]) == RunResult(after, 1, [0]);
  }


  /** Two demands of equal capacity keep their order. */
  lemma EqualDemandsKeepOrder(r1: CustomerDemand, r2: CustomerDemand)
    requires r1.capacity == r2.capacity
    ensures SortDemands([r1, r2]) == [r1, r2]
  {
    assert [r1, r2][..1] == [r1] && [r1][..0] == [];
    assert SortBy([r1], CompareDemands) == [r1];
    assert CompareDemands(r1, r2) == 0.0;
    assert [r1][1..] == [];
    assert Insert(r2, [r1], CompareDemands) == [r1] + Insert(r2, [], CompareDemands);
  }

  /** Of two vehicles, the one nearer the target comes first. */
  lemma NearerVehicleFirst(v1: Vehicle, v2: Vehicle, target: Position, dist: Metric)
    requires dist(v1.currentPosition, target) < dist(v2.currentPosition, target)
    ensures SortVehicles([v2, v1], target, dist) == [v1, v2]
  {
    var cmp := CompareVehicles(target, dist);
    assert [v2, v1][..1] == [v2] && [v2][..0] == [];
    assert SortBy([v2], cmp) == [v2];
    assert cmp(v2, v1) > 0.0;
  }

  /** The first demand of the two-vehicle case goes to the first vehicle. */
  lemma FirstDemandToFirstVehicle(v1: Vehicle, v2: Vehicle, r1: CustomerDemand, dist: Metric)
    requires v1.capacity >= r1.capacity && v2.capacity >= r1.capacity
    requires dist(v1.currentPosition, r1.location) < dist(v2.currentPosition, r1.location)
    ensures Select([v1, v2], map[], r1, dist) == Some(0)
    ensures Assign(State([v1, v2], map[]), r1, 0) == State([Moved(v1, r1), v2], map[0 := [r1], 1 := []])
  {
    var fleet := [v1, v2];
    var c1 := dist(v1.currentPosition, r1.location);
    assert Scan(fleet, map[], r1, dist, 2, Some(0), Finite(c1)) == Some(0);
    assert Scan(fleet, map[], r1, dist, 1, Some(0), Finite(c1)) == Some(0);
    assert Touch(map[], fleet, r1, 0) == map[];
    assert Touch(map[], fleet, r1, 1) == map[0 := []];
    assert Touch(map[], fleet, r1, 2) == map[0 := [], 1 := []];
    var st := Assign(State(fleet, map[]), r1, 0);
    assert Route(map[0 := [], 1 := []], 0) + [r1] == [r1];
    assert st.routes == map[0 := [r1], 1 := []];
  }

  /** The second demand goes to the second vehicle, which is nearer than the end of the first route. */
  lemma SecondDemandToSecondVehicle(u1: Vehicle, v2: Vehicle, r1: CustomerDemand, r2: CustomerDemand, dist: Metric)
    requires u1.capacity >= r2.capacity && v2.capacity >= r2.capacity
    requires dist(v2.currentPosition, r2.location) < dist(r1.location, r2.location)
    ensures var st := State([u1, v2], map[0 := [r1], 1 := []]);
            && Select(st.fleet, st.routes, r2, dist) == Some(1)
            && Assign(st, r2, 1) == State([u1, Moved(v2, r2)], map[0 := [r1], 1 := [r2]])
  {
    var st := State([u1, v2], map[0 := [r1], 1 := []]);
    var c2 := dist(r1.location, r2.location);
    var c3 := dist(v2.currentPosition, r2.location);
    assert Cost(st.fleet, st.routes, 0, r2, dist) == c2;
    assert Cost(st.fleet, st.routes, 1, r2, dist) == c3;
    assert Scan(st.fleet, st.routes, r2, dist, 2, Some(1), Finite(c3)) == Some(1);
    assert Scan(st.fleet, st.routes, r2, dist, 1, Some(0), Finite(c2)) == Some(1);
    assert Touch(st.routes, st.fleet, r2, 0) == st.routes;
    assert Touch(st.routes, st.fleet, r2, 1) == st.routes;
    assert Touch(st.routes, st.fleet, r2, 2) == st.routes;
    assert Route(st.routes, 1) + [r2] == [r2];
  }

  /**
   * Two vehicles of capacity 10 and two demands of capacity 4. The first vehicle
   * is nearer the first demand; the second is nearer the second demand than the
   * first demand's location is. The vehicles are given in the other order.
   * Each vehicle takes one demand, and nothing is pending.
   */
  lemma TwoVehiclesTwoDemands(p1: Position, p2: Position, l1: Position, l2: Position, dist: Metric)
    requires dist(p1, l1) < dist(p2, l1)
    requires dist(p2, l2) < dist(l1, l2)
    ensures var v1, v2 := Vehicle("d1", 10, p1), Vehicle("d2", 10, p2);
            var r1, r2 := DeliveryOrder("c1", "o1", 4, l1, 1.0), DeliveryOrder("c2", "o2", 4, l2, 1.0);
            DeliveryPlanOf([v2, v1], [r1, r2], dist)
              == Success(Outcome(DeliveryPlan(map[0 := [r1], 1 := [r2]], []),
                                 [Vehicle("d1", 6, l1), Vehicle("d2", 6, l2)], [r1, r2]))
  {
    var v1, v2 := Vehicle("d1", 10, p1), Vehicle("d2", 10, p2);
    var r1, r2 := DeliveryOrder("c1", "o1", 4, l1, 1.0), DeliveryOrder("c2", "o2", 4, l2, 1.0);
    var ds := [r1, r2];
    EqualDemandsKeepOrder(r1, r2);
    NearerVehicleFirst(v1, v2, l1, dist);
    assert ArrangedFleet([v2, v1], ds, dist) == [v1, v2];
    FirstDemandToFirstVehicle(v1, v2, r1, dist);
    var u1 := Moved(v1, r1);
    assert u1 == Vehicle("d1", 6, l1);
    var st := State([u1, v2], map[0 := [r1], 1 := []]);
    SecondDemandToSecondVehicle(u1, v2, r1, r2, dist);
    assert Moved(v2, r2) == Vehicle("d2", 6, l2);
    var st' := Assign(st, r2, 1);
    RunServes(State([v1, v2], map[]), ds, dist, 0, [], 0);
    RunServes(st, ds, dist, 1, [0], 1);
    assert ds[2..] == [] && ds[..2] == ds;
  }
}
