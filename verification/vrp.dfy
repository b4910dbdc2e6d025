/**
 * The delivery engine of libs/vrp.ts as imperative code: the lazily filled
 * routes map and the service whose one operation sorts, assigns and splits
 * the caller's arrays in place. Vehicles are identified by their index in the
 * sorted fleet.
 */
module Vrp {
  import opened Options
  import opened Model
  import opened Assignment
  import opened Planning

  /** Routes per vehicle, created on first lookup (libs/vrp.ts:5-21). */
  class VehicleRoutes {
    var routes: Routes

    constructor()
      ensures routes == map[]
    {
      routes := map[];
    }

    /** The route of `vehicle`, after inserting an empty one if it had none. */
    method GetVehicleRoute(vehicle: nat) returns (route: seq<DeliveryOrder>)
      modifies this
      ensures vehicle in routes && route == routes[vehicle]
      ensures routes == old(routes)[vehicle := Route(old(routes), vehicle)]
      ensures route == Route(old(routes), vehicle)
    {
      if vehicle !in routes {
        routes := routes[vehicle := []];
      }
      route := routes[vehicle];
    }

    /** The last demand on the route of `vehicle`, or none when the route is empty. */
    method GetVehicleLastDemand(vehicle: nat) returns (last: Option<DeliveryOrder>)
      modifies this
      ensures routes == old(routes)[vehicle := Route(old(routes), vehicle)]
      ensures last.None? <==> Route(old(routes), vehicle) == []
      ensures last.Some? ==> last.value == Route(old(routes), vehicle)[|Route(old(routes), vehicle)| - 1]
    {
      var route := GetVehicleRoute(vehicle);
      last := if |route| > 0 then Some(route[|route| - 1]) else None;
    }
  }

  /** The service over the caller's vehicles and demands (libs/vrp.ts:39-98). */
  class DeliveryService {
    var vehicles: seq<Vehicle>
    var customerDemands: seq<CustomerDemand>

    constructor(vehicles: seq<Vehicle>, customerDemands: seq<CustomerDemand>)
      ensures this.vehicles == vehicles && this.customerDemands == customerDemands
    {
      this.vehicles := vehicles;
      this.customerDemands := customerDemands;
    }

    /**
     * The scan for the vehicle to take `demand` (libs/vrp.ts:67-83): the first
     * feasible vehicle of least cost, or none when no vehicle is feasible. The
     * last-demand lookups give each feasible vehicle without a route an empty
     * one; no route changes.
     */
    method SelectVehicle(vehicleRoutes: VehicleRoutes, demand: CustomerDemand, dist: Metric)
      returns (minVehicle: Option<nat>)
      modifies vehicleRoutes
      ensures vehicleRoutes.routes == Touch(old(vehicleRoutes.routes), vehicles, demand, |vehicles|)
      ensures minVehicle == Select(vehicles, old(vehicleRoutes.routes), demand, dist)
      ensures minVehicle.None? <==> NoneFeasible(vehicles, demand, |vehicles|)
      ensures forall k: nat :: minVehicle == Some(k) <==>
                FirstMinimum(vehicles, old(vehicleRoutes.routes), demand, dist, k, |vehicles|)
    {
      ghost var routes0 := vehicleRoutes.routes;
      var fleet := vehicles;
      minVehicle := None;
      var minDistance := Infinity;
      var i := 0;
      while i < |fleet|
        invariant i <= |fleet|
        invariant minVehicle.Some? ==> minVehicle.value < i
        invariant vehicleRoutes.routes == Touch(routes0, fleet, demand, i)
        invariant Scan(fleet, routes0, demand, dist, i, minVehicle, minDistance)
               == Select(fleet, routes0, demand, dist)
      {
        var vehicle := fleet[i];
        if vehicle.capacity >= demand.capacity {
          var lastDemand := vehicleRoutes.GetVehicleLastDemand(i);
          var currentDistance := dist(vehicle.currentPosition, demand.location);
          var totalDistance := if lastDemand.Some? then dist(lastDemand.value.location, demand.location)
                               else currentDistance;
          assert totalDistance == Cost(fleet, routes0, i, demand, dist);
          if Below(totalDistance, minDistance) {
            minVehicle := Some(i);
            minDistance := Finite(totalDistance);
          }
        }
        i := i + 1;
      }
      SelectIsFirstMinimum(vehicles, routes0, demand, dist);
    }

    /**
     * Giving `demand` to vehicle `k` (libs/vrp.ts:89-93): the vehicle loses the
     * demand's capacity and moves to its location, and the demand is appended
     * to the vehicle's route.
     */
    method ServeDemand(vehicleRoutes: VehicleRoutes, k: nat, demand: CustomerDemand)
      requires k < |vehicles|
      modifies this, vehicleRoutes
      ensures vehicles == old(vehicles)[k := Moved(old(vehicles)[k], demand)]
      ensures vehicleRoutes.routes == old(vehicleRoutes.routes)[k := Route(old(vehicleRoutes.routes), k) + [demand]]
      ensures customerDemands == old(customerDemands)
    {
      var vehicle := vehicles[k];
      vehicle := vehicle.(capacity := vehicle.capacity - demand.capacity);
      vehicle := vehicle.(currentPosition := demand.location);
      vehicles := vehicles[k := vehicle];
      var route := vehicleRoutes.GetVehicleRoute(k);
      vehicleRoutes.routes := vehicleRoutes.routes[k := route + [demand]];
    }

    /**
     * The loop over the sorted demands (libs/vrp.ts:63-94): each demand goes to
     * the selected vehicle, which loses its capacity and moves to the demand's
     * location, and the loop stops at the first demand no vehicle can take.
     * Its effect and stopping index are those of `Run` from the first demand.
     */
    method AssignDemands(vehicleRoutes: VehicleRoutes, dist: Metric) returns (demandIndex: nat)
      modifies this, vehicleRoutes
      ensures var r := Run(State(old(vehicles), old(vehicleRoutes.routes)), customerDemands, dist, 0, []);
              vehicles == r.state.fleet && vehicleRoutes.routes == r.state.routes && demandIndex == r.stop
      ensures customerDemands == old(customerDemands)
    {
      ghost var final := Run(State(vehicles, vehicleRoutes.routes), customerDemands, dist, 0, []);
      ghost var owners: seq<nat> := [];
      demandIndex := 0;
      while demandIndex < |customerDemands|
        invariant demandIndex <= |customerDemands|
        invariant customerDemands == old(customerDemands)
        invariant Run(State(vehicles, vehicleRoutes.routes), customerDemands, dist, demandIndex, owners) == final
      {
        var demand := customerDemands[demandIndex];
        ghost var before := vehicleRoutes.routes;
        var minVehicle := SelectVehicle(vehicleRoutes, demand, dist);
        if minVehicle.None? {
          RunBreaks(State(vehicles, before), customerDemands, dist, demandIndex, owners);
          break;
        }
        var k := minVehicle.value;
        RunServes(State(vehicles, before), customerDemands, dist, demandIndex, owners, k);
        ServeDemand(vehicleRoutes, k, demand);
        owners := owners + [k];
        demandIndex := demandIndex + 1;
      }
    }

    /**
     * `optimizeDeliveryPlan` (libs/vrp.ts:46-97): the plan, the sorted and
     * updated vehicles, and the demand array cut down to the assigned prefix
     * are exactly those of `DeliveryPlanOf`; with no demand and two vehicles
     * or more it throws and leaves the vehicles as they were.
     */
    method OptimizeDeliveryPlan(dist: Metric) returns (result: Result<DeliveryPlan, Error>)
      modifies this
      ensures match DeliveryPlanOf(old(vehicles), old(customerDemands), dist)
              case Failure(e) => result == Failure(e) && vehicles == old(vehicles) && customerDemands == []
              case Success(o) => result == Success(o.plan) && vehicles == o.vehicles && customerDemands == o.customerDemands
    {
      customerDemands := SortDemands(customerDemands);
      if |customerDemands| == 0 && |vehicles| >= 2 {
        return Failure(NoFirstDemand);
      }
      if |customerDemands| > 0 {
        vehicles := SortVehicles(vehicles, customerDemands[0].location, dist);
      }
      var vehicleRoutes := new VehicleRoutes();
      var demandIndex := AssignDemands(vehicleRoutes, dist);
      result := Success(DeliveryPlan(vehicleRoutes.routes, customerDemands[demandIndex..]));
      customerDemands := customerDemands[..demandIndex];
    }
  }
}
