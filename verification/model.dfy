/**
 * The record shapes of libs/model.ts that the delivery engine works on.
 *
 * Positions carry an abstract routing weight (a positive friction factor); the
 * great-circle distance is not modelled: the engine receives it as a parameter
 * of type `Metric` and nothing is required of its values.
 */
module Model {

  /** A strictly positive real: the routing weight of a position. */
  type PositiveReal = r: real | r > 0.0 witness 1.0

  /** A geographic position; `weight` is the friction factor the demand sort reads. */
  datatype Position = Position(latitude: real, longitude: real, weight: PositiveReal)

  /** `Position.distanceTo`, kept uninterpreted. */
  type Metric = (Position, Position) -> real

  /**
   * A delivery order (imported by the engine as `CustomerDemand`); the order's
   * own `weight` is carried but never read by the engine. The timestamp is omitted.
   */
  datatype DeliveryOrder = DeliveryOrder(
    customerId: string,
    orderId: string,
    capacity: int,
    location: Position,
    weight: real)

  type CustomerDemand = DeliveryOrder

  /**
   * A vehicle: `driverId` is read-only; `capacity` and `currentPosition` are
   * the two fields the engine overwrites. Vehicles live in a sequence and are
   * identified by their index in it.
   */
  datatype Vehicle = Vehicle(driverId: string, capacity: int, currentPosition: Position)

  /** Routes of the vehicles, keyed by vehicle index. */
  type Routes = map<nat, seq<DeliveryOrder>>

  /** The engine's result: routes per vehicle and the demands left pending. */
  datatype DeliveryPlan = DeliveryPlan(vehicleRoutes: Routes, pendingOrders: seq<DeliveryOrder>)

  /** The route of vehicle `k`; a vehicle without a key has the empty route. */
  function Route(routes: Routes, k: nat): seq<DeliveryOrder>
  {
    if k in routes then routes[k] else []
  }

  /** Sum of the capacities of a list of demands. */
  function TotalCapacity(ds: seq<DeliveryOrder>): int
  {
    if ds == [] then 0 else TotalCapacity(ds[..|ds| - 1]) + ds[|ds| - 1].capacity
  }
}
