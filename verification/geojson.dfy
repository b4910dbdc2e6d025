/**
 * `generateGeoJsonRoute` (libs/vrp.ts:23-37): a collection holding one
 * line-string feature through the given positions, each written as the pair
 * [longitude, latitude].
 */
module GeoJson {
  import opened Model
  import opened Assignment

  /** A coordinate pair in interchange order: [longitude, latitude]. */
  type Coordinate = seq<real>

  datatype Geometry = LineString(coordinates: seq<Coordinate>)

  datatype Feature = Feature(properties: map<string, string>, geometry: Geometry)

  datatype FeatureCollection = FeatureCollection(features: seq<Feature>)

  /** The positions as [longitude, latitude] pairs, in the same order. */
  function Coordinates(positions: seq<Position>): (cs: seq<Coordinate>)
    ensures |cs| == |positions|
    ensures forall i :: 0 <= i < |positions| ==> cs[i] == [positions[i].longitude, positions[i].latitude]
  {
    if positions == [] then []
    else
      var last := positions[|positions| - 1];
      Coordinates(positions[..|positions| - 1]) + [[last.longitude, last.latitude]]
  }

  function GenerateGeoJsonRoute(positions: seq<Position>): (fc: FeatureCollection)
    ensures |fc.features| == 1 && fc.features[0].properties == map[]
    ensures |fc.features[0].geometry.coordinates| == |positions|
    ensures forall i :: 0 <= i < |positions| ==>
              fc.features[0].geometry.coordinates[i] == [positions[i].longitude, positions[i].latitude]
  {
    FeatureCollection([Feature(map[], LineString(Coordinates(positions)))])
  }

  /** The locations of a route's demands, the positions a route is drawn through. */
  function Locations(route: seq<DeliveryOrder>): (ps: seq<Position>)
    ensures |ps| == |route|
    ensures forall i :: 0 <= i < |route| ==> ps[i] == route[i].location
  {
    if route == [] then [] else Locations(route[..|route| - 1]) + [route[|route| - 1].location]
  }

  /** A vehicle's drawn route ends where the engine left the vehicle. */
  lemma RouteEndsAtVehicle(v0: Vehicle, v: Vehicle, route: seq<DeliveryOrder>)
    requires VehicleHistory(v0, v, route)
    requires route != []
    ensures var line := GenerateGeoJsonRoute(Locations(route)).features[0].geometry.coordinates;
            line[|line| - 1] == [v.currentPosition.longitude, v.currentPosition.latitude]
  {
  }
}
