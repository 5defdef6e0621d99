/** The entities the app keeps after normalisation (src/lib/gtfs/types.ts,
    src/stores.ts), with the field set that src/lib/gtfs/api.ts actually
    builds. Values copied straight from a CSV cell keep the cell, because the
    parser may have turned a numeric-looking identifier into a number. */
module GtfsTypes {
  import opened Wrappers
  import opened JsValues

  /** 'stop' | 'station' | 'door' | 'generic' | 'boardingArea' */
  datatype LocationType = StopPoint | Station | Door | Generic | BoardingArea

  /** 'tram' | 'subway' | 'train' | 'bus' | 'ferry' | 'cableTram' | 'cableCar'
      | 'funicular' | 'trolleybus' | 'monorail' */
  datatype RouteType =
    Tram | Subway | Train | Bus | Ferry | CableTram | CableCar | Funicular | Trolleybus | Monorail

  datatype Location = Location(latitude: Cell, longitude: Cell)

  /** `kind` is None where the code table yields `undefined`. */
  datatype Stop = Stop(
    id: Cell,
    name: Cell,
    location: Location,
    kind: Option<LocationType>,
    parentStopId: Option<Cell>,
    hasChildren: bool)

  datatype RouteName = RouteName(short: Option<string>, long: Option<string>)

  datatype RouteColor = RouteColor(generic: Option<Cell>, text: Option<Cell>)

  datatype Route = Route(id: Cell, name: RouteName, kind: Option<RouteType>, color: RouteColor)

  datatype Trip = Trip(id: Cell, routeId: Cell, headsign: Option<Cell>)

  /** One entry of a trip's schedule. */
  datatype StopTime = StopTime(stopId: Cell, departureTime: Cell)

  /** The snapshot published to the static data store. */
  datatype StaticGtfsData = StaticGtfsData(
    dataTypeVersion: int,
    timestamp: string,
    agencyName: Cell,
    stops: map<string, Stop>,
    routes: map<string, Route>,
    trips: map<string, Trip>)

  datatype VehicleLocation = VehicleLocation(latitude: real, longitude: real)

  datatype VehiclePositionInfo = VehiclePositionInfo(
    location: VehicleLocation,
    bearing: Option<real>,
    speed: Option<real>)

  datatype Vehicle = Vehicle(
    id: string,
    tripId: Option<string>,
    currentStopId: Option<string>,
    position: Option<VehiclePositionInfo>)

  /** The snapshot published to the realtime data store. */
  datatype RealtimeGtfsData = RealtimeGtfsData(
    localTimestamp: string,
    feedTimestamp: string,
    vehicles: seq<Vehicle>)
}
