/** The vehicle loop of `fetchRealtimeGtfs` (src/lib/gtfs/api.ts:258-312),
    over an already decoded GTFS-Realtime feed. Decoded messages carry the
    protobuf defaults: an absent string field reads as "", an absent number
    as 0, an absent sub-message as null. */
module GtfsRealtime {
  import opened Wrappers
  import opened GtfsTypes

  datatype VehicleDescriptor = VehicleDescriptor(id: string)
  datatype TripDescriptor = TripDescriptor(tripId: string)
  datatype Position = Position(latitude: real, longitude: real, bearing: real, speed: real)
  datatype VehiclePosition = VehiclePosition(
    trip: Option<TripDescriptor>,
    vehicle: Option<VehicleDescriptor>,
    position: Option<Position>,
    stopId: string)
  datatype FeedEntity = FeedEntity(id: string, vehicle: Option<VehiclePosition>)

  /** `s || null` on a string. */
  function StringOrNull(s: string): (r: Option<string>)
    ensures r.Some? <==> s != ""
    ensures r.Some? ==> r.value == s
  {
    if s != "" then Some(s) else None
  }

  /** `x || null` on a number. */
  function NumberOrNull(x: real): (r: Option<real>)
    ensures r.Some? <==> x != 0.0
    ensures r.Some? ==> r.value == x
  {
    if x != 0.0 then Some(x) else None
  }

  /** The descriptor id, when it is truthy. */
  function DescriptorId(v: VehiclePosition): Option<string>
  {
    match v.vehicle
    case Some(d) => StringOrNull(d.id)
    case None => None
  }

  /** The record pushed for one vehicle position; `randomId` is what
      `Math.random().toString()` gives if it is called. */
  function VehicleOf(v: VehiclePosition, randomId: string): (r: Vehicle)
    ensures DescriptorId(v).Some? ==> r.id == DescriptorId(v).value
    ensures DescriptorId(v).None? ==> r.id == randomId
    ensures r.tripId.Some? <==> v.trip.Some? && v.trip.value.tripId != ""
    ensures r.tripId.Some? ==> r.tripId.value == v.trip.value.tripId
    ensures r.currentStopId == StringOrNull(v.stopId)
    ensures r.position.Some? <==> v.position.Some? && v.position.value.latitude != 0.0 && v.position.value.longitude != 0.0
    ensures r.position.Some? ==>
      var p := v.position.value;
      r.position.value == VehiclePositionInfo(VehicleLocation(p.latitude, p.longitude), NumberOrNull(p.bearing), NumberOrNull(p.speed))
  {
    Vehicle(
      if DescriptorId(v).Some? then DescriptorId(v).value else randomId,
      match v.trip case Some(t) => StringOrNull(t.tripId) case None => None,
      StringOrNull(v.stopId),
      match v.position
      case Some(p) =>
        if p.latitude != 0.0 && p.longitude != 0.0
        then Some(VehiclePositionInfo(VehicleLocation(p.latitude, p.longitude), NumberOrNull(p.bearing), NumberOrNull(p.speed)))
        else None
      case None => None)
  }

  /** The vehicles list after the loop; `randomId(i)` is the random string
      drawn while handling entity i. */
  function VehiclesOf(entities: seq<FeedEntity>, randomId: nat -> string): (r: seq<Vehicle>)
    ensures |r| <= |entities|
  {
    if entities == [] then []
    else
      var i := |entities| - 1;
      VehiclesOf(entities[..i], randomId) +
      (match entities[i].vehicle case Some(v) => [VehicleOf(v, randomId(i))] case None => [])
  }

  /** The positions of the entities that carry a vehicle, in feed order. */
  function VehicleIndices(entities: seq<FeedEntity>): (r: seq<nat>)
    ensures forall j :: 0 <= j < |r| ==> r[j] < |entities| && entities[r[j]].vehicle.Some?
    ensures forall j, k :: 0 <= j < k < |r| ==> r[j] < r[k]
    ensures forall i :: 0 <= i < |entities| && entities[i].vehicle.Some? ==> i in r
  {
    if entities == [] then []
    else
      var i := |entities| - 1;
      var r0 := VehicleIndices(entities[..i]);
      assert forall j :: 0 <= j < |r0| ==> entities[r0[j]] == entities[..i][r0[j]];
      assert forall k :: 0 <= k < i ==> entities[k] == entities[..i][k];
      r0 + (if entities[i].vehicle.Some? then [i] else [])
  }

  /** The record for the entity at position i. */
  function VehicleAt(entities: seq<FeedEntity>, randomId: nat -> string, i: nat): Vehicle
    requires i < |entities| && entities[i].vehicle.Some?
  {
    VehicleOf(entities[i].vehicle.value, randomId(i))
  }

  /** One vehicle per entity that has a vehicle, in feed order: the j-th
      vehicle is built from the j-th such entity. */
  lemma {:induction false} VehiclesInFeedOrder(entities: seq<FeedEntity>, randomId: nat -> string)
    ensures var idx := VehicleIndices(entities);
      |VehiclesOf(entities, randomId)| == |idx| &&
      forall j :: 0 <= j < |idx| ==> VehiclesOf(entities, randomId)[j] == VehicleAt(entities, randomId, idx[j])
  {
    if entities != [] {
      var i := |entities| - 1;
      var init := entities[..i];
      VehiclesInFeedOrder(init, randomId);
      var idx0 := VehicleIndices(init);
      forall j | 0 <= j < |idx0|
        ensures VehicleAt(init, randomId, idx0[j]) == VehicleAt(entities, randomId, idx0[j])
      {
        assert init[idx0[j]] == entities[idx0[j]];
      }
    }
  }

  /** Every vehicle id is non-empty when the random strings are. */
  lemma {:induction false} VehicleIdsNonEmpty(entities: seq<FeedEntity>, randomId: nat -> string)
    requires forall i :: 0 <= i < |entities| ==> randomId(i) != ""
    ensures forall j :: 0 <= j < |VehiclesOf(entities, randomId)| ==> VehiclesOf(entities, randomId)[j].id != ""
  {
    VehiclesInFeedOrder(entities, randomId);
  }

  /** The loop (api.ts:285-302). */
  method MapVehicles(entities: seq<FeedEntity>, randomId: nat -> string) returns (vehicles: seq<Vehicle>)
    ensures vehicles == VehiclesOf(entities, randomId)
  {
    vehicles := [];
    for i := 0 to |entities|
      invariant vehicles == VehiclesOf(entities[..i], randomId)
    {
      assert entities[..i + 1][..i] == entities[..i];
      var entity := entities[i];
      if entity.vehicle.Some? {
        vehicles := vehicles + [VehicleOf(entity.vehicle.value, randomId(i))];
      }
    }
    assert entities[..|entities|] == entities;
  }

  /** The writable store the realtime snapshot is published to. */
  class RealtimeDataStore {
    var value: RealtimeGtfsData

    constructor (initial: RealtimeGtfsData)
      ensures value == initial
    {
      value := initial;
    }
  }

  /** `fetchRealtimeGtfs` from the decoded feed on; the two timestamps are the
      formatted dates it would compute. */
  method FetchRealtimeGtfs(entities: seq<FeedEntity>, feedTimestamp: string, localTimestamp: string,
                           randomId: nat -> string, store: RealtimeDataStore)
    modifies store
    ensures store.value == RealtimeGtfsData(localTimestamp, feedTimestamp, VehiclesOf(entities, randomId))
  {
    var vehicles := MapVehicles(entities, randomId);
    store.value := RealtimeGtfsData(localTimestamp, feedTimestamp, vehicles);
  }
}
