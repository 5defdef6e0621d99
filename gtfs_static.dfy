/** `fetchStaticGtfs` (src/lib/gtfs/api.ts:74-256) after the download, the
    unzip and the CSV parse: the archive is given as the parsed rows of each
    file, keyed by file name. */
module GtfsStatic {
  import opened Wrappers
  import opened JsValues
  import opened GtfsTypes
  import opened GtfsTables
  import opened GtfsStops
  import opened GtfsStopTimes
  import opened StableSort
  import opened GtfsJson
  import opened FileStorage

  /** The parsed files of the zip archive. */
  type Archive = map<string, seq<Row>>

  const RequiredFiles: seq<string> := ["agency.txt", "stops.txt", "routes.txt", "trips.txt", "stop_times.txt"]

  /** Why an ingestion aborts. */
  datatype IngestError =
    | MissingFile(name: string)
    | NoAgencyRecord
    | MissingAgencyName
    | UnknownParentStop(id: string)
    | StorageFailed(cause: StorageError)

  // ----- required files (api.ts:97-103) -----

  /** The first of `names` that the archive lacks. */
  function FirstMissing(archive: Archive, names: seq<string>): (r: Option<string>)
    ensures r.None? <==> forall i :: 0 <= i < |names| ==> names[i] in archive
    ensures r.Some? ==> exists i :: 0 <= i < |names| && names[i] == r.value && r.value !in archive
                          && forall j :: 0 <= j < i ==> names[j] in archive
  {
    if names == [] then None
    else if names[0] !in archive then Some(names[0])
    else
      var r := FirstMissing(archive, names[1..]);
      assert forall i :: 0 < i < |names| ==> names[i] == names[1..][i - 1];
      assert r.Some? ==> exists i :: 0 <= i < |names| && names[i] == r.value && r.value !in archive
                          && forall j :: 0 <= j < i ==> names[j] in archive
      by {
        if r.Some? {
          var i :| 0 <= i < |names[1..]| && names[1..][i] == r.value && r.value !in archive
                          && forall j :: 0 <= j < i ==> names[1..][j] in archive;
          assert names[i + 1] == r.value;
          assert forall j :: 0 < j < i + 1 ==> names[j] == names[1..][j - 1];
        }
      }
      r
  }

  /** The check loop: the first absent file, in the order agency, stops,
      routes, trips, stop_times, aborts the ingestion. */
  method CheckRequiredFiles(archive: Archive) returns (missing: Option<string>)
    ensures missing == FirstMissing(archive, RequiredFiles)
  {
    for i := 0 to |RequiredFiles|
      invariant FirstMissing(archive, RequiredFiles[i..]) == FirstMissing(archive, RequiredFiles)
    {
      assert RequiredFiles[i..][1..] == RequiredFiles[i + 1..];
      var file := RequiredFiles[i];
      if file !in archive {
        return Some(file);
      }
    }
    return None;
  }

  // ----- agency (api.ts:106-107) -----

  /** The agency name is the first agency.txt row's `agency_name`; reading a
      field of a missing first row is a TypeError, and a falsy name aborts. */
  function AgencyName(rows: seq<Row>): (r: Result<Cell, IngestError>)
    ensures rows == [] ==> r == Err(NoAgencyRecord)
    ensures rows != [] ==> (r.Ok? <==> Truthy(Field(rows[0], "agency_name")))
    ensures r.Ok? ==> r.value == Field(rows[0], "agency_name") && Truthy(r.value)
    ensures r.Err? ==> r.error == NoAgencyRecord || r.error == MissingAgencyName
    ensures rows != [] && !Truthy(Field(rows[0], "agency_name")) ==> r == Err(MissingAgencyName)
  {
    if rows == [] then Err(NoAgencyRecord)
    else
      var name := Field(rows[0], "agency_name");
      if Truthy(name) then Ok(name) else Err(MissingAgencyName)
  }

  // ----- the whole normalisation -----

  /** What a successful ingestion publishes and what it writes. */
  datatype Normalized = Normalized(snapshot: StaticGtfsData, buckets: map<string, Bucket>)

  /** The stop-time lists per trip, from the stop_times.txt rows. */
  function PerTrip(stopTimeRows: seq<Row>): map<string, seq<StopTime>>
  {
    GroupByTrip(SortBy(stopTimeRows, SequenceKey))
  }

  /** The result of the normalisation passes, in source order. */
  function Normalize(archive: Archive, timestamp: string, shardKey: string -> string): (r: Result<Normalized, IngestError>)
    ensures FirstMissing(archive, RequiredFiles).Some? ==> r == Err(MissingFile(FirstMissing(archive, RequiredFiles).value))
    ensures r.Ok? ==> forall i :: 0 <= i < |RequiredFiles| ==> RequiredFiles[i] in archive
    ensures "agency.txt" in archive && FirstMissing(archive, RequiredFiles).None? && AgencyName(archive["agency.txt"]).Err? ==>
      r == Err(AgencyName(archive["agency.txt"]).error)
    ensures r.Ok? ==> "agency.txt" in archive && AgencyName(archive["agency.txt"]).Ok?
    ensures r.Ok? ==> r.value.snapshot.dataTypeVersion == 0 && r.value.snapshot.timestamp == timestamp
                      && r.value.snapshot.agencyName == AgencyName(archive["agency.txt"]).value
  {
    match FirstMissing(archive, RequiredFiles)
    case Some(file) => Err(MissingFile(file))
    case None =>
      assert RequiredFiles[0] == "agency.txt" && RequiredFiles[1] == "stops.txt" && RequiredFiles[2] == "routes.txt";
      assert RequiredFiles[3] == "trips.txt" && RequiredFiles[4] == "stop_times.txt";
      match AgencyName(archive["agency.txt"])
      case Err(e) => Err(e)
      case Ok(name) =>
        var stopRows := archive["stops.txt"];
        match LinkParents(IndexBy(stopRows, "stop_id", MakeStop), ParentIds(stopRows))
        case Err(id) => Err(UnknownParentStop(id))
        case Ok(stops) =>
          var routes := IndexBy(archive["routes.txt"], "route_id", MakeRoute);
          var trips := IndexBy(archive["trips.txt"], "trip_id", MakeTrip);
          Ok(Normalized(
            StaticGtfsData(0, timestamp, name, stops, routes, trips),
            Buckets(PerTrip(archive["stop_times.txt"]), shardKey)))
  }

  /** The svelte store the snapshot is published to. */
  class StaticDataStore {
    var value: StaticGtfsData

    constructor (initial: StaticGtfsData)
      ensures value == initial
    {
      value := initial;
    }
  }

  // ----- persistence -----

  /** Bucket `b` can be read back from the backend and decodes to `bucket`. */
  predicate Stored(platform: string, entries: map<string, string>, b: string, bucket: Bucket)
  {
    match LoadChunked(platform, entries, b)
    case Ok(text) => DecodeBucket(text) == Some(bucket)
    case Err(_) => false
  }

  /** Every bucket is stored under its shard key. */
  predicate Persisted(platform: string, entries: map<string, string>, buckets: map<string, Bucket>)
  {
    forall b :: b in buckets ==> Stored(platform, entries, b, buckets[b])
  }

  /** Every bucket among `written` is stored. */
  predicate StoredAmong(platform: string, entries: map<string, string>, buckets: map<string, Bucket>, written: set<string>)
  {
    forall w :: w in written && w in buckets ==> Stored(platform, entries, w, buckets[w])
  }

  /** Key `k` is the same in both backends. */
  predicate SameAt(e1: map<string, string>, e2: map<string, string>, k: string)
  {
    (k in e1 <==> k in e2) && (k in e1 ==> e1[k] == e2[k])
  }

  /** Every key owned by no bucket among `written` is as it was in `start`. */
  ghost predicate KeptOutside(start: map<string, string>, entries: map<string, string>, written: set<string>)
  {
    forall k :: Owner(k).None? || Owner(k).value !in written ==> SameAt(start, entries, k)
  }

  /** A chunked save of `key` leaves every key outside `key`'s layout alone. */
  lemma SaveKeepsUnownedKeys(entries: map<string, string>, key: string, data: string, k: string)
    requires Owner(k) != Some(key)
    ensures SameAt(entries, SavedInChunks(entries, key, data), k)
  {
    SaveWritesOnlyItsKeys(entries, key, data);
    if k == MetadataKey(key) || IsChunkKeyBelow(k, key, |Chunks(data)|) {
      SavedKeysAreOwned(key, data, k);
      assert false;
    }
  }

  /** Saving one more bucket keeps every key owned by no bucket written so far. */
  lemma SaveFrameStep(start: map<string, string>, entries: map<string, string>, b: string, text: string,
                      written: set<string>)
    requires KeptOutside(start, entries, written)
    ensures KeptOutside(start, SavedInChunks(entries, b, text), written + {b})
  {
    var saved := SavedInChunks(entries, b, text);
    forall k | Owner(k).None? || Owner(k).value !in written + {b}
      ensures SameAt(start, saved, k)
    {
      SaveKeepsUnownedKeys(entries, b, text, k);
    }
  }

  /** Saving one more bucket stores it and keeps the buckets stored before. */
  lemma SaveBucketStep(platform: string, entries: map<string, string>, b: string, text: string,
                       buckets: map<string, Bucket>, written: set<string>)
    requires Supported(platform) && b in buckets && b !in written
    requires DecodeBucket(text) == Some(buckets[b])
    requires StoredAmong(platform, entries, buckets, written)
    ensures StoredAmong(platform, SavedInChunks(entries, b, text), buckets, written + {b})
  {
    var saved := SavedInChunks(entries, b, text);
    SaveLoadRoundTrip(platform, entries, b, text);
    forall w | w in written && w in buckets ensures Stored(platform, saved, w, buckets[w]) {
      SaveKeepsOtherLayouts(entries, b, text, w);
      LoadChunkedOnlyReadsLayout(platform, entries, saved, w);
    }
  }

  /** What the write loop keeps after saving the buckets in `written`,
      starting from `start`: each of them stored, every key they do not own
      untouched, and nothing written at all on an unsupported platform. */
  ghost predicate WriteProgress(platform: string, start: map<string, string>, entries: map<string, string>,
                                buckets: map<string, Bucket>, written: set<string>)
  {
    (written != {} ==> Supported(platform)) &&
    (written == {} ==> entries == start) &&
    StoredAmong(platform, entries, buckets, written) &&
    KeptOutside(start, entries, written)
  }

  /** One successful save keeps the write loop's progress. */
  lemma WriteStep(platform: string, start: map<string, string>, entries: map<string, string>,
                  buckets: map<string, Bucket>, written: set<string>, b: string, text: string)
    requires WriteProgress(platform, start, entries, buckets, written)
    requires Supported(platform) && b in buckets && b !in written
    requires DecodeBucket(text) == Some(buckets[b])
    ensures WriteProgress(platform, start, SavedInChunks(entries, b, text), buckets, written + {b})
  {
    SaveBucketStep(platform, entries, b, text, buckets, written);
    SaveFrameStep(start, entries, b, text, written);
  }

  /** Once every bucket is written, each is stored and nothing else moved. */
  lemma WriteDone(platform: string, start: map<string, string>, entries: map<string, string>,
                  buckets: map<string, Bucket>)
    requires WriteProgress(platform, start, entries, buckets, buckets.Keys)
    ensures Supported(platform) || buckets == map[]
    ensures Persisted(platform, entries, buckets)
    ensures forall k :: Owner(k).None? || Owner(k).value !in buckets ==> SameAt(start, entries, k)
  {
  }

  /** The write loop (api.ts:250-252): each bucket serialised and saved in
      chunks under its shard key, in any order; the first failed save aborts. */
  method WriteBuckets(storage: Storage, buckets: map<string, Bucket>) returns (r: Outcome<StorageError>)
    modifies storage
    ensures r.Pass? <==> Supported(storage.platform) || buckets == map[]
    ensures r.Fail? ==> r.error == UnsupportedPlatform && storage.entries == old(storage.entries)
    ensures r.Pass? ==> Persisted(storage.platform, storage.entries, buckets)
    ensures forall k :: Owner(k).None? || Owner(k).value !in buckets ==> SameAt(old(storage.entries), storage.entries, k)
  {
    var written: set<string> := {};
    var left := buckets.Keys;
    while left != {}
      invariant left !! written && left + written == buckets.Keys
      invariant WriteProgress(storage.platform, old(storage.entries), storage.entries, buckets, written)
      decreases left
    {
      var key :| key in left;
      var text := Stringify(buckets[key]);
      ghost var before := storage.entries;
      var saved := storage.SaveDataInChunks(key, text);
      if saved.Fail? {
        return Fail(saved.error);
      }
      WriteStep(storage.platform, old(storage.entries), before, buckets, written, key, text);
      written := written + {key};
      left := left - {key};
    }
    WriteDone(storage.platform, old(storage.entries), storage.entries, buckets);
    r := Pass;
  }

  /** `fetchStaticGtfs` from the parsed archive on: the checks, the passes,
      publishing the snapshot, and only then writing the buckets. A write that
      fails leaves the snapshot published. */
  method FetchStaticGtfs(archive: Archive, timestamp: string, shardKey: string -> string,
                         store: StaticDataStore, storage: Storage) returns (r: Outcome<IngestError>)
    modifies store, storage
    ensures var n := Normalize(archive, timestamp, shardKey);
      n.Err? ==> r == Fail(n.error) && store.value == old(store.value) && storage.entries == old(storage.entries)
    ensures var n := Normalize(archive, timestamp, shardKey);
      n.Ok? ==> store.value == n.value.snapshot
    ensures var n := Normalize(archive, timestamp, shardKey);
      n.Ok? ==> (r.Pass? <==> Supported(storage.platform) || n.value.buckets == map[])
    ensures var n := Normalize(archive, timestamp, shardKey);
      n.Ok? && r.Fail? ==> r.error == StorageFailed(UnsupportedPlatform) && storage.entries == old(storage.entries)
    ensures var n := Normalize(archive, timestamp, shardKey);
      n.Ok? && r.Pass? ==> Persisted(storage.platform, storage.entries, n.value.buckets)
    ensures var n := Normalize(archive, timestamp, shardKey);
      n.Ok? ==> forall k :: Owner(k).None? || Owner(k).value !in n.value.buckets ==> SameAt(old(storage.entries), storage.entries, k)
  {
    var missing := CheckRequiredFiles(archive);
    if missing.Some? {
      return Fail(MissingFile(missing.value));
    }
    assert RequiredFiles[0] == "agency.txt" && RequiredFiles[1] == "stops.txt" && RequiredFiles[2] == "routes.txt";
    assert RequiredFiles[3] == "trips.txt" && RequiredFiles[4] == "stop_times.txt";

    var agency := AgencyName(archive["agency.txt"]);
    if agency.Err? {
      return Fail(agency.error);
    }

    var stops, parentStopIds := BuildStops(archive["stops.txt"]);
    var linked := MarkParents(stops, parentStopIds);
    if linked.Err? {
      return Fail(UnknownParentStop(linked.error));
    }

    var routes := IndexRows(archive["routes.txt"], "route_id", MakeRoute);
    var trips := IndexRows(archive["trips.txt"], "trip_id", MakeTrip);

    var stopTimesFile := archive["stop_times.txt"];
    stopTimesFile := SortBy(stopTimesFile, SequenceKey);
    var stopTimesPerTrip := GroupStopTimes(stopTimesFile);
    var tripStopTimesPerKey := BucketByShard(stopTimesPerTrip, shardKey);

    store.value := StaticGtfsData(0, timestamp, agency.value, linked.value, routes, trips);

    var written := WriteBuckets(storage, tripStopTimesPerKey);
    if written.Fail? {
      return Fail(StorageFailed(written.error));
    }
    r := Pass;
  }

  // ----- what a successful normalisation contains -----

  /** With the files present and an agency name, the stop passes decide: the
      ingestion fails exactly when some parent station is not a stop id, and
      names such an id; otherwise the snapshot's stops are keyed by the stop
      ids and a stop has children exactly when some row names it as parent. */
  lemma NormalizedStops(archive: Archive, timestamp: string, shardKey: string -> string)
    requires FirstMissing(archive, RequiredFiles).None?
    requires "agency.txt" in archive && AgencyName(archive["agency.txt"]).Ok?
    ensures "stops.txt" in archive
    ensures var rows := archive["stops.txt"]; var n := Normalize(archive, timestamp, shardKey);
      n.Ok? <==> forall i :: 0 <= i < |rows| && Truthy(Field(rows[i], "parent_station")) ==>
                    exists j :: 0 <= j < |rows| && RowKey(rows[j], "stop_id") == ToJsString(Field(rows[i], "parent_station"))
    ensures var rows := archive["stops.txt"]; var n := Normalize(archive, timestamp, shardKey);
      n.Err? ==> n.error.UnknownParentStop? && IsParentKey(rows, n.error.id)
                 && forall j :: 0 <= j < |rows| ==> RowKey(rows[j], "stop_id") != n.error.id
    ensures var rows := archive["stops.txt"]; var n := Normalize(archive, timestamp, shardKey);
      n.Ok? ==> var stops := n.value.snapshot.stops;
        (forall k :: k in stops <==> exists j :: 0 <= j < |rows| && RowKey(rows[j], "stop_id") == k) &&
        (forall k :: k in stops ==> (stops[k].hasChildren <==> IsParentKey(rows, k)))
  {
    assert RequiredFiles[1] == "stops.txt";
    var rows := archive["stops.txt"];
    var built := IndexBy(rows, "stop_id", MakeStop);
    StopsHaveChildren(rows);
    IndexByKeys(rows, "stop_id", MakeStop);
    LinkParentsEffect(built, ParentIds(rows));
    var linked := LinkParents(built, ParentIds(rows));
    if linked.Err? {
      ParentIdsMentions(rows, linked.error);
    }
  }

  lemma RoutesAndTripsIndexed(archive: Archive, timestamp: string, shardKey: string -> string)
    requires Normalize(archive, timestamp, shardKey).Ok?
    ensures "routes.txt" in archive && "trips.txt" in archive
    ensures Normalize(archive, timestamp, shardKey).value.snapshot.routes == IndexBy(archive["routes.txt"], "route_id", MakeRoute)
    ensures Normalize(archive, timestamp, shardKey).value.snapshot.trips == IndexBy(archive["trips.txt"], "trip_id", MakeTrip)
  {
    assert RequiredFiles[2] == "routes.txt" && RequiredFiles[3] == "trips.txt";
    assert FirstMissing(archive, RequiredFiles).None?;
    assert AgencyName(archive["agency.txt"]).Ok?;
  }

  /** The routes record is keyed by the route ids, and each entry is the
      record built from a row with that id. */
  lemma NormalizedRoutes(archive: Archive, timestamp: string, shardKey: string -> string)
    requires Normalize(archive, timestamp, shardKey).Ok?
    ensures "routes.txt" in archive
    ensures var rows := archive["routes.txt"]; var routes := Normalize(archive, timestamp, shardKey).value.snapshot.routes;
      (forall k :: k in routes <==> exists i :: 0 <= i < |rows| && RowKey(rows[i], "route_id") == k) &&
      (forall k :: k in routes ==> exists i :: 0 <= i < |rows| && RowKey(rows[i], "route_id") == k && routes[k] == MakeRoute(rows[i]))
  {
    RoutesAndTripsIndexed(archive, timestamp, shardKey);
    var rows := archive["routes.txt"];
    IndexByKeys(rows, "route_id", MakeRoute);
    IndexByBuiltFrom(rows, "route_id", MakeRoute);
  }

  /** The trips record is keyed by the trip ids, and each entry is the
      record built from a row with that id. */
  lemma NormalizedTrips(archive: Archive, timestamp: string, shardKey: string -> string)
    requires Normalize(archive, timestamp, shardKey).Ok?
    ensures "trips.txt" in archive
    ensures var rows := archive["trips.txt"]; var trips := Normalize(archive, timestamp, shardKey).value.snapshot.trips;
      (forall k :: k in trips <==> exists i :: 0 <= i < |rows| && RowKey(rows[i], "trip_id") == k) &&
      (forall k :: k in trips ==> exists i :: 0 <= i < |rows| && RowKey(rows[i], "trip_id") == k && trips[k] == MakeTrip(rows[i]))
  {
    RoutesAndTripsIndexed(archive, timestamp, shardKey);
    var rows := archive["trips.txt"];
    IndexByKeys(rows, "trip_id", MakeTrip);
    IndexByBuiltFrom(rows, "trip_id", MakeTrip);
  }

  /** Every trip with a kept stop-time row lands in the bucket of its shard
      key, with its own rows sorted stably by `stop_sequence`; a bucket holds
      no other trips. */
  lemma NormalizedBuckets(archive: Archive, timestamp: string, shardKey: string -> string, t: string)
    requires Normalize(archive, timestamp, shardKey).Ok?
    ensures "stop_times.txt" in archive
    ensures var rows := archive["stop_times.txt"]; var b := Normalize(archive, timestamp, shardKey).value.buckets;
      (exists i :: 0 <= i < |rows| && Kept(rows[i]) && TripKey(rows[i]) == t) ==>
        shardKey(t) in b && t in b[shardKey(t)] &&
        b[shardKey(t)][t] == StopTimesOf(SortBy(Filter(rows, OfTrip(t)), SequenceKey))
    ensures var rows := archive["stop_times.txt"]; var b := Normalize(archive, timestamp, shardKey).value.buckets;
      forall s :: s in b && t in b[s] ==>
        s == shardKey(t) && exists i :: 0 <= i < |rows| && Kept(rows[i]) && TripKey(rows[i]) == t
  {
    assert RequiredFiles[4] == "stop_times.txt";
    TripStopTimes(archive["stop_times.txt"], t);
  }
}
