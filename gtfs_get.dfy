/** `getStopTimesForTrip` (src/lib/gtfs/get.ts): derive the trip's shard key,
    load that bucket in chunks, parse it and index it by the trip id. */
module GtfsGet {
  import opened Wrappers
  import opened GtfsTypes
  import opened GtfsJson
  import opened FileStorage
  import opened GtfsStopTimes
  import opened GtfsStatic
  import StableSort

  /** The lookup: a failed chunked load or an unparsable bucket is an error;
      a bucket without the trip gives undefined (`None`). It reads the backend
      and writes nothing. */
  function StopTimesForTrip(platform: string, entries: map<string, string>, shardKey: string -> string, tripId: string): (r: Result<Option<seq<StopTime>>, StorageError>)
    ensures MetadataKey(shardKey(tripId)) !in entries ==> r.Err?
    ensures !Supported(platform) ==> r == Err(UnsupportedPlatform)
    ensures Stored(platform, entries, shardKey(tripId), map[]) ==> r == Ok(None)
    ensures r.Ok? && r.value.Some? ==> exists bucket :: Stored(platform, entries, shardKey(tripId), bucket) && tripId in bucket && bucket[tripId] == r.value.value
    ensures Supported(platform) && MissingChunk(entries, shardKey(tripId)) ==> r.Err?
  {
    MissingChunkFails(platform, entries, shardKey(tripId));
    match LoadChunked(platform, entries, shardKey(tripId))
    case Err(e) => Err(e)
    case Ok(text) =>
      match DecodeBucket(text)
      case None => Err(MalformedData)
      case Some(bucket) => Ok(if tripId in bucket then Some(bucket[tripId]) else None)
  }

  /** A bucket that is stored answers every lookup of a trip with that shard
      key from its own contents. */
  lemma LookupStoredBucket(platform: string, entries: map<string, string>, shardKey: string -> string, tripId: string, bucket: Bucket)
    requires Stored(platform, entries, shardKey(tripId), bucket)
    ensures StopTimesForTrip(platform, entries, shardKey, tripId) == Ok(if tripId in bucket then Some(bucket[tripId]) else None)
  {
  }

  /** Once a set of buckets is persisted, a trip whose shard is among them is
      looked up in its own bucket. */
  lemma LookupPersisted(platform: string, entries: map<string, string>, shardKey: string -> string, t: string, buckets: map<string, Bucket>)
    requires Persisted(platform, entries, buckets) && shardKey(t) in buckets
    ensures var bucket := buckets[shardKey(t)];
      StopTimesForTrip(platform, entries, shardKey, t) == Ok(if t in bucket then Some(bucket[t]) else None)
  {
    LookupStoredBucket(platform, entries, shardKey, t, buckets[shardKey(t)]);
  }

  /** Read after write: once an ingestion's buckets are persisted, the lookup
      of a trip returns the list the ingestion built for it, and for a trip
      without stop times whose shard was written, undefined. */
  lemma ReadAfterWrite(archive: Archive, timestamp: string, shardKey: string -> string,
                       platform: string, entries: map<string, string>, t: string)
    requires Normalize(archive, timestamp, shardKey).Ok?
    requires Persisted(platform, entries, Normalize(archive, timestamp, shardKey).value.buckets)
    ensures "stop_times.txt" in archive
    ensures var rows := archive["stop_times.txt"];
      (exists i :: 0 <= i < |rows| && GtfsTables.Kept(rows[i]) && TripKey(rows[i]) == t) ==>
        StopTimesForTrip(platform, entries, shardKey, t) == Ok(Some(StopTimesOf(StableSort.SortBy(StableSort.Filter(rows, OfTrip(t)), SequenceKey))))
    ensures var rows := archive["stop_times.txt"]; var b := Normalize(archive, timestamp, shardKey).value.buckets;
      shardKey(t) in b && !(exists i :: 0 <= i < |rows| && GtfsTables.Kept(rows[i]) && TripKey(rows[i]) == t) ==>
        StopTimesForTrip(platform, entries, shardKey, t) == Ok(None)
  {
    var b := Normalize(archive, timestamp, shardKey).value.buckets;
    NormalizedBuckets(archive, timestamp, shardKey, t);
    if shardKey(t) in b {
      LookupPersisted(platform, entries, shardKey, t, b);
    }
  }
}
