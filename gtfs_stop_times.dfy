/** The stop-time passes of `fetchStaticGtfs` (src/lib/gtfs/api.ts:196-233):
    the stable sort by `stop_sequence`, the per-trip grouping, and the
    bucketing of trips under their shard key. */
module GtfsStopTimes {
  import opened JsValues
  import opened GtfsTypes
  import opened GtfsTables
  import opened StableSort
  import GtfsJson

  /** The sort key of `(a, b) => a.stop_sequence - b.stop_sequence`. */
  function SequenceKey(row: Row): int
  {
    match Field(row, "stop_sequence")
    case Num(n) => n
    case _ => 0
  }

  /** The property key of a row's trip in `stopTimesPerTrip`. */
  function TripKey(row: Row): string
  {
    ToJsString(Field(row, "trip_id"))
  }

  /** The rows that end up in trip `t`'s list. */
  function OfTrip(t: string): Row -> bool
  {
    row => Kept(row) && TripKey(row) == t
  }

  /** The entries pushed for a run of kept rows. */
  function StopTimesOf(rows: seq<Row>): (r: seq<StopTime>)
    ensures |r| == |rows|
    ensures forall i :: 0 <= i < |rows| ==> r[i] == StopTimeOf(rows[i])
  {
    seq(|rows|, i requires 0 <= i < |rows| => StopTimeOf(rows[i]))
  }

  /** `stopTimesPerTrip` after the loop over the (sorted) rows: each kept row
      appended to its trip's list, a list created on the trip's first row. */
  function GroupByTrip(rows: seq<Row>): (g: map<string, seq<StopTime>>)
    ensures forall t :: t in g ==> g[t] != []
    ensures rows == [] ==> g == map[]
  {
    if rows == [] then map[]
    else
      var g := GroupByTrip(rows[..|rows| - 1]);
      var row := rows[|rows| - 1];
      if !Kept(row) then g
      else
        var t := TripKey(row);
        g[t := (if t in g then g[t] else []) + [StopTimeOf(row)]]
  }

  /** The grouping loop (api.ts:204-216). */
  method GroupStopTimes(sorted: seq<Row>) returns (perTrip: map<string, seq<StopTime>>)
    ensures perTrip == GroupByTrip(sorted)
  {
    perTrip := map[];
    for i := 0 to |sorted|
      invariant perTrip == GroupByTrip(sorted[..i])
    {
      assert sorted[..i + 1][..i] == sorted[..i];
      var stopTime := sorted[i];
      if !Kept(stopTime) {
        continue;
      }
      var t := TripKey(stopTime);
      if t !in perTrip {
        perTrip := perTrip[t := []];
      }
      perTrip := perTrip[t := perTrip[t] + [StopTimeOf(stopTime)]];
    }
    assert sorted[..|sorted|] == sorted;
  }

  lemma {:induction false} FilterSnoc<T>(s: seq<T>, x: T, p: T -> bool)
    ensures Filter(s + [x], p) == Filter(s, p) + (if p(x) then [x] else [])
  {
    if s == [] {
      assert [] + [x] == [x];
      assert [x][1..] == [];
    } else {
      assert (s + [x])[1..] == s[1..] + [x];
      FilterSnoc(s[1..], x, p);
    }
  }

  lemma {:induction false} FilterEmpty<T>(s: seq<T>, p: T -> bool)
    ensures Filter(s, p) == [] <==> forall i :: 0 <= i < |s| ==> !p(s[i])
  {
    if s != [] {
      FilterEmpty(s[1..], p);
      if forall i :: 0 <= i < |s| - 1 ==> !p(s[1..][i]) {
        forall i | 0 <= i < |s| ensures !p(s[i]) || p(s[0]) {
          if i > 0 { assert s[i] == s[1..][i - 1]; }
        }
      }
    }
  }

  lemma StopTimesOfAppend(a: seq<Row>, b: seq<Row>)
    ensures StopTimesOf(a + b) == StopTimesOf(a) + StopTimesOf(b)
  {
  }

  /** Grouping is filtering: trip `t` has a list exactly when some kept row
      belongs to it, and the list is that trip's kept rows in row order. */
  lemma {:induction false} GroupByTripIsFilter(rows: seq<Row>, t: string)
    ensures t in GroupByTrip(rows) <==> Filter(rows, OfTrip(t)) != []
    ensures t in GroupByTrip(rows) ==> GroupByTrip(rows)[t] == StopTimesOf(Filter(rows, OfTrip(t)))
  {
    if rows != [] {
      var init, row := rows[..|rows| - 1], rows[|rows| - 1];
      assert rows == init + [row];
      GroupByTripIsFilter(init, t);
      FilterSnoc(init, row, OfTrip(t));
      var f0 := Filter(init, OfTrip(t));
      if OfTrip(t)(row) {
        StopTimesOfAppend(f0, [row]);
      }
    }
  }

  /** Each trip's list is its own kept rows, ordered by non-decreasing
      `stop_sequence`, each exactly once (a permutation of them); rows with
      equal `stop_sequence` keep their input order. */
  lemma TripStopTimes(rows: seq<Row>, t: string)
    ensures var perTrip := GroupByTrip(SortBy(rows, SequenceKey));
      t in perTrip <==> exists i :: 0 <= i < |rows| && Kept(rows[i]) && TripKey(rows[i]) == t
    ensures var perTrip := GroupByTrip(SortBy(rows, SequenceKey));
      t in perTrip ==> perTrip[t] == StopTimesOf(SortBy(Filter(rows, OfTrip(t)), SequenceKey))
    ensures var own := SortBy(Filter(rows, OfTrip(t)), SequenceKey);
      SortedBy(own, SequenceKey) && multiset(own) == multiset(Filter(rows, OfTrip(t)))
    ensures forall k :: Filter(SortBy(Filter(rows, OfTrip(t)), SequenceKey), HasKey(SequenceKey, k))
                     == Filter(Filter(rows, OfTrip(t)), HasKey(SequenceKey, k))
  {
    var sorted := SortBy(rows, SequenceKey);
    var own := Filter(rows, OfTrip(t));
    GroupByTripIsFilter(sorted, t);
    FilterSortBy(rows, SequenceKey, OfTrip(t));
    SortByCorrect(own, SequenceKey);
    FilterEmpty(rows, OfTrip(t));
    if SortBy(own, SequenceKey) == [] {
      assert multiset(own) == multiset{};
    }
    forall k ensures Filter(SortBy(own, SequenceKey), HasKey(SequenceKey, k)) == Filter(own, HasKey(SequenceKey, k)) {
      SortByStable(own, SequenceKey, k);
    }
  }

  // ----- buckets -----

  /** The shard keys of the trips. */
  function ShardsOf(perTrip: map<string, seq<StopTime>>, shardKey: string -> string): set<string>
  {
    set t | t in perTrip :: shardKey(t)
  }

  /** The trips whose shard key is `s`, with their lists. */
  function TripsInShard(perTrip: map<string, seq<StopTime>>, shardKey: string -> string, s: string): GtfsJson.Bucket
  {
    map t | t in perTrip && shardKey(t) == s :: perTrip[t]
  }

  /** `tripStopTimesPerKey` after the bucketing loop. */
  function Buckets(perTrip: map<string, seq<StopTime>>, shardKey: string -> string): (b: map<string, GtfsJson.Bucket>)
    ensures forall t :: t in perTrip ==> shardKey(t) in b && t in b[shardKey(t)] && b[shardKey(t)][t] == perTrip[t]
    ensures forall s, t :: s in b && t in b[s] ==> t in perTrip && shardKey(t) == s
    ensures forall s :: s in b ==> b[s] != map[]
  {
    var b := map s | s in ShardsOf(perTrip, shardKey) :: TripsInShard(perTrip, shardKey, s);
    assert forall s :: s in b ==> exists t :: t in perTrip && shardKey(t) == s && t in b[s];
    b
  }

  lemma ShardsOfAdd(m: map<string, seq<StopTime>>, t: string, v: seq<StopTime>, shardKey: string -> string)
    ensures ShardsOf(m[t := v], shardKey) == ShardsOf(m, shardKey) + {shardKey(t)}
  {
  }

  lemma TripsInShardAdd(m: map<string, seq<StopTime>>, t: string, v: seq<StopTime>, shardKey: string -> string, s: string)
    ensures TripsInShard(m[t := v], shardKey, s)
         == if s == shardKey(t) then TripsInShard(m, shardKey, s)[t := v] else TripsInShard(m, shardKey, s)
  {
  }

  /** `buckets` holds exactly the shards of `done`, each with its trips. */
  ghost predicate BucketsOf(buckets: map<string, GtfsJson.Bucket>, done: map<string, seq<StopTime>>, shardKey: string -> string)
  {
    buckets.Keys == ShardsOf(done, shardKey) &&
    forall s :: s in buckets ==> buckets[s] == TripsInShard(done, shardKey, s)
  }

  lemma BucketStep(buckets: map<string, GtfsJson.Bucket>, done: map<string, seq<StopTime>>, shardKey: string -> string, t: string, v: seq<StopTime>)
    requires BucketsOf(buckets, done, shardKey)
    ensures var key := shardKey(t);
      BucketsOf(buckets[key := (if key in buckets then buckets[key] else map[])[t := v]], done[t := v], shardKey)
  {
    var key := shardKey(t);
    var nb := buckets[key := (if key in buckets then buckets[key] else map[])[t := v]];
    ShardsOfAdd(done, t, v, shardKey);
    if key !in buckets {
      assert TripsInShard(done, shardKey, key) == map[];
    }
    forall s | s in nb ensures nb[s] == TripsInShard(done[t := v], shardKey, s) {
      TripsInShardAdd(done, t, v, shardKey, s);
    }
  }

  lemma BucketsOfIsBuckets(buckets: map<string, GtfsJson.Bucket>, m: map<string, seq<StopTime>>, shardKey: string -> string)
    requires BucketsOf(buckets, m, shardKey)
    ensures buckets == Buckets(m, shardKey)
  {
    var b := Buckets(m, shardKey);
    assert buckets.Keys == b.Keys;
  }

  /** The bucketing loop (api.ts:225-233), taking the trips in any order. */
  method BucketByShard(perTrip: map<string, seq<StopTime>>, shardKey: string -> string) returns (buckets: map<string, GtfsJson.Bucket>)
    ensures buckets == Buckets(perTrip, shardKey)
  {
    buckets := map[];
    var done: map<string, seq<StopTime>> := map[];
    var left := perTrip.Keys;
    while left != {}
      invariant left !! done.Keys && left + done.Keys == perTrip.Keys
      invariant forall t :: t in done ==> done[t] == perTrip[t]
      invariant BucketsOf(buckets, done, shardKey)
      decreases left
    {
      var tripId :| tripId in left;
      var key := shardKey(tripId);
      BucketStep(buckets, done, shardKey, tripId, perTrip[tripId]);
      var bucket := if key in buckets then buckets[key] else map[];
      buckets := buckets[key := bucket[tripId := perTrip[tripId]]];
      done := done[tripId := perTrip[tripId]];
      left := left - {tripId};
    }
    assert done == perTrip;
    BucketsOfIsBuckets(buckets, perTrip, shardKey);
  }
}
