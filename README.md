# FindMyBus ingestion core, modelled in Dafny

FindMyBus is a transit app. It downloads a GTFS static archive and a
GTFS-Realtime vehicle feed. It normalises both into the snapshots its
stores hold, and it persists each trip's stop times so it can read them
back when the user taps a vehicle. This project models that core and proves
properties of it:

- **Static normaliser** (`fetchStaticGtfs`, `gtfs_static.dfy` and the
  modules it imports):
  - checks that the five required files are present;
  - reads the agency name;
  - indexes stops, routes and trips by id, with later rows winning;
  - marks parent stations;
  - sorts stop times stably by `stop_sequence` and groups them per trip;
  - shards the per-trip lists by a hash of the trip id;
  - publishes the snapshot;
  - writes each shard through the chunked storage.
- **Chunked storage** (`file_storage.dfy`):
  - `saveData` and `loadData` on a key/value backend that depends on the platform;
  - `saveDataInChunks` splits the data into slices of 4194304 characters
    and writes `key.0`, `key.1`, … and `key.metadata`;
  - `loadDataInChunks` reads them back.
- **Shard serialisation** (`json.dfy`, `gtfs_json.dfy`): the text a bucket
  of trips is written as, with a decoder that inverts it.
- **Reading a trip back** (`getStopTimesForTrip`, `gtfs_get.dfy`).
- **Realtime vehicle mapping** (`fetchRealtimeGtfs`, `gtfs_realtime.dfy`):
  over a decoded feed, one vehicle record per entity that carries a vehicle
  position, in feed order.
- **The byte copy of `base64ToUint8Array`** (`byte_copy.dfy`): the loop
  that turns the binary string into a `Uint8Array`.
- **`parseStopTimeStringToLocalTimezoneToday`** (`stop_time_string.dfy`):
  a GTFS "H:MM:SS" string placed on today's date.

## How the model is built

- **CSV cells.** A cell is modelled as `Str`, `Num` or `Missing`. Dynamic
  typing can also give `null` and booleans; see "## Left out".
  JavaScript truthiness (`Truthy`) and the property-key conversion
  (`ToJsString`; a number becomes its decimal numeral) are written out.
  This is why a numeric stop id `12` and a string id `"12"` land under the
  same record key.
- **Records built in place.** The code fills `Record<string, …>` objects
  inside loops. These become methods over `map` values. Each method is
  proved equal to a recursive function that takes the last row last, so a
  later row with the same key wins.
- **Mutable state.**
  - The storage backend is the class `FileStorage.Storage`, holding the
    platform and a map of entries.
  - The svelte stores are the classes `GtfsStatic.StaticDataStore` and
    `GtfsRealtime.RealtimeDataStore`.
  - The byte copy fills a fresh `array`.
- **Sorting.** `Array.prototype.sort` is a stable sort, as ECMAScript 2019
  and later require. It is modelled as a stable insertion sort. The model
  proves that the sort gives a sorted permutation, that it commutes with
  filtering, and that it is stable.
- **JSON.** `JSON.stringify` and `JSON.parse` are modelled by a concrete
  codec for the shapes the core writes: a bucket object, stop-time arrays
  and stop-time objects, and the chunk metadata. Both round trips are proved.
  The order in which `Stringify` emits a bucket's keys is left unspecified:
  it picks some order, and any order decodes to the same bucket.

## Model

| member | source | states |
|---|---|---|
| JsValues.ToJsString | src/lib/gtfs/api.ts:131 | a cell used as a record key: a string is itself, a number its decimal numeral (with a minus sign when negative), an absent value "undefined" |
| JsValues.OrNull | src/lib/gtfs/api.ts:126 | `x \|\| null` yields the cell exactly when it is truthy, and null otherwise |
| JsValues.DecimalRoundTrip | src/lib/gtfs/api.ts:131 | the decimal numeral of a natural number reads back as that number |
| JsValues.DecimalInjective | src/lib/gtfs/api.ts:131 | two different natural numbers never have the same decimal numeral |
| JsValues.NumberKeyInjective | src/lib/gtfs/api.ts:131 | two different numbers, negative ones included, never give the same record key |
| ByteCopy.ToUint8 | src/lib/gtfs/api.ts:20 | storing a char code into a Uint8Array keeps it modulo 256, and unchanged when it is below 256 |
| ByteCopy.BinaryStringToBytes | src/lib/gtfs/api.ts:15-23 | the returned array is fresh, as long as the binary string, and byte i is the code of char i |
| ByteCopy.BinaryRoundTrip | src/lib/gtfs/api.ts:15-23 | on a binary string (every code below 256), bytes and string convert into each other without loss, both ways |
| Json.StringRoundTrip | src/lib/gtfs/api.ts:251 | an encoded string, followed by any text, parses back to the same string and leaves that text |
| Json.IntRoundTrip | src/lib/gtfs/api.ts:251 | an encoded integer, negative ones included, parses back to the same integer when the next character is not a digit |
| GtfsJson.CellRoundTrip | src/lib/gtfs/api.ts:251 | a stop id or departure cell (string or number) parses back to the same cell |
| GtfsJson.StopTimeRoundTrip | src/lib/gtfs/api.ts:212-215 | every stop-time object, with either field absent (omitted, as JSON.stringify omits undefined) or present, parses back to itself |
| GtfsJson.StopTimesRoundTrip | src/lib/gtfs/api.ts:251 | a trip's stop-time array parses back to the same list, in the same order |
| GtfsJson.EntriesRoundTrip | src/lib/gtfs/api.ts:251 | a bucket's entries, written in a given key order, parse back to the same (trip id, list) pairs in that order |
| GtfsJson.ToMapPairs | src/lib/gtfs/get.ts:8 | collecting the parsed pairs into an object gives back exactly the bucket's entries for the listed keys |
| GtfsJson.BucketRoundTrip | src/lib/gtfs/get.ts:8 | a bucket written in any order of all its keys decodes to the same bucket |
| GtfsJson.Stringify | src/lib/gtfs/api.ts:251 | the text written for a bucket is non-empty and decodes to exactly that bucket |
| FileStorage.Load | src/lib/file-storage/index.ts:32-52 | a read succeeds only on a supported platform for a present key, and then gives the stored value; a present non-empty value is always readable; an absent key fails, on web with "Data not found" and on android with the file system's error, both modelled as `DataNotFound`; on web an empty value also fails with "Data not found"; on android a present key is read whatever it holds; an unsupported platform always fails |
| FileStorage.Storage.SaveData | src/lib/file-storage/index.ts:12-30 | on web or android the key is set to the data and nothing else changes; on any other platform it fails with "Unsupported platform" and changes nothing |
| FileStorage.Storage.LoadData | src/lib/file-storage/index.ts:32-52 | reads the entry as `Load` does |
| FileStorage.MetadataRoundTrip | src/lib/file-storage/index.ts:71-77 | the metadata record written by a chunked save parses back to the same version, chunk count and chunk size |
| FileStorage.SplitIntoChunks | src/lib/file-storage/index.ts:55-60 | the split loop produces exactly the slices at offsets 0, 4194304, 8388608, … |
| FileStorage.ChunksShape | src/lib/file-storage/index.ts:55-60 | ceil(length / 4194304) chunks; none empty; each at most 4194304 characters; all but the last exactly that long; together they concatenate to the data |
| FileStorage.ChunkKeyInjective | src/lib/file-storage/index.ts:64 | different chunk indexes give different chunk keys |
| FileStorage.ChunkKeyIsNotMetadataKey | src/lib/file-storage/index.ts:64 | no chunk key of a key collides with its metadata key |
| FileStorage.SavedKeysAreOwned | src/lib/file-storage/index.ts:64 | every key a chunked save of `key` writes belongs to `key`'s layout, so saves of different keys never overwrite each other |
| FileStorage.SaveWritesOnlyItsKeys | src/lib/file-storage/index.ts:62-77 | after a chunked save, the metadata key holds the metadata and chunk key i holds chunk i; every other key is unchanged |
| FileStorage.Storage.SaveDataInChunks | src/lib/file-storage/index.ts:54-78 | on a supported platform the backend becomes the chunked save of the data; otherwise the save fails with "Unsupported platform" and leaves the backend as it was |
| FileStorage.Storage.LoadDataInChunks | src/lib/file-storage/index.ts:80-92 | reads the metadata and then chunks 0..count-1, concatenated, as `LoadChunked` defines |
| FileStorage.LoadChunked | src/lib/file-storage/index.ts:80-92 | what a chunked load yields: the metadata read, its parse, then chunks 0..count-1 concatenated (its outcomes are stated by `LoadChunkedAborts` and `SaveLoadRoundTrip`) |
| FileStorage.LoadChunkedAborts | src/lib/file-storage/index.ts:80-82 | an unsupported platform fails with "Unsupported platform"; absent metadata fails with "Data not found"; unparsable metadata fails as malformed; a success had valid metadata |
| FileStorage.SavedInChunks | src/lib/file-storage/index.ts:54-78 | the backend after a chunked save: the metadata key holds the encoded metadata (version 0, the chunk count, 4194304); its chunk keys are stated by `SaveWritesOnlyItsKeys` |
| FileStorage.LoadChunksFailureSticks | src/lib/file-storage/index.ts:87-89 | when every earlier chunk is read, the first chunk that cannot be read fails the whole load with its error |
| FileStorage.AnyMissingChunkFails | src/lib/file-storage/index.ts:87-89 | an absent chunk anywhere among the first n makes reading n chunks fail, whatever the chunks before it hold |
| FileStorage.MissingChunkFails | src/lib/file-storage/index.ts:80-92 | on a supported platform, a chunked load fails whenever any chunk its metadata counts is absent |
| FileStorage.SaveLoadRoundTrip | src/lib/file-storage/index.ts:54-92 | on a supported platform, loading in chunks right after saving in chunks gives back the data, whatever the backend held before |
| FileStorage.SaveKeepsOtherLayouts | src/lib/file-storage/index.ts:54-78 | a chunked save of one key leaves every other key's metadata and chunks as they were |
| FileStorage.LoadChunkedOnlyReadsLayout | src/lib/file-storage/index.ts:80-92 | a chunked load depends only on the keys in its own layout |
| GtfsStatic.FirstMissing | src/lib/gtfs/api.ts:97-103 | none is missing exactly when every required file is present; otherwise it names the first absent file in the listed order |
| GtfsStatic.CheckRequiredFiles | src/lib/gtfs/api.ts:97-103 | the check loop stops at that same first missing file |
| GtfsStatic.AgencyName | src/lib/gtfs/api.ts:106-107 | the name is the first agency row's `agency_name` when that is truthy; an empty file aborts with "no agency record", and a falsy name with "Failed to find agency name" |
| GtfsTables.LocationTypeOf | src/lib/gtfs/api.ts:118-124 | a falsy location type (absent, empty or 0) is 'stop'; a truthy one maps by its code 0-4, and any other value yields no type |
| GtfsTables.LocationTypeCodes | src/lib/gtfs/api.ts:138 | each location type's code maps back to that type, whether the cell holds a number or a string |
| GtfsTables.MakeStop | src/lib/gtfs/api.ts:126-141 | the stop record: id, name, latitude and longitude taken from their columns, the location type mapped by `LocationTypeOf`, no children yet, and `parent_station` as parent id exactly when it is truthy |
| GtfsTables.RouteTypeOf | src/lib/gtfs/api.ts:155-166 | a route type maps to the route kind whose code 0-9 it spells; anything else yields no kind, not an error |
| GtfsTables.RouteTypeCodes | src/lib/gtfs/api.ts:174 | each route kind's code maps back to that kind, from a numeric cell or a string cell |
| GtfsTables.NameOrNull | src/lib/gtfs/api.ts:171-172 | a short or long name is present exactly when the cell is truthy, and is then its string form |
| GtfsTables.MakeRoute | src/lib/gtfs/api.ts:168-179 | the route record: its id, short and long names as `NameOrNull` gives them (present exactly when truthy), a kind from the code table, and each colour the cell itself exactly when truthy |
| GtfsTables.MakeTrip | src/lib/gtfs/api.ts:189-193 | the trip record: its id and route id, and a headsign exactly when it is truthy |
| GtfsTables.Kept | src/lib/gtfs/api.ts:205-206 | a stop-time row is kept exactly when the departure it would take (`departure_time`, else `end_pickup_drop_off_window`) is truthy |
| GtfsTables.StopTimeOf | src/lib/gtfs/api.ts:205-215 | a kept stop-time row yields its stop id and a truthy departure time, taken from `departure_time` or else from `end_pickup_drop_off_window` |
| GtfsTables.IndexBy | src/lib/gtfs/api.ts:131 | the record built by assigning each row under its id in order: no rows give an empty record, and the last row is always found under its own id |
| GtfsTables.IndexByKeys | src/lib/gtfs/api.ts:131 | the record has a key exactly when some row has that id |
| GtfsTables.IndexByLastWins | src/lib/gtfs/api.ts:131 | the record under an id is the one built from the last row with that id |
| GtfsTables.IndexByBuiltFrom | src/lib/gtfs/api.ts:131 | every record entry was built from a row with that id |
| GtfsStops.ParentIdsMentions | src/lib/gtfs/api.ts:126-129 | the collected parent ids mention a key exactly when some stops row names it as its truthy `parent_station` |
| GtfsStops.BuildStops | src/lib/gtfs/api.ts:114-142 | the first stops loop builds the stops record keyed by stop id and the parent ids in row order |
| GtfsTables.IndexRows | src/lib/gtfs/api.ts:154-194 | the routes and trips loops build the record keyed by id, with the last row winning |
| GtfsStops.LinkParents | src/lib/gtfs/api.ts:144-146 | marking parents never adds or removes a stop key; a failure names an id that is not a stop; with no parent ids the stops are unchanged |
| GtfsStops.LinkParentsEffect | src/lib/gtfs/api.ts:144-146 | marking succeeds exactly when every parent id is a stop key; a failure names an absent, mentioned id; a success keeps the keys and sets `hasChildren` on exactly the mentioned stops |
| GtfsStops.MarkParents | src/lib/gtfs/api.ts:144-146 | the marking loop computes `LinkParents`, whose effect is stated above |
| GtfsStops.StopsHaveChildren | src/lib/gtfs/api.ts:117-146 | after both stop loops a stop has children exactly when some row names it as parent; the passes fail exactly when a named parent is not a stop |
| StableSort.SortBy | src/lib/gtfs/api.ts:200 | the stable sort keeps the length; sortedness, permutation and stability are the lemmas below |
| StableSort.SortByCorrect | src/lib/gtfs/api.ts:200 | the sorted stop times are ordered by `stop_sequence` and are a permutation of the input |
| StableSort.FilterSortBy | src/lib/gtfs/api.ts:200 | sorting and then keeping one trip's rows equals keeping them and then sorting |
| StableSort.SortByStable | src/lib/gtfs/api.ts:200 | rows with equal `stop_sequence` keep their file order |
| StableSort.SortByUniformKey | src/lib/gtfs/api.ts:200 | a list whose rows all share one key is left as it is |
| GtfsStopTimes.GroupByTrip | src/lib/gtfs/api.ts:204-216 | the per-trip record: no rows give an empty record and no trip has an empty list (the lists themselves are stated by `GroupByTripIsFilter`) |
| GtfsStopTimes.StopTimesOf | src/lib/gtfs/api.ts:212-215 | one entry per row, in row order |
| GtfsStopTimes.GroupStopTimes | src/lib/gtfs/api.ts:202-216 | the grouping loop computes `GroupByTrip` of the sorted rows |
| GtfsStopTimes.GroupByTripIsFilter | src/lib/gtfs/api.ts:204-216 | a trip has a list exactly when it has a kept row, and the list is the entries of its kept rows in order |
| GtfsStopTimes.TripStopTimes | src/lib/gtfs/api.ts:200-216 | a trip's list is its own kept rows sorted stably by `stop_sequence`: sorted, a permutation of them, and with file order kept among equal sequence numbers |
| GtfsStopTimes.Buckets | src/lib/gtfs/api.ts:223-233 | every trip is in the bucket of its shard key with its list; a bucket holds only trips of that shard; no bucket is empty |
| GtfsStopTimes.BucketsOfIsBuckets | src/lib/gtfs/api.ts:225-233 | any bucketing that places each trip by its shard key, and contains nothing else, equals `Buckets` |
| GtfsStopTimes.BucketByShard | src/lib/gtfs/api.ts:223-233 | the sharding loop computes `Buckets` |
| GtfsStatic.Normalize | src/lib/gtfs/api.ts:97-233 | a missing required file aborts with that file's name; with all present, a bad agency record aborts with the agency error; a success implies all five files are present and a valid agency name, and its snapshot has data type version 0, the given timestamp and that agency name |
| GtfsStatic.NormalizedStops | src/lib/gtfs/api.ts:111-146 | the ingestion fails at the stop passes exactly when a parent station is not a stop id, and then names one; otherwise the stops are keyed by stop id and have children exactly when named as parent |
| GtfsStatic.NormalizedRoutes | src/lib/gtfs/api.ts:149-180 | the routes record is keyed by the route ids, and each entry is the record built from a row with that id |
| GtfsStatic.NormalizedTrips | src/lib/gtfs/api.ts:183-194 | the trips record is keyed by the trip ids, and each entry is the record built from a row with that id |
| GtfsStatic.NormalizedBuckets | src/lib/gtfs/api.ts:196-233 | each trip with a kept row is in the bucket of its shard key with its stably sorted list; no bucket holds any other trip |
| GtfsStatic.SaveBucketStep | src/lib/gtfs/api.ts:250-252 | saving one more bucket stores it and keeps every bucket stored before readable |
| GtfsStatic.SaveFrameStep | src/lib/gtfs/api.ts:250-252 | saving one more bucket keeps every key that no written bucket owns |
| GtfsStatic.WriteBuckets | src/lib/gtfs/api.ts:250-252 | the write loop succeeds exactly when the platform is supported or there is nothing to write; it then leaves every bucket readable under its shard key; a failure changes nothing; keys of no bucket stay untouched |
| GtfsStatic.FetchStaticGtfs | src/lib/gtfs/api.ts:74-256 | a normalisation error aborts before anything is published or written; otherwise the snapshot is published, and then the buckets are written with `WriteBuckets`' guarantees (an unsupported platform fails after publishing) |
| GtfsGet.StopTimesForTrip | src/lib/gtfs/get.ts:6-10 | unsupported platform, absent metadata, and on a supported platform any chunk the metadata counts but the backend lacks, all fail; an empty stored bucket gives undefined; a returned list is the one stored for the trip in its shard's bucket |
| GtfsGet.LookupStoredBucket | src/lib/gtfs/get.ts:6-10 | with the trip's shard bucket stored, the lookup gives the trip's list or undefined |
| GtfsGet.LookupPersisted | src/lib/gtfs/get.ts:6-10 | when all buckets are persisted, looking a trip up gives its entry in its shard's bucket |
| GtfsGet.ReadAfterWrite | src/lib/gtfs/get.ts:6-10 | after a successful ingestion has persisted its buckets, a trip with kept rows reads back as its stably sorted stop times; a trip without kept rows in an existing shard reads back as undefined |
| GtfsRealtime.StringOrNull | src/lib/gtfs/api.ts:291 | a string field is kept exactly when it is non-empty |
| GtfsRealtime.NumberOrNull | src/lib/gtfs/api.ts:297-298 | bearing and speed are kept exactly when non-zero |
| GtfsRealtime.VehicleOf | src/lib/gtfs/api.ts:287-300 | the vehicle id is the descriptor's when truthy, else a random id; the trip id and stop id are present exactly when truthy; the position is present exactly when latitude and longitude are both non-zero, and then carries them with bearing and speed or null |
| GtfsRealtime.VehiclesOf | src/lib/gtfs/api.ts:283-302 | the vehicles list after the loop holds at most one vehicle per entity (which ones and in which order is `VehiclesInFeedOrder`) |
| GtfsRealtime.VehicleIndices | src/lib/gtfs/api.ts:285-286 | the positions of the entities that carry a vehicle, strictly increasing, all of them |
| GtfsRealtime.VehiclesInFeedOrder | src/lib/gtfs/api.ts:285-302 | the j-th vehicle is the record of the j-th entity that carries a vehicle |
| GtfsRealtime.VehicleIdsNonEmpty | src/lib/gtfs/api.ts:289 | when random ids are never empty, no vehicle has an empty id |
| GtfsRealtime.MapVehicles | src/lib/gtfs/api.ts:283-302 | the vehicle loop computes `VehiclesOf` |
| GtfsRealtime.FetchRealtimeGtfs | src/lib/gtfs/api.ts:276-311 | the store receives the local timestamp, the feed timestamp and the mapped vehicles |
| StopTimeString.SplitColon | src/lib/utils/index.ts:2 | at least one part, and no part contains a colon |
| StopTimeString.SplitJoin | src/lib/utils/index.ts:2 | joining the parts with colons gives the string back |
| StopTimeString.NumeralValue | src/lib/utils/index.ts:2 | `Number` of a decimal numeral is its value |
| StopTimeString.SecondsOrZero | src/lib/utils/index.ts:11 | absent or NaN seconds count as 0; a numeric seconds part counts as its value |
| StopTimeString.ParseStopTime | src/lib/utils/index.ts:1-14 | a valid result is always on today's date |
| StopTimeString.ParseHms | src/lib/utils/index.ts:1-14 | "H:M:S" with digit fields (leading zeros allowed, an empty field read as 0) gives today at H hours, M minutes and S seconds after midnight |
| StopTimeString.ParseHm | src/lib/utils/index.ts:1-14 | "H:M" with digit fields gives today at H hours and M minutes, with the seconds taken as 0 |
| StopTimeString.ParseWithoutColon | src/lib/utils/index.ts:1-14 | a string without a colon has no minutes and gives an invalid date |
| StopTimeString.LaterDay | src/lib/utils/index.ts:5-13 | a GTFS time of 24 hours or more lands floor(H/24) days after today, at the time (H mod 24):M:S |

## Left out

- HTTP downloads (`CapacitorHttp.get`), the zip extraction, the CSV parser and
  the protobuf decoder are not modelled. The model starts from their output:
  parsed rows keyed by file name, and decoded feed entities.
- `window.atob` is not modelled; the byte copy starts from the binary string it returns.
- `getStopTimesDataKeyFromTripId` is not part of this model. The shard key is a
  function parameter `shardKey`, so the model assumes it is deterministic.
- Console logging is left out.
- `new Date().toString()` and the feed timestamp conversion are left out. The
  timestamps are string parameters.
- `Math.random().toString()` is left out. It is the parameter `randomId`,
  indexed by the entity's position in the feed.
- Svelte store subscribers are left out; a store is a class with one field.
- JSON text: the model writes JSON-like text of its own, without whitespace,
  in an order it picks. Byte-for-byte agreement with `JSON.stringify` and
  JavaScript's insertion-order property enumeration are not modelled. Only
  the round trip is.
- FileStorage.DecodeMetadata and GtfsJson.DecodeBucket invert only the
  model's own encoders. Text that `JSON.parse` accepts but they do not
  (whitespace, `\u` escapes, another field order) gives
  `MalformedData`. Metadata without `chunkCount`, which the code reads as
  zero chunks and so loads as `''`, is `MalformedData` too.
- JsValues.ToJsString: the CSV parser's dynamic typing turns an empty field
  into `null` and "true"/"false" into booleans; the model has neither. An
  empty field is `Missing`, like an absent column, so where the code keys a
  record by an empty `stop_id` or `trip_id` under "null" the model uses
  "undefined", and where `JSON.stringify` writes `"stopId":null` the model
  omits the field. Both values are falsy, so every truthiness decision
  (parent stations, names, colours, kept stop times) is the same. Boolean
  cells and their keys "true"/"false" are not modelled.
- FileStorage.Storage.LoadData on android: an absent file makes the file system reject
  with its own error, which the model reports as `DataNotFound`.
- Prototype property names (`__proto__`, `constructor`, …) used as ids are not modelled.
- Floating-point values are left out:
  - A CSV number is an integer cell in the model.
  - A decimal CSV value, such as a coordinate, is carried as an uninterpreted
    string cell. Its key form after float rounding (`1.50` becoming "1.5") is
    not modelled.
  - Feed coordinates, bearing and speed are `real`, without float rounding.
- StopTimeString.ToNumber: only empty strings, digit runs and signed digit
  runs are numbers. Whitespace, decimals, exponents, hexadecimal and "Infinity"
  are treated as NaN, unlike JavaScript's full `Number` grammar.
- StopTimeString.ParseStopTime: the result is today's date plus an offset in
  milliseconds from local midnight. `Date` normalisation of the calendar
  date, time zones, daylight-saving shifts and the range limit of `Date` are
  not modelled.
- FileStorage.SplitIntoChunks, FileStorage.ChunksShape, FileStorage.SaveLoadRoundTrip
  and ByteCopy.BinaryStringToBytes: a string is a sequence of Unicode scalar
  values, so lengths and offsets count characters. JavaScript counts UTF-16
  code units in `data.length` and `substring`. A character outside the Basic
  Multilingual Plane that straddles a chunk boundary is split into two lone
  surrogates there, and the UTF-8 file backend re-encodes them. Neither is
  modelled. Chunk contents and the round trip are exact for text whose
  characters all lie in the Basic Multilingual Plane. The binary string that
  `atob` returns has only codes below 256, so the byte copy is not affected.
- GtfsStopTimes.SequenceKey: a `stop_sequence` that is not a number sorts
  with key 0. In JavaScript the comparator would return NaN, which the sort
  treats as 0 for that pair only; that comparison is not modelled.
- Storage quotas are not modelled: a localStorage write that exceeds the quota
  is assumed to succeed. Filesystem I/O errors other than a missing file are not
  modelled either.
- The code comment above the write loop says stop times are not saved on web,
  but the code saves them on web too. The model follows the code.
- Concurrency between overlapping `await`s is not modelled. Each operation runs to completion.
- The route type code table yields `undefined` for an unknown code instead of
  raising an error. The model follows the code: `RouteTypeOf` gives `None`.
