/** src/lib/file-storage/index.ts: a key/value backend selected by platform
    (`localStorage` on web, files on Android), and the chunked layout that
    splits a large string over the keys `<key>.0`, `<key>.1`, … and records
    the split under `<key>.metadata`. The backend is a map from key to
    string; the platform is a constant of the store. */
module FileStorage {
  import opened Wrappers
  import opened JsValues
  import opened Json

  const ChunkSize: nat := 4194304

  datatype StorageError = UnsupportedPlatform | DataNotFound | MalformedData

  /** Only these two platforms have a backend; 'ios' and the rest throw. */
  predicate Supported(platform: string)
  {
    platform == "web" || platform == "android"
  }

  /** What `loadData(key)` yields when the backend holds `entries`. On web an
      empty value is refused like a missing one (`if (!value)`). */
  function Load(platform: string, entries: map<string, string>, key: string): (r: Result<string, StorageError>)
    ensures r.Ok? ==> Supported(platform) && key in entries && r.value == entries[key]
    ensures Supported(platform) && key in entries && entries[key] != "" ==> r.Ok?
    ensures !Supported(platform) ==> r == Err(UnsupportedPlatform)
    ensures Supported(platform) && key !in entries ==> r == Err(DataNotFound)
    ensures platform == "web" && key in entries && entries[key] == "" ==> r == Err(DataNotFound)
    ensures platform == "android" && key in entries ==> r == Ok(entries[key])
  {
    if platform == "web" then
      if key in entries && entries[key] != "" then Ok(entries[key]) else Err(DataNotFound)
    else if platform == "android" then
      if key in entries then Ok(entries[key]) else Err(DataNotFound)
    else
      Err(UnsupportedPlatform)
  }

  // ----- chunk metadata -----

  datatype ChunkMetadata = ChunkMetadata(dataTypeVersion: int, chunkCount: int, chunkSize: int)

  const VersionField := "{\"dataTypeVersion\":"
  const CountField := ",\"chunkCount\":"
  const SizeField := ",\"chunkSize\":"

  function EncodeMetadata(md: ChunkMetadata): (t: string)
    ensures |t| > 0
  {
    VersionField + IntToDecimal(md.dataTypeVersion)
    + CountField + IntToDecimal(md.chunkCount)
    + SizeField + IntToDecimal(md.chunkSize) + "}"
  }

  /** Reads `<field><integer>` from the front of `t`. */
  function ParseField(field: string, t: string): Option<(int, string)>
  {
    match Expect(field, t)
    case None => None
    case Some(t1) => ParseInt(t1)
  }

  function DecodeMetadata(t: string): Option<ChunkMetadata>
  {
    match ParseField(VersionField, t)
    case None => None
    case Some((v, t1)) =>
      match ParseField(CountField, t1)
      case None => None
      case Some((n, t2)) =>
        match ParseField(SizeField, t2)
        case None => None
        case Some((size, t3)) =>
          if t3 == "}" then Some(ChunkMetadata(v, n, size)) else None
  }

  lemma FieldRoundTrip(field: string, n: int, rest: string)
    requires NotDigitStart(rest)
    ensures ParseField(field, field + IntToDecimal(n) + rest) == Some((n, rest))
  {
    assert field + IntToDecimal(n) + rest == field + (IntToDecimal(n) + rest);
    ExpectPrefix(field, IntToDecimal(n) + rest);
    IntRoundTrip(n, rest);
  }

  lemma MetadataRoundTrip(md: ChunkMetadata)
    ensures DecodeMetadata(EncodeMetadata(md)) == Some(md)
  {
    var v, c, s := IntToDecimal(md.dataTypeVersion), IntToDecimal(md.chunkCount), IntToDecimal(md.chunkSize);
    var tail3 := "}";
    var tail2 := SizeField + s + tail3;
    var tail1 := CountField + c + tail2;
    assert EncodeMetadata(md) == VersionField + v + tail1;
    FieldRoundTrip(VersionField, md.dataTypeVersion, tail1);
    FieldRoundTrip(CountField, md.chunkCount, tail2);
    FieldRoundTrip(SizeField, md.chunkSize, tail3);
  }

  // ----- derived keys -----

  function ChunkKey(key: string, i: nat): string
  {
    key + "." + NatToDecimal(i)
  }

  function MetadataKey(key: string): string
  {
    key + ".metadata"
  }

  /** The position of the last '.' in `k`. */
  function LastDot(k: string): (r: Option<nat>)
    ensures r.Some? ==> r.value < |k| && k[r.value] == '.'
  {
    if k == [] then None
    else if k[|k| - 1] == '.' then Some(|k| - 1)
    else LastDot(k[..|k| - 1])
  }

  /** The logical key whose chunked layout may contain the stored key `k`:
      the text before the last '.', when the text after it is "metadata" or a
      chunk number. */
  function Owner(k: string): Option<string>
  {
    match LastDot(k)
    case None => None
    case Some(i) =>
      var suffix := k[i + 1..];
      if suffix == "metadata" || (suffix != "" && AllDigits(suffix)) then Some(k[..i]) else None
  }

  lemma {:induction false} LastDotOf(key: string, suffix: string)
    requires forall j :: 0 <= j < |suffix| ==> suffix[j] != '.'
    ensures LastDot(key + "." + suffix) == Some(|key|)
  {
    var k := key + "." + suffix;
    if suffix != [] {
      var shorter := suffix[..|suffix| - 1];
      assert k[..|k| - 1] == key + "." + shorter;
      LastDotOf(key, shorter);
    }
  }

  lemma ChunkKeyOwner(key: string, i: nat)
    ensures Owner(ChunkKey(key, i)) == Some(key)
  {
    var d := NatToDecimal(i);
    LastDotOf(key, d);
    var k := key + "." + d;
    assert k[|key| + 1..] == d;
    assert k[..|key|] == key;
  }

  lemma MetadataKeyOwner(key: string)
    ensures Owner(MetadataKey(key)) == Some(key)
  {
    LastDotOf(key, "metadata");
    var k := key + "." + "metadata";
    assert MetadataKey(key) == k;
    assert k[|key| + 1..] == "metadata";
    assert k[..|key|] == key;
  }

  lemma ChunkKeyInjective(key: string, i: nat, j: nat)
    requires ChunkKey(key, i) == ChunkKey(key, j)
    ensures i == j
  {
    var p := key + ".";
    assert ChunkKey(key, i)[|p|..] == NatToDecimal(i);
    assert ChunkKey(key, j)[|p|..] == NatToDecimal(j);
    DecimalInjective(i, j);
  }

  lemma ChunkKeyIsNotMetadataKey(key: string, i: nat)
    ensures ChunkKey(key, i) != MetadataKey(key)
  {
    var d := NatToDecimal(i);
    assert ChunkKey(key, i)[|key| + 1] == d[0];
    assert MetadataKey(key)[|key| + 1] == 'm';
  }

  // ----- splitting and joining -----

  function Min(a: int, b: int): int { if a < b then a else b }

  /** The slices `data.substring(i, i + ChunkSize)` for i = from, from + ChunkSize, … below |data|. */
  function ChunksFrom(data: string, from: nat): seq<string>
    decreases |data| - from
  {
    if from >= |data| then []
    else [data[from..Min(from + ChunkSize, |data|)]] + ChunksFrom(data, from + ChunkSize)
  }

  function Chunks(data: string): seq<string>
  {
    ChunksFrom(data, 0)
  }

  /** `data += chunk` over the chunks in index order. */
  function Concat(chunks: seq<string>): string
  {
    if chunks == [] then "" else Concat(chunks[..|chunks| - 1]) + chunks[|chunks| - 1]
  }

  lemma {:induction false} ConcatPrepend(x: string, chunks: seq<string>)
    ensures Concat([x] + chunks) == x + Concat(chunks)
  {
    if chunks != [] {
      var all := [x] + chunks;
      assert all[..|all| - 1] == [x] + chunks[..|chunks| - 1];
      ConcatPrepend(x, chunks[..|chunks| - 1]);
    } else {
      assert [x][..0] == [];
    }
  }

  lemma {:induction false} ChunksFromLength(data: string, from: nat)
    requires from <= |data|
    ensures |ChunksFrom(data, from)| == (|data| - from + ChunkSize - 1) / ChunkSize
    decreases |data| - from
  {
    if from + ChunkSize <= |data| {
      ChunksFromLength(data, from + ChunkSize);
    }
  }

  lemma {:induction false} ChunksFromAt(data: string, from: nat, j: nat)
    requires from <= |data| && j < |ChunksFrom(data, from)|
    ensures from + j * ChunkSize < |data|
    ensures ChunksFrom(data, from)[j] == data[from + j * ChunkSize..Min(from + (j + 1) * ChunkSize, |data|)]
    decreases j
  {
    if j > 0 {
      var rest := ChunksFrom(data, from + ChunkSize);
      assert ChunksFrom(data, from)[j] == rest[j - 1];
      ChunksFromAt(data, from + ChunkSize, j - 1);
      assert from + ChunkSize + (j - 1) * ChunkSize == from + j * ChunkSize;
    }
  }

  lemma {:induction false} ChunksFromConcat(data: string, from: nat)
    requires from <= |data|
    ensures Concat(ChunksFrom(data, from)) == data[from..]
    decreases |data| - from
  {
    if from < |data| {
      var head := data[from..Min(from + ChunkSize, |data|)];
      var rest := ChunksFrom(data, from + ChunkSize);
      if from + ChunkSize <= |data| {
        ChunksFromConcat(data, from + ChunkSize);
        assert data[from..] == head + data[from + ChunkSize..];
      } else {
        assert rest == [];
      }
      ConcatPrepend(head, rest);
    }
  }

  lemma ChunksFromShape(data: string, from: nat)
    requires from <= |data|
    ensures |ChunksFrom(data, from)| == (|data| - from + ChunkSize - 1) / ChunkSize
    ensures forall j :: 0 <= j < |ChunksFrom(data, from)| ==>
      ChunksFrom(data, from)[j] == data[from + j * ChunkSize..Min(from + (j + 1) * ChunkSize, |data|)]
    ensures Concat(ChunksFrom(data, from)) == data[from..]
  {
    ChunksFromLength(data, from);
    forall j | 0 <= j < |ChunksFrom(data, from)|
      ensures ChunksFrom(data, from)[j] == data[from + j * ChunkSize..Min(from + (j + 1) * ChunkSize, |data|)]
    {
      ChunksFromAt(data, from, j);
    }
    ChunksFromConcat(data, from);
  }

  /** The chunk layout of index.ts:56-60: ceil(|data| / ChunkSize) chunks,
      each non-empty and at most ChunkSize long, all but the last exactly
      ChunkSize long, whose concatenation in index order is `data`. */
  lemma ChunksShape(data: string)
    ensures |Chunks(data)| == (|data| + ChunkSize - 1) / ChunkSize
    ensures data == "" <==> Chunks(data) == []
    ensures forall j :: 0 <= j < |Chunks(data)| ==> 0 < |Chunks(data)[j]| <= ChunkSize
    ensures forall j :: 0 <= j < |Chunks(data)| - 1 ==> |Chunks(data)[j]| == ChunkSize
    ensures Concat(Chunks(data)) == data
  {
    ChunksFromShape(data, 0);
    var cs := Chunks(data);
    forall j | 0 <= j < |cs|
      ensures 0 < |cs[j]| <= ChunkSize
      ensures j < |cs| - 1 ==> |cs[j]| == ChunkSize
    {
      assert cs[j] == data[j * ChunkSize..Min((j + 1) * ChunkSize, |data|)];
      if j < |cs| - 1 {
        assert (j + 1) * ChunkSize <= |data|;
      }
    }
    assert data[0..] == data;
  }

  // ----- the backend after a chunked save -----

  /** `entries` after chunks 0 .. n-1 were written in order. */
  function WithChunks(entries: map<string, string>, key: string, chunks: seq<string>, n: nat): map<string, string>
    requires n <= |chunks|
  {
    if n == 0 then entries
    else WithChunks(entries, key, chunks, n - 1)[ChunkKey(key, n - 1) := chunks[n - 1]]
  }

  function MetadataFor(data: string): ChunkMetadata
  {
    ChunkMetadata(0, |Chunks(data)|, ChunkSize)
  }

  /** The backend after a successful `saveDataInChunks(key, data)`. */
  function SavedInChunks(entries: map<string, string>, key: string, data: string): (r: map<string, string>)
    ensures MetadataKey(key) in r && r[MetadataKey(key)] == EncodeMetadata(MetadataFor(data))
  {
    var cs := Chunks(data);
    WithChunks(entries, key, cs, |cs|)[MetadataKey(key) := EncodeMetadata(MetadataFor(data))]
  }

  /** k is one of `<key>.0` … `<key>.(n-1)`. */
  ghost predicate IsChunkKeyBelow(k: string, key: string, n: nat)
  {
    exists i :: 0 <= i < n && k == ChunkKey(key, i)
  }

  lemma {:induction false} WithChunksAt(entries: map<string, string>, key: string, chunks: seq<string>, n: nat, j: nat)
    requires n <= |chunks| && j < n
    ensures ChunkKey(key, j) in WithChunks(entries, key, chunks, n)
    ensures WithChunks(entries, key, chunks, n)[ChunkKey(key, j)] == chunks[j]
  {
    if j < n - 1 {
      WithChunksAt(entries, key, chunks, n - 1, j);
      if ChunkKey(key, n - 1) == ChunkKey(key, j) {
        ChunkKeyInjective(key, n - 1, j);
      }
    }
  }

  lemma {:induction false} WithChunksFrame(entries: map<string, string>, key: string, chunks: seq<string>, n: nat, k: string)
    requires n <= |chunks| && !IsChunkKeyBelow(k, key, n)
    ensures k in WithChunks(entries, key, chunks, n) <==> k in entries
    ensures k in entries ==> WithChunks(entries, key, chunks, n)[k] == entries[k]
  {
    if n > 0 {
      assert k != ChunkKey(key, n - 1);
      WithChunksFrame(entries, key, chunks, n - 1, k);
    }
  }

  /** A chunked save writes `<key>.i` for each chunk and `<key>.metadata`, and
      no other key. */
  lemma SaveWritesOnlyItsKeys(entries: map<string, string>, key: string, data: string)
    ensures var saved := SavedInChunks(entries, key, data);
      && MetadataKey(key) in saved
      && saved[MetadataKey(key)] == EncodeMetadata(MetadataFor(data))
      && (forall j :: 0 <= j < |Chunks(data)| ==>
            ChunkKey(key, j) in saved && saved[ChunkKey(key, j)] == Chunks(data)[j])
      && (forall k :: k != MetadataKey(key) && !IsChunkKeyBelow(k, key, |Chunks(data)|) ==>
            (k in saved <==> k in entries) && (k in entries ==> saved[k] == entries[k]))
  {
    var cs := Chunks(data);
    forall j | 0 <= j < |cs|
      ensures ChunkKey(key, j) in SavedInChunks(entries, key, data)
      ensures SavedInChunks(entries, key, data)[ChunkKey(key, j)] == cs[j]
    {
      WithChunksAt(entries, key, cs, |cs|, j);
      ChunkKeyIsNotMetadataKey(key, j);
    }
    forall k | k != MetadataKey(key) && !IsChunkKeyBelow(k, key, |cs|)
      ensures k in SavedInChunks(entries, key, data) <==> k in entries
      ensures k in entries ==> SavedInChunks(entries, key, data)[k] == entries[k]
    {
      WithChunksFrame(entries, key, cs, |cs|, k);
    }
  }

  /** Every key a chunked save writes belongs to `key`'s layout. */
  lemma SavedKeysAreOwned(key: string, data: string, k: string)
    requires k == MetadataKey(key) || IsChunkKeyBelow(k, key, |Chunks(data)|)
    ensures Owner(k) == Some(key)
  {
    if k == MetadataKey(key) {
      MetadataKeyOwner(key);
    } else {
      var i :| 0 <= i < |Chunks(data)| && k == ChunkKey(key, i);
      ChunkKeyOwner(key, i);
    }
  }

  // ----- the backend as a chunked load sees it -----

  /** Loads chunks 0 .. n-1 in order and concatenates them; the first chunk
      that cannot be loaded decides the error. */
  function LoadChunks(platform: string, entries: map<string, string>, key: string, n: nat): Result<string, StorageError>
  {
    if n == 0 then Ok("")
    else
      match LoadChunks(platform, entries, key, n - 1)
      case Err(e) => Err(e)
      case Ok(prefix) =>
        match Load(platform, entries, ChunkKey(key, n - 1))
        case Err(e) => Err(e)
        case Ok(chunk) => Ok(prefix + chunk)
  }

  /** What `loadDataInChunks(key)` yields. */
  function LoadChunked(platform: string, entries: map<string, string>, key: string): (r: Result<string, StorageError>)
    ensures !Supported(platform) ==> r == Err(UnsupportedPlatform)
  {
    match Load(platform, entries, MetadataKey(key))
    case Err(e) => Err(e)
    case Ok(text) =>
      match DecodeMetadata(text)
      case None => Err(MalformedData)
      case Some(md) => LoadChunks(platform, entries, key, if md.chunkCount < 0 then 0 else md.chunkCount)
  }

  /** How a chunked load fails before reading any chunk: an unsupported
      platform, absent metadata, and metadata that is not valid JSON. */
  lemma LoadChunkedAborts(platform: string, entries: map<string, string>, key: string)
    ensures !Supported(platform) ==> LoadChunked(platform, entries, key) == Err(UnsupportedPlatform)
    ensures Supported(platform) && MetadataKey(key) !in entries ==> LoadChunked(platform, entries, key) == Err(DataNotFound)
    ensures Load(platform, entries, MetadataKey(key)).Ok? && DecodeMetadata(entries[MetadataKey(key)]).None? ==>
              LoadChunked(platform, entries, key) == Err(MalformedData)
    ensures LoadChunked(platform, entries, key).Ok? ==>
              MetadataKey(key) in entries && DecodeMetadata(entries[MetadataKey(key)]).Some?
  {
  }

  /** Two backends that agree on every key of `key`'s layout. */
  ghost predicate AgreeOnLayout(e1: map<string, string>, e2: map<string, string>, key: string)
  {
    forall k :: Owner(k) == Some(key) ==> (k in e1 <==> k in e2) && (k in e1 ==> e1[k] == e2[k])
  }

  lemma {:induction false} LoadChunksOnlyReadsLayout(platform: string, e1: map<string, string>, e2: map<string, string>, key: string, n: nat)
    requires AgreeOnLayout(e1, e2, key)
    ensures LoadChunks(platform, e1, key, n) == LoadChunks(platform, e2, key, n)
  {
    if n > 0 {
      LoadChunksOnlyReadsLayout(platform, e1, e2, key, n - 1);
      ChunkKeyOwner(key, n - 1);
    }
  }

  /** A chunked load reads nothing outside `key`'s layout. */
  lemma LoadChunkedOnlyReadsLayout(platform: string, e1: map<string, string>, e2: map<string, string>, key: string)
    requires AgreeOnLayout(e1, e2, key)
    ensures LoadChunked(platform, e1, key) == LoadChunked(platform, e2, key)
  {
    MetadataKeyOwner(key);
    if MetadataKey(key) in e1 {
      var md := DecodeMetadata(e1[MetadataKey(key)]);
      if md.Some? {
        LoadChunksOnlyReadsLayout(platform, e1, e2, key, if md.value.chunkCount < 0 then 0 else md.value.chunkCount);
      }
    }
  }

  /** A chunked save under one key leaves the layout of every other key as it was. */
  lemma SaveKeepsOtherLayouts(entries: map<string, string>, key: string, data: string, other: string)
    requires other != key
    ensures AgreeOnLayout(entries, SavedInChunks(entries, key, data), other)
  {
    SaveWritesOnlyItsKeys(entries, key, data);
    forall k | Owner(k) == Some(other)
      ensures k != MetadataKey(key) && !IsChunkKeyBelow(k, key, |Chunks(data)|)
    {
      if k == MetadataKey(key) || IsChunkKeyBelow(k, key, |Chunks(data)|) {
        SavedKeysAreOwned(key, data, k);
      }
    }
  }

  lemma {:induction false} LoadSavedChunks(platform: string, entries: map<string, string>, key: string, data: string, n: nat)
    requires Supported(platform) && n <= |Chunks(data)|
    ensures LoadChunks(platform, SavedInChunks(entries, key, data), key, n) == Ok(Concat(Chunks(data)[..n]))
  {
    if n > 0 {
      var cs := Chunks(data);
      LoadSavedChunks(platform, entries, key, data, n - 1);
      SavedChunkAt(entries, key, data, n - 1);
      assert cs[..n][..n - 1] == cs[..n - 1];
    }
  }

  /** Chunk j of a chunked save is stored, non-empty, under `<key>.j`. */
  lemma SavedChunkAt(entries: map<string, string>, key: string, data: string, j: nat)
    requires j < |Chunks(data)|
    ensures ChunkKey(key, j) in SavedInChunks(entries, key, data)
    ensures SavedInChunks(entries, key, data)[ChunkKey(key, j)] == Chunks(data)[j] != ""
  {
    var cs := Chunks(data);
    WithChunksAt(entries, key, cs, |cs|, j);
    ChunkKeyIsNotMetadataKey(key, j);
    ChunksShape(data);
  }

  /** Any absent chunk among the first n, not only the first one read,
      makes reading n chunks fail. */
  lemma {:induction false} AnyMissingChunkFails(platform: string, entries: map<string, string>, key: string, j: nat, n: nat)
    requires Supported(platform) && j < n && ChunkKey(key, j) !in entries
    ensures LoadChunks(platform, entries, key, n).Err?
  {
    if n > j + 1 {
      AnyMissingChunkFails(platform, entries, key, j, n - 1);
    }
  }

  /** The backend holds parsable metadata for `key` but lacks one of the
      chunks it counts. */
  ghost predicate MissingChunk(entries: map<string, string>, key: string)
  {
    MetadataKey(key) in entries && DecodeMetadata(entries[MetadataKey(key)]).Some? &&
    exists j: nat :: j < DecodeMetadata(entries[MetadataKey(key)]).value.chunkCount && ChunkKey(key, j) !in entries
  }

  /** `loadDataInChunks` fails when any chunk the metadata counts is absent. */
  lemma MissingChunkFails(platform: string, entries: map<string, string>, key: string)
    ensures Supported(platform) && MissingChunk(entries, key) ==> LoadChunked(platform, entries, key).Err?
  {
    if Supported(platform) && MissingChunk(entries, key) {
      var md := DecodeMetadata(entries[MetadataKey(key)]).value;
      var j: nat :| j < md.chunkCount && ChunkKey(key, j) !in entries;
      AnyMissingChunkFails(platform, entries, key, j, md.chunkCount);
    }
  }

  /** Round trip (index.ts:54-92): on a supported platform, loading a key
      right after saving it in chunks returns the saved string, whatever
      else the backend held before. */
  lemma SaveLoadRoundTrip(platform: string, entries: map<string, string>, key: string, data: string)
    requires Supported(platform)
    ensures LoadChunked(platform, SavedInChunks(entries, key, data), key) == Ok(data)
  {
    var cs := Chunks(data);
    SaveWritesOnlyItsKeys(entries, key, data);
    MetadataRoundTrip(MetadataFor(data));
    LoadSavedChunks(platform, entries, key, data, |cs|);
    ChunksShape(data);
    assert cs[..|cs|] == cs;
  }

  lemma {:induction false} LoadChunksFailureSticks(platform: string, entries: map<string, string>, key: string, i: nat, n: nat, e: StorageError)
    requires i < n
    requires LoadChunks(platform, entries, key, i).Ok?
    requires Load(platform, entries, ChunkKey(key, i)) == Err(e)
    ensures LoadChunks(platform, entries, key, n) == Err(e)
  {
    if n > i + 1 {
      LoadChunksFailureSticks(platform, entries, key, i, n - 1, e);
    }
  }

  /** The first loop of `saveDataInChunks`: slices of ChunkSize characters,
      pushed in order. */
  method SplitIntoChunks(data: string) returns (chunks: seq<string>)
    ensures chunks == Chunks(data)
  {
    chunks := [];
    var i: nat := 0;
    while i < |data|
      invariant chunks + ChunksFrom(data, i) == Chunks(data)
      decreases |data| - i
    {
      chunks := chunks + [data[i..Min(i + ChunkSize, |data|)]];
      i := i + ChunkSize;
    }
  }

  /** The storage backend of the running app. */
  class Storage {
    const platform: string
    var entries: map<string, string>

    constructor (platform: string, entries: map<string, string>)
      ensures this.platform == platform && this.entries == entries
    {
      this.platform := platform;
      this.entries := entries;
    }

    /** `saveData`: overwrites one key; throws on an unsupported platform. */
    method SaveData(key: string, data: string) returns (r: Outcome<StorageError>)
      modifies this
      ensures r.Pass? <==> Supported(platform)
      ensures r.Fail? ==> r.error == UnsupportedPlatform
      ensures entries == if Supported(platform) then old(entries)[key := data] else old(entries)
    {
      if platform == "web" || platform == "android" {
        entries := entries[key := data];
        r := Pass;
      } else {
        r := Fail(UnsupportedPlatform);
      }
    }

    /** `loadData`. */
    method LoadData(key: string) returns (r: Result<string, StorageError>)
      ensures r == Load(platform, entries, key)
    {
      if platform == "web" {
        if key in entries && entries[key] != "" {
          r := Ok(entries[key]);
        } else {
          r := Err(DataNotFound);
        }
      } else if platform == "android" {
        if key in entries {
          r := Ok(entries[key]);
        } else {
          r := Err(DataNotFound);
        }
      } else {
        r := Err(UnsupportedPlatform);
      }
    }

    /** `saveDataInChunks`: splits, writes the chunks in index order, then the metadata. */
    method SaveDataInChunks(key: string, data: string) returns (r: Outcome<StorageError>)
      modifies this
      ensures r.Pass? <==> Supported(platform)
      ensures r.Fail? ==> r.error == UnsupportedPlatform
      ensures entries == if Supported(platform) then SavedInChunks(old(entries), key, data) else old(entries)
    {
      var chunks := SplitIntoChunks(data);
      var j := 0;
      while j < |chunks|
        invariant 0 <= j <= |chunks|
        invariant !Supported(platform) ==> j == 0
        invariant entries == WithChunks(old(entries), key, chunks, j)
      {
        r := SaveData(ChunkKey(key, j), chunks[j]);
        if r.Fail? {
          return;
        }
        j := j + 1;
      }

      r := SaveData(MetadataKey(key), EncodeMetadata(ChunkMetadata(0, |chunks|, ChunkSize)));
    }

    /** `loadDataInChunks`: the metadata first, then chunks 0 .. chunkCount-1 in order. */
    method LoadDataInChunks(key: string) returns (r: Result<string, StorageError>)
      ensures r == LoadChunked(platform, entries, key)
    {
      var meta := LoadData(MetadataKey(key));
      if meta.Err? {
        return Err(meta.error);
      }
      var md := DecodeMetadata(meta.value);
      if md.None? {
        return Err(MalformedData);
      }
      var count := md.value.chunkCount;
      var n: nat := if count < 0 then 0 else count;
      var data := "";
      var i: nat := 0;
      while i < count
        invariant i <= n
        invariant LoadChunks(platform, entries, key, i) == Ok(data)
      {
        var chunk := LoadData(ChunkKey(key, i));
        if chunk.Err? {
          LoadChunksFailureSticks(platform, entries, key, i, n, chunk.error);
          return Err(chunk.error);
        }
        assert LoadChunks(platform, entries, key, i + 1) == Ok(data + chunk.value);
        data := data + chunk.value;
        i := i + 1;
      }
      assert i == n;
      r := Ok(data);
    }
  }
}
