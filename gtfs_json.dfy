/** The JSON text of one shard bucket, `Record<tripId, StopTime[]>`, as
    src/lib/gtfs/api.ts:251 writes it with `JSON.stringify` and
    src/lib/gtfs/get.ts:8 reads it back with `JSON.parse`. A property whose
    value is `undefined` is left out of the text, as `JSON.stringify` does. */
module GtfsJson {
  import opened Wrappers
  import opened JsValues
  import opened Json
  import opened GtfsTypes

  type Bucket = map<string, seq<StopTime>>

  const StopIdField := "\"stopId\":"
  const DepartureField := "\"departureTime\":"

  // ----- cells -----

  function EncodeCell(c: Cell): (t: string)
    requires !c.Missing?
    ensures |t| > 0
  {
    match c
    case Str(s) => EncodeString(s)
    case Num(n) => IntToDecimal(n)
  }

  function ParseCell(t: string): (r: Option<(Cell, string)>)
    ensures r.Some? ==> |r.value.1| < |t| && !r.value.0.Missing?
  {
    if |t| > 0 && t[0] == '"' then
      match ParseString(t)
      case None => None
      case Some((s, rest)) => Some((Str(s), rest))
    else
      match ParseInt(t)
      case None => None
      case Some((n, rest)) => Some((Num(n), rest))
  }

  lemma CellRoundTrip(c: Cell, rest: string)
    requires !c.Missing? && NotDigitStart(rest)
    ensures ParseCell(EncodeCell(c) + rest) == Some((c, rest))
  {
    match c
    case Str(s) =>
      StringRoundTrip(s, rest);
    case Num(n) =>
      var t := IntToDecimal(n) + rest;
      assert t[0] == '-' || IsDigit(t[0]);
      IntRoundTrip(n, rest);
  }

  // ----- one stop time -----

  function EncodeFields(st: StopTime): string
  {
    if st.stopId.Missing? && st.departureTime.Missing? then ""
    else if st.departureTime.Missing? then StopIdField + EncodeCell(st.stopId)
    else if st.stopId.Missing? then DepartureField + EncodeCell(st.departureTime)
    else StopIdField + EncodeCell(st.stopId) + "," + DepartureField + EncodeCell(st.departureTime)
  }

  function EncodeStopTime(st: StopTime): string
  {
    "{" + EncodeFields(st) + "}"
  }

  /** Reads `"departureTime":<value>}` */
  function ParseDepartureThenClose(t: string): (r: Option<(Cell, string)>)
    ensures r.Some? ==> |r.value.1| < |t|
  {
    match Expect(DepartureField, t)
    case None => None
    case Some(t1) =>
      match ParseCell(t1)
      case None => None
      case Some((c, t2)) =>
        match Expect("}", t2)
        case None => None
        case Some(t3) => Some((c, t3))
  }

  /** Reads what follows `"stopId":<value>`: either `}` or `,"departureTime":<value>}`. */
  function ParseAfterStopId(a: Cell, t: string): (r: Option<(StopTime, string)>)
    ensures r.Some? ==> |r.value.1| < |t|
  {
    match Expect("}", t)
    case Some(t1) => Some((StopTime(a, Missing), t1))
    case None =>
      match Expect(",", t)
      case None => None
      case Some(t1) =>
        match ParseDepartureThenClose(t1)
        case None => None
        case Some((b, t2)) => Some((StopTime(a, b), t2))
  }

  /** Reads `"stopId":<value>` and what follows it. */
  function ParseStopIdFirst(t: string): (r: Option<(StopTime, string)>)
    ensures r.Some? ==> |r.value.1| < |t|
  {
    match ParseCell(t)
    case None => None
    case Some((a, t1)) => ParseAfterStopId(a, t1)
  }

  /** Reads an object without `stopId`: `}` or `"departureTime":<value>}`. */
  function ParseWithoutStopId(t: string): (r: Option<(StopTime, string)>)
    ensures r.Some? ==> |r.value.1| < |t|
  {
    match Expect("}", t)
    case Some(t1) => Some((StopTime(Missing, Missing), t1))
    case None =>
      match ParseDepartureThenClose(t)
      case None => None
      case Some((b, t1)) => Some((StopTime(Missing, b), t1))
  }

  function ParseStopTime(t: string): (r: Option<(StopTime, string)>)
    ensures r.Some? ==> |r.value.1| < |t|
  {
    match Expect("{", t)
    case None => None
    case Some(t1) =>
      match Expect(StopIdField, t1)
      case Some(t2) => ParseStopIdFirst(t2)
      case None => ParseWithoutStopId(t1)
  }

  lemma DepartureRoundTrip(c: Cell, rest: string)
    requires !c.Missing?
    ensures ParseDepartureThenClose(DepartureField + EncodeCell(c) + "}" + rest) == Some((c, rest))
  {
    var t := DepartureField + EncodeCell(c) + "}" + rest;
    assert t == DepartureField + (EncodeCell(c) + ("}" + rest));
    ExpectPrefix(DepartureField, EncodeCell(c) + ("}" + rest));
    CellRoundTrip(c, "}" + rest);
    ExpectPrefix("}", rest);
  }

  lemma StopTimeRoundTrip(st: StopTime, rest: string)
    ensures ParseStopTime(EncodeStopTime(st) + rest) == Some((st, rest))
  {
    if st.stopId.Missing? && st.departureTime.Missing? {
      EmptyFieldsRoundTrip(st, rest);
    } else if st.departureTime.Missing? {
      StopIdOnlyRoundTrip(st, rest);
    } else if st.stopId.Missing? {
      DepartureOnlyRoundTrip(st, rest);
    } else {
      BothFieldsRoundTrip(st, rest);
    }
  }

  /** `"{" + x + "}" + rest` read as `"{"` followed by the rest of the text. */
  lemma Braced(x: string, rest: string)
    ensures "{" + x + "}" + rest == "{" + (x + ("}" + rest))
  {
  }

  lemma EmptyFieldsRoundTrip(st: StopTime, rest: string)
    requires st.stopId.Missing? && st.departureTime.Missing?
    ensures ParseStopTime(EncodeStopTime(st) + rest) == Some((st, rest))
  {
    assert EncodeStopTime(st) + rest == "{" + ("}" + rest);
    ExpectPrefix("{", "}" + rest);
    ExpectMismatch(StopIdField, "}" + rest, 0);
    ExpectPrefix("}", rest);
  }

  lemma StopIdOnlyRoundTrip(st: StopTime, rest: string)
    requires !st.stopId.Missing? && st.departureTime.Missing?
    ensures ParseStopTime(EncodeStopTime(st) + rest) == Some((st, rest))
  {
    var a := st.stopId;
    var afterId := EncodeCell(a) + ("}" + rest);
    var body := StopIdField + afterId;
    Braced(StopIdField + EncodeCell(a), rest);
    assert EncodeStopTime(st) + rest == "{" + body;
    ExpectPrefix("{", body);
    ExpectPrefix(StopIdField, afterId);
    CellRoundTrip(a, "}" + rest);
    ExpectPrefix("}", rest);
    assert ParseAfterStopId(a, "}" + rest) == Some((st, rest));
    assert ParseStopIdFirst(afterId) == Some((st, rest));
  }

  lemma DepartureOnlyRoundTrip(st: StopTime, rest: string)
    requires st.stopId.Missing? && !st.departureTime.Missing?
    ensures ParseStopTime(EncodeStopTime(st) + rest) == Some((st, rest))
  {
    var b := st.departureTime;
    var body := DepartureField + EncodeCell(b) + "}" + rest;
    Braced(DepartureField + EncodeCell(b), rest);
    assert EncodeStopTime(st) + rest == "{" + body;
    ExpectPrefix("{", body);
    ExpectMismatch(StopIdField, body, 1);
    ExpectMismatch("}", body, 0);
    DepartureRoundTrip(b, rest);
    assert ParseWithoutStopId(body) == Some((st, rest));
  }

  lemma DepartureAfterStopId(a: Cell, b: Cell, rest: string)
    requires !b.Missing?
    ensures ParseAfterStopId(a, "," + (DepartureField + EncodeCell(b) + "}" + rest)) == Some((StopTime(a, b), rest))
  {
    var tail := DepartureField + EncodeCell(b) + "}" + rest;
    ExpectMismatch("}", "," + tail, 0);
    ExpectPrefix(",", tail);
    DepartureRoundTrip(b, rest);
  }

  lemma BothFieldsText(st: StopTime, rest: string)
    requires !st.stopId.Missing? && !st.departureTime.Missing?
    ensures EncodeStopTime(st) + rest
         == "{" + (StopIdField + (EncodeCell(st.stopId) + ("," + (DepartureField + EncodeCell(st.departureTime) + "}" + rest))))
  {
    var fields := StopIdField + EncodeCell(st.stopId) + "," + DepartureField + EncodeCell(st.departureTime);
    assert EncodeFields(st) == fields;
    Regroup5(StopIdField, EncodeCell(st.stopId), DepartureField, EncodeCell(st.departureTime), rest);
  }

  lemma Regroup5(p: string, x: string, q: string, y: string, rest: string)
    ensures "{" + (p + x + "," + q + y) + "}" + rest == "{" + (p + (x + ("," + (q + y + "}" + rest))))
  {
  }

  lemma BothFieldsRoundTrip(st: StopTime, rest: string)
    requires !st.stopId.Missing? && !st.departureTime.Missing?
    ensures ParseStopTime(EncodeStopTime(st) + rest) == Some((st, rest))
  {
    var a, b := st.stopId, st.departureTime;
    var tail := DepartureField + EncodeCell(b) + "}" + rest;
    var afterId := EncodeCell(a) + ("," + tail);
    BothFieldsText(st, rest);
    ExpectPrefix("{", StopIdField + afterId);
    ExpectPrefix(StopIdField, afterId);
    CellRoundTrip(a, "," + tail);
    DepartureAfterStopId(a, b, rest);
    assert ParseStopIdFirst(afterId) == Some((st, rest));
  }

  // ----- a list of stop times -----

  function EncodeStopTimeItems(xs: seq<StopTime>): string
    requires |xs| > 0
  {
    if |xs| == 1 then EncodeStopTime(xs[0])
    else EncodeStopTime(xs[0]) + "," + EncodeStopTimeItems(xs[1..])
  }

  function EncodeStopTimes(xs: seq<StopTime>): string
  {
    "[" + (if xs == [] then "" else EncodeStopTimeItems(xs)) + "]"
  }

  function ParseStopTimeItems(t: string): (r: Option<(seq<StopTime>, string)>)
    ensures r.Some? ==> |r.value.1| < |t|
    decreases |t|
  {
    match ParseStopTime(t)
    case None => None
    case Some((x, t1)) =>
      match Expect(",", t1)
      case Some(t2) =>
        (match ParseStopTimeItems(t2)
         case None => None
         case Some((xs, t3)) => Some(([x] + xs, t3)))
      case None =>
        match Expect("]", t1)
        case None => None
        case Some(t2) => Some(([x], t2))
  }

  function ParseStopTimes(t: string): (r: Option<(seq<StopTime>, string)>)
    ensures r.Some? ==> |r.value.1| < |t|
  {
    match Expect("[", t)
    case None => None
    case Some(t1) =>
      match Expect("]", t1)
      case Some(t2) => Some(([], t2))
      case None => ParseStopTimeItems(t1)
  }

  lemma ParseItemsLast(t: string, x: StopTime, rest: string)
    requires ParseStopTime(t) == Some((x, "]" + rest))
    ensures ParseStopTimeItems(t) == Some(([x], rest))
  {
    ExpectMismatch(",", "]" + rest, 0);
    ExpectPrefix("]", rest);
  }

  lemma ParseItemsMore(t: string, x: StopTime, tail: string, xs: seq<StopTime>, rest: string)
    requires ParseStopTime(t) == Some((x, "," + tail))
    requires ParseStopTimeItems(tail) == Some((xs, rest))
    ensures ParseStopTimeItems(t) == Some(([x] + xs, rest))
  {
    ExpectPrefix(",", tail);
  }

  lemma RegroupItems(a: string, b: string, rest: string)
    ensures a + "," + b + "]" + rest == a + ("," + (b + "]" + rest))
  {
  }

  lemma SingleItemRoundTrip(x: StopTime, rest: string)
    ensures ParseStopTimeItems(EncodeStopTime(x) + "]" + rest) == Some(([x], rest))
  {
    var a := EncodeStopTime(x);
    assert a + "]" + rest == a + ("]" + rest);
    StopTimeRoundTrip(x, "]" + rest);
    ParseItemsLast(a + ("]" + rest), x, rest);
  }

  lemma ConsItemRoundTrip(x: StopTime, b: string, xs: seq<StopTime>, rest: string)
    requires ParseStopTimeItems(b + "]" + rest) == Some((xs, rest))
    ensures ParseStopTimeItems(EncodeStopTime(x) + "," + b + "]" + rest) == Some(([x] + xs, rest))
  {
    var a := EncodeStopTime(x);
    var tail := b + "]" + rest;
    RegroupItems(a, b, rest);
    StopTimeRoundTrip(x, "," + tail);
    ParseItemsMore(a + ("," + tail), x, tail, xs, rest);
  }

  lemma {:induction false} StopTimeItemsRoundTrip(xs: seq<StopTime>, rest: string)
    requires |xs| > 0
    ensures ParseStopTimeItems(EncodeStopTimeItems(xs) + "]" + rest) == Some((xs, rest))
  {
    if |xs| == 1 {
      assert EncodeStopTimeItems(xs) == EncodeStopTime(xs[0]);
      SingleItemRoundTrip(xs[0], rest);
      assert xs == [xs[0]];
    } else {
      var b := EncodeStopTimeItems(xs[1..]);
      assert EncodeStopTimeItems(xs) == EncodeStopTime(xs[0]) + "," + b;
      StopTimeItemsRoundTrip(xs[1..], rest);
      ConsItemRoundTrip(xs[0], b, xs[1..], rest);
      assert [xs[0]] + xs[1..] == xs;
    }
  }

  lemma StopTimesRoundTrip(xs: seq<StopTime>, rest: string)
    ensures ParseStopTimes(EncodeStopTimes(xs) + rest) == Some((xs, rest))
  {
    if xs == [] {
      assert EncodeStopTimes(xs) + rest == "[" + ("]" + rest);
      ExpectPrefix("[", "]" + rest);
      ExpectPrefix("]", rest);
    } else {
      var inner := EncodeStopTimeItems(xs) + "]" + rest;
      assert EncodeStopTimes(xs) + rest == "[" + inner;
      ExpectPrefix("[", inner);
      var e := EncodeStopTime(xs[0]);
      assert inner[0] == e[0] == '{';
      ExpectMismatch("]", inner, 0);
      StopTimeItemsRoundTrip(xs, rest);
    }
  }

  // ----- a bucket: an object keyed by trip id -----

  function EncodeEntry(key: string, xs: seq<StopTime>): string
  {
    EncodeString(key) + ":" + EncodeStopTimes(xs)
  }

  /** The entries of `m` in the order `keys` lists them. */
  function EncodeEntries(m: Bucket, keys: seq<string>): string
    requires |keys| > 0 && forall i :: 0 <= i < |keys| ==> keys[i] in m
  {
    if |keys| == 1 then EncodeEntry(keys[0], m[keys[0]])
    else EncodeEntry(keys[0], m[keys[0]]) + "," + EncodeEntries(m, keys[1..])
  }

  function EncodeBucket(m: Bucket, keys: seq<string>): (t: string)
    requires forall i :: 0 <= i < |keys| ==> keys[i] in m
    ensures |t| > 0
  {
    "{" + (if keys == [] then "" else EncodeEntries(m, keys)) + "}"
  }

  function ParseEntry(t: string): (r: Option<((string, seq<StopTime>), string)>)
    ensures r.Some? ==> |r.value.1| < |t|
  {
    match ParseString(t)
    case None => None
    case Some((key, t1)) =>
      match Expect(":", t1)
      case None => None
      case Some(t2) =>
        match ParseStopTimes(t2)
        case None => None
        case Some((xs, t3)) => Some(((key, xs), t3))
  }

  function ParseEntries(t: string): (r: Option<(seq<(string, seq<StopTime>)>, string)>)
    ensures r.Some? ==> |r.value.1| < |t|
    decreases |t|
  {
    match ParseEntry(t)
    case None => None
    case Some((e, t1)) =>
      match Expect(",", t1)
      case Some(t2) =>
        (match ParseEntries(t2)
         case None => None
         case Some((es, t3)) => Some(([e] + es, t3)))
      case None =>
        match Expect("}", t1)
        case None => None
        case Some(t2) => Some(([e], t2))
  }

  function ParseBucket(t: string): (r: Option<(seq<(string, seq<StopTime>)>, string)>)
  {
    match Expect("{", t)
    case None => None
    case Some(t1) =>
      match Expect("}", t1)
      case Some(t2) => Some(([], t2))
      case None => ParseEntries(t1)
  }

  /** Builds the object from its entries; a repeated key keeps its last value, as `JSON.parse` does. */
  function ToMap(entries: seq<(string, seq<StopTime>)>): (m: Bucket)
    ensures forall k :: k in m <==> exists i :: 0 <= i < |entries| && entries[i].0 == k
  {
    if entries == [] then map[]
    else
      var init := entries[..|entries| - 1];
      var m' := ToMap(init);
      assert forall i :: 0 <= i < |init| ==> init[i] == entries[i];
      m'[entries[|entries| - 1].0 := entries[|entries| - 1].1]
  }

  /** `JSON.parse` of a bucket text: the whole text must be one object. */
  function DecodeBucket(t: string): Option<Bucket>
  {
    match ParseBucket(t)
    case Some((entries, rest)) => if rest == "" then Some(ToMap(entries)) else None
    case None => None
  }

  function Pairs(m: Bucket, keys: seq<string>): (ps: seq<(string, seq<StopTime>)>)
    requires forall i :: 0 <= i < |keys| ==> keys[i] in m
    ensures |ps| == |keys|
    ensures forall i :: 0 <= i < |keys| ==> ps[i] == (keys[i], m[keys[i]])
  {
    seq(|keys|, i requires 0 <= i < |keys| => (keys[i], m[keys[i]]))
  }

  lemma ParseEntryOf(t: string, key: string, t1: string, xs: seq<StopTime>, rest: string)
    requires ParseString(t) == Some((key, ":" + t1))
    requires ParseStopTimes(t1) == Some((xs, rest))
    ensures ParseEntry(t) == Some(((key, xs), rest))
  {
    ExpectPrefix(":", t1);
  }

  lemma RegroupEntry(a: string, b: string, rest: string)
    ensures a + ":" + b + rest == a + (":" + (b + rest))
  {
  }

  lemma EntryRoundTrip(key: string, xs: seq<StopTime>, rest: string)
    ensures ParseEntry(EncodeEntry(key, xs) + rest) == Some(((key, xs), rest))
  {
    var a := EncodeString(key);
    var lit := EncodeStopTimes(xs);
    RegroupEntry(a, lit, rest);
    StringRoundTrip(key, ":" + (lit + rest));
    StopTimesRoundTrip(xs, rest);
    ParseEntryOf(a + (":" + (lit + rest)), key, lit + rest, xs, rest);
  }

  lemma ParseEntriesLast(t: string, e: (string, seq<StopTime>), rest: string)
    requires ParseEntry(t) == Some((e, "}" + rest))
    ensures ParseEntries(t) == Some(([e], rest))
  {
    ExpectMismatch(",", "}" + rest, 0);
    ExpectPrefix("}", rest);
  }

  lemma ParseEntriesMore(t: string, e: (string, seq<StopTime>), tail: string, es: seq<(string, seq<StopTime>)>, rest: string)
    requires ParseEntry(t) == Some((e, "," + tail))
    requires ParseEntries(tail) == Some((es, rest))
    ensures ParseEntries(t) == Some(([e] + es, rest))
  {
    ExpectPrefix(",", tail);
  }

  lemma OneEntryRoundTrip(m: Bucket, keys: seq<string>, rest: string)
    requires |keys| == 1 && keys[0] in m
    ensures ParseEntries(EncodeEntries(m, keys) + "}" + rest) == Some((Pairs(m, keys), rest))
  {
    var k := keys[0];
    var xs := m[k];
    var t := EncodeEntry(k, xs) + ("}" + rest);
    assert EncodeEntries(m, keys) + "}" + rest == t;
    EntryRoundTrip(k, xs, "}" + rest);
    ParseEntriesLast(t, (k, xs), rest);
    assert Pairs(m, keys) == [(k, xs)];
  }

  lemma Regroup(a: string, b: string, rest: string)
    ensures a + "," + b + "}" + rest == a + ("," + (b + "}" + rest))
  {
  }

  lemma PairsCons(m: Bucket, keys: seq<string>)
    requires |keys| > 0 && forall i :: 0 <= i < |keys| ==> keys[i] in m
    ensures Pairs(m, keys) == [(keys[0], m[keys[0]])] + Pairs(m, keys[1..])
  {
  }

  lemma MoreEntriesRoundTrip(m: Bucket, keys: seq<string>, rest: string)
    requires |keys| > 1 && forall i :: 0 <= i < |keys| ==> keys[i] in m
    requires ParseEntries(EncodeEntries(m, keys[1..]) + "}" + rest) == Some((Pairs(m, keys[1..]), rest))
    ensures ParseEntries(EncodeEntries(m, keys) + "}" + rest) == Some((Pairs(m, keys), rest))
  {
    var k := keys[0];
    var xs := m[k];
    var a := EncodeEntry(k, xs);
    var b := EncodeEntries(m, keys[1..]);
    var tail := b + "}" + rest;
    assert EncodeEntries(m, keys) == a + "," + b;
    Regroup(a, b, rest);
    EntryRoundTrip(k, xs, "," + tail);
    ParseEntriesMore(a + ("," + tail), (k, xs), tail, Pairs(m, keys[1..]), rest);
    PairsCons(m, keys);
  }

  lemma {:induction false} EntriesRoundTrip(m: Bucket, keys: seq<string>, rest: string)
    requires |keys| > 0 && forall i :: 0 <= i < |keys| ==> keys[i] in m
    ensures ParseEntries(EncodeEntries(m, keys) + "}" + rest) == Some((Pairs(m, keys), rest))
  {
    if |keys| == 1 {
      OneEntryRoundTrip(m, keys, rest);
    } else {
      EntriesRoundTrip(m, keys[1..], rest);
      MoreEntriesRoundTrip(m, keys, rest);
    }
  }

  lemma {:induction false} ToMapPairs(m: Bucket, keys: seq<string>)
    requires forall i :: 0 <= i < |keys| ==> keys[i] in m
    ensures ToMap(Pairs(m, keys)) == map k | k in m && k in keys :: m[k]
  {
    if keys != [] {
      var init := keys[..|keys| - 1];
      ToMapPairs(m, init);
      assert Pairs(m, keys)[..|keys| - 1] == Pairs(m, init);
      assert forall k :: k in keys <==> k in init || k == keys[|keys| - 1];
    }
  }

  lemma EmptyBucketText()
    ensures ParseBucket("{" + "}") == Some(([], ""))
  {
    ExpectPrefix("{", "}");
    ExpectPrefix("}", "");
    assert "}" + "" == "}";
  }

  lemma BucketText(m: Bucket, keys: seq<string>)
    requires |keys| > 0 && forall i :: 0 <= i < |keys| ==> keys[i] in m
    ensures ParseBucket(EncodeBucket(m, keys)) == Some((Pairs(m, keys), ""))
  {
    var inner := EncodeEntries(m, keys) + "}" + "";
    assert EncodeBucket(m, keys) == "{" + inner;
    ExpectPrefix("{", inner);
    assert inner[0] == '"';
    ExpectMismatch("}", inner, 0);
    EntriesRoundTrip(m, keys, "");
  }

  lemma BucketRoundTrip(m: Bucket, keys: seq<string>)
    requires forall i :: 0 <= i < |keys| ==> keys[i] in m
    requires forall k :: k in m ==> k in keys
    ensures DecodeBucket(EncodeBucket(m, keys)) == Some(m)
  {
    if keys == [] {
      EmptyBucketText();
      assert EncodeBucket(m, keys) == "{" + "}";
    } else {
      BucketText(m, keys);
    }
    ToMapPairs(m, keys);
    assert (map k | k in m && k in keys :: m[k]) == m;
  }

  /** `JSON.stringify` of a bucket. The order in which the object's keys are
      listed is not modelled: any order is chosen, and every order decodes back
      to the same bucket. */
  method Stringify(m: Bucket) returns (text: string)
    ensures DecodeBucket(text) == Some(m)
    ensures |text| > 0
  {
    var keys: seq<string> := [];
    var left := m.Keys;
    while left != {}
      invariant left <= m.Keys
      invariant forall i :: 0 <= i < |keys| ==> keys[i] in m
      invariant forall k :: k in m ==> k in left || k in keys
      decreases left
    {
      var k :| k in left;
      keys := keys + [k];
      left := left - {k};
    }
    text := EncodeBucket(m, keys);
    BucketRoundTrip(m, keys);
  }
}
