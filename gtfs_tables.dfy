/** The fixed code tables and the per-row conversions of
    src/lib/gtfs/api.ts: stops.txt `location_type`, routes.txt `route_type`,
    the `x || null` / `x ? x.toString() : null` field rules, and the
    records the stops, routes and trips loops key by id. Tables are
    looked up by property key, so a number cell and the string of its
    numeral find the same entry. */
module GtfsTables {
  import opened Wrappers
  import opened JsValues
  import opened GtfsTypes

  // ----- location_type (api.ts:118-124, 138) -----

  /** The GTFS code of each location type. */
  function LocationTypeCode(t: LocationType): (code: nat)
    ensures code <= 4
  {
    match t
    case StopPoint => 0
    case Station => 1
    case Door => 2
    case Generic => 3
    case BoardingArea => 4
  }

  /** `locationTypeMap[k]`: the entries for "0" to "4", otherwise undefined. */
  function LocationTypeForKey(k: string): (r: Option<LocationType>)
    ensures r.Some? ==> k == NatToDecimal(LocationTypeCode(r.value))
    ensures r.None? ==> forall t: LocationType :: k != NatToDecimal(LocationTypeCode(t))
  {
    if k == "0" then Some(StopPoint)
    else if k == "1" then Some(Station)
    else if k == "2" then Some(Door)
    else if k == "3" then Some(Generic)
    else if k == "4" then Some(BoardingArea)
    else None
  }

  /** The `type` of a stop: a falsy code is 'stop', any other code goes
      through the table and may come out undefined. */
  function LocationTypeOf(c: Cell): (r: Option<LocationType>)
    ensures !Truthy(c) ==> r == Some(StopPoint)
    ensures Truthy(c) && r.Some? ==> ToJsString(c) == NatToDecimal(LocationTypeCode(r.value))
    ensures Truthy(c) && r.None? ==> forall t: LocationType :: ToJsString(c) != NatToDecimal(LocationTypeCode(t))
  {
    if Truthy(c) then LocationTypeForKey(ToJsString(c)) else Some(StopPoint)
  }

  /** Every location type is what its code maps to, whether the parser
      produced the code as a number or as a string. */
  lemma LocationTypeCodes(t: LocationType)
    ensures LocationTypeOf(Str(NatToDecimal(LocationTypeCode(t)))) == Some(t)
    ensures LocationTypeCode(t) != 0 ==> LocationTypeOf(Num(LocationTypeCode(t))) == Some(t)
    ensures LocationTypeOf(Num(0)) == Some(StopPoint)
  {
  }

  // ----- route_type (api.ts:155-166, 174) -----

  /** The code of each mode in this app's table. 8 and 9 are the app's own
      codes for trolleybus and monorail. */
  function RouteTypeCode(t: RouteType): (code: nat)
    ensures code <= 9
  {
    match t
    case Tram => 0
    case Subway => 1
    case Train => 2
    case Bus => 3
    case Ferry => 4
    case CableTram => 5
    case CableCar => 6
    case Funicular => 7
    case Trolleybus => 8
    case Monorail => 9
  }

  /** `routeTypeMap[k]`: the entries for "0" to "9", otherwise undefined. */
  function RouteTypeForKey(k: string): (r: Option<RouteType>)
    ensures r.Some? ==> k == NatToDecimal(RouteTypeCode(r.value))
    ensures r.None? ==> forall t: RouteType :: k != NatToDecimal(RouteTypeCode(t))
  {
    if k == "0" then Some(Tram)
    else if k == "1" then Some(Subway)
    else if k == "2" then Some(Train)
    else if k == "3" then Some(Bus)
    else if k == "4" then Some(Ferry)
    else if k == "5" then Some(CableTram)
    else if k == "6" then Some(CableCar)
    else if k == "7" then Some(Funicular)
    else if k == "8" then Some(Trolleybus)
    else if k == "9" then Some(Monorail)
    else None
  }

  /** The `type` of a route: the table entry for the cell's key, with no
      default; an unmapped code (and an absent one) is undefined, not an error. */
  function RouteTypeOf(c: Cell): (r: Option<RouteType>)
    ensures r.Some? ==> ToJsString(c) == NatToDecimal(RouteTypeCode(r.value))
    ensures r.None? ==> forall t: RouteType :: ToJsString(c) != NatToDecimal(RouteTypeCode(t))
  {
    RouteTypeForKey(ToJsString(c))
  }

  lemma RouteTypeCodes(t: RouteType)
    ensures RouteTypeOf(Num(RouteTypeCode(t))) == Some(t)
    ensures RouteTypeOf(Str(NatToDecimal(RouteTypeCode(t)))) == Some(t)
  {
  }

  // ----- field rules -----

  /** `x ? x.toString() : null` */
  function NameOrNull(c: Cell): (r: Option<string>)
    ensures r.Some? <==> Truthy(c)
    ensures r.Some? ==> r.value == ToJsString(c) && r.value != ""
  {
    if Truthy(c) then Some(ToJsString(c)) else None
  }

  /** A stops.txt row as the first stop pass builds it (api.ts:126-141). */
  function MakeStop(row: Row): (s: Stop)
    ensures s.id == Field(row, "stop_id") && s.name == Field(row, "stop_name")
    ensures s.location == Location(Field(row, "stop_lat"), Field(row, "stop_lon"))
    ensures s.kind == LocationTypeOf(Field(row, "location_type"))
    ensures !s.hasChildren
    ensures s.parentStopId.Some? <==> Truthy(Field(row, "parent_station"))
    ensures s.parentStopId.Some? ==> s.parentStopId.value == Field(row, "parent_station")
  {
    Stop(
      Field(row, "stop_id"),
      Field(row, "stop_name"),
      Location(Field(row, "stop_lat"), Field(row, "stop_lon")),
      LocationTypeOf(Field(row, "location_type")),
      OrNull(Field(row, "parent_station")),
      false)
  }

  /** A routes.txt row (api.ts:168-179). */
  function MakeRoute(row: Row): (r: Route)
    ensures r.id == Field(row, "route_id")
    ensures r.name.short == NameOrNull(Field(row, "route_short_name"))
    ensures r.name.long == NameOrNull(Field(row, "route_long_name"))
    ensures r.name.short.Some? <==> Truthy(Field(row, "route_short_name"))
    ensures r.name.long.Some? <==> Truthy(Field(row, "route_long_name"))
    ensures r.kind.Some? ==> ToJsString(Field(row, "route_type")) == NatToDecimal(RouteTypeCode(r.kind.value))
    ensures r.kind.None? ==> forall t: RouteType :: ToJsString(Field(row, "route_type")) != NatToDecimal(RouteTypeCode(t))
    ensures r.color.generic.Some? <==> Truthy(Field(row, "route_color"))
    ensures r.color.generic.Some? ==> r.color.generic.value == Field(row, "route_color")
    ensures r.color.text.Some? <==> Truthy(Field(row, "route_text_color"))
    ensures r.color.text.Some? ==> r.color.text.value == Field(row, "route_text_color")
  {
    Route(
      Field(row, "route_id"),
      RouteName(NameOrNull(Field(row, "route_short_name")), NameOrNull(Field(row, "route_long_name"))),
      RouteTypeOf(Field(row, "route_type")),
      RouteColor(OrNull(Field(row, "route_color")), OrNull(Field(row, "route_text_color"))))
  }

  /** A trips.txt row (api.ts:189-193). */
  function MakeTrip(row: Row): (t: Trip)
    ensures t.id == Field(row, "trip_id") && t.routeId == Field(row, "route_id")
    ensures t.headsign.Some? <==> Truthy(Field(row, "trip_headsign"))
    ensures t.headsign.Some? ==> t.headsign.value == Field(row, "trip_headsign")
  {
    Trip(Field(row, "trip_id"), Field(row, "route_id"), OrNull(Field(row, "trip_headsign")))
  }

  /** `departure_time || end_pickup_drop_off_window` (api.ts:206). */
  function DepartureOf(row: Row): Cell
  {
    var dep := Field(row, "departure_time");
    if Truthy(dep) then dep else Field(row, "end_pickup_drop_off_window")
  }

  /** A stop_times.txt row is kept when it has a departure time or a
      pick-up/drop-off window end (api.ts:205); exactly then is the
      departure value the entry takes truthy. */
  predicate Kept(row: Row)
    ensures Kept(row) <==> Truthy(DepartureOf(row))
  {
    Truthy(Field(row, "departure_time")) || Truthy(Field(row, "end_pickup_drop_off_window"))
  }

  /** The entry a kept row contributes (api.ts:206, 212-215). */
  function StopTimeOf(row: Row): (st: StopTime)
    ensures st.stopId == Field(row, "stop_id")
    ensures Truthy(Field(row, "departure_time")) ==> st.departureTime == Field(row, "departure_time")
    ensures !Truthy(Field(row, "departure_time")) ==> st.departureTime == Field(row, "end_pickup_drop_off_window")
    ensures Kept(row) ==> Truthy(st.departureTime)
  {
    StopTime(Field(row, "stop_id"), DepartureOf(row))
  }

  // ----- records keyed by an id column (stops, routes, trips) -----

  /** The property key a row is stored under in `record[row[column]] = ...`. */
  function RowKey(row: Row, column: string): string
  {
    ToJsString(Field(row, column))
  }

  /** The record left by `for (r of rows) record[r[column]] = make(r)`:
      a later row with the same key overwrites an earlier one. */
  function IndexBy<T>(rows: seq<Row>, column: string, make: Row -> T): (m: map<string, T>)
    ensures rows == [] ==> m == map[]
    ensures rows != [] ==> RowKey(rows[|rows| - 1], column) in m && m[RowKey(rows[|rows| - 1], column)] == make(rows[|rows| - 1])
  {
    if rows == [] then map[]
    else
      var last := rows[|rows| - 1];
      IndexBy(rows[..|rows| - 1], column, make)[RowKey(last, column) := make(last)]
  }

  /** The record's keys are exactly the rows' keys. */
  lemma {:induction false} IndexByKeys<T>(rows: seq<Row>, column: string, make: Row -> T)
    ensures var m := IndexBy(rows, column, make);
      forall k :: k in m <==> exists i :: 0 <= i < |rows| && RowKey(rows[i], column) == k
  {
    if rows != [] {
      var init, last := rows[..|rows| - 1], rows[|rows| - 1];
      IndexByKeys(init, column, make);
      var m := IndexBy(rows, column, make);
      assert m.Keys == IndexBy(init, column, make).Keys + {RowKey(last, column)};
      forall k
        ensures k in m <==> exists i :: 0 <= i < |rows| && RowKey(rows[i], column) == k
      {
        if k in m && k != RowKey(last, column) {
          var i :| 0 <= i < |init| && RowKey(init[i], column) == k;
          assert rows[i] == init[i];
        }
        if exists i :: 0 <= i < |rows| && RowKey(rows[i], column) == k {
          var i :| 0 <= i < |rows| && RowKey(rows[i], column) == k;
          if i < |init| {
            assert init[i] == rows[i];
          }
        }
      }
    }
  }

  /** The entry under a row's key is built from the last row with that key. */
  lemma {:induction false} IndexByLastWins<T>(rows: seq<Row>, column: string, make: Row -> T, i: nat)
    requires i < |rows|
    requires forall j :: i < j < |rows| ==> RowKey(rows[j], column) != RowKey(rows[i], column)
    ensures RowKey(rows[i], column) in IndexBy(rows, column, make)
    ensures IndexBy(rows, column, make)[RowKey(rows[i], column)] == make(rows[i])
  {
    var init, last := rows[..|rows| - 1], rows[|rows| - 1];
    if i < |init| {
      assert rows[i] == init[i];
      assert RowKey(last, column) != RowKey(rows[i], column);
      forall j | i < j < |init|
        ensures RowKey(init[j], column) != RowKey(init[i], column)
      {
        assert init[j] == rows[j];
      }
      IndexByLastWins(init, column, make, i);
    }
  }

  /** Every entry is built from some row with its key. */
  lemma {:induction false} IndexByBuiltFrom<T>(rows: seq<Row>, column: string, make: Row -> T)
    ensures forall k :: k in IndexBy(rows, column, make) ==>
      exists i :: 0 <= i < |rows| && RowKey(rows[i], column) == k && IndexBy(rows, column, make)[k] == make(rows[i])
  {
    if rows != [] {
      var init, last := rows[..|rows| - 1], rows[|rows| - 1];
      IndexByBuiltFrom(init, column, make);
      var m0 := IndexBy(init, column, make);
      var m := IndexBy(rows, column, make);
      forall k | k in m
        ensures exists i :: 0 <= i < |rows| && RowKey(rows[i], column) == k && m[k] == make(rows[i])
      {
        if k == RowKey(last, column) {
          assert rows[|rows| - 1] == last;
        } else {
          assert m == m0[RowKey(last, column) := make(last)];
          assert k in m0 && m[k] == m0[k];
          var i :| 0 <= i < |init| && RowKey(init[i], column) == k && m0[k] == make(init[i]);
          assert rows[i] == init[i];
        }
      }
    }
  }

  /** The routes and trips loops (api.ts:154-180, 188-194). */
  method IndexRows<T>(rows: seq<Row>, column: string, make: Row -> T) returns (record: map<string, T>)
    ensures record == IndexBy(rows, column, make)
  {
    record := map[];
    for i := 0 to |rows|
      invariant record == IndexBy(rows[..i], column, make)
    {
      assert rows[..i + 1][..i] == rows[..i];
      record := record[RowKey(rows[i], column) := make(rows[i])];
    }
    assert rows[..|rows|] == rows;
  }
}
