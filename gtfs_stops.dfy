/** The stop passes of `fetchStaticGtfs` (src/lib/gtfs/api.ts): the first
    loop over the stops, collecting the parent stop ids, and the second
    pass that marks parents. */
module GtfsStops {
  import opened Wrappers
  import opened JsValues
  import opened GtfsTypes
  import opened GtfsTables

  /** The ids pushed onto `parentStopIds`: each row's truthy `parent_station`, in row order. */
  function ParentIds(rows: seq<Row>): seq<Cell>
  {
    if rows == [] then []
    else
      var p := Field(rows[|rows| - 1], "parent_station");
      ParentIds(rows[..|rows| - 1]) + (if Truthy(p) then [p] else [])
  }

  /** Some id in `ids` has the property key `k`. */
  predicate Mentions(ids: seq<Cell>, k: string)
  {
    exists j :: 0 <= j < |ids| && ToJsString(ids[j]) == k
  }

  /** Some stops.txt row names the stop with key `k` as its parent station. */
  predicate IsParentKey(rows: seq<Row>, k: string)
  {
    exists i :: 0 <= i < |rows| && Truthy(Field(rows[i], "parent_station")) && ToJsString(Field(rows[i], "parent_station")) == k
  }

  lemma MentionsAppend(ids: seq<Cell>, more: seq<Cell>, k: string)
    ensures Mentions(ids + more, k) <==> Mentions(ids, k) || Mentions(more, k)
  {
    var all := ids + more;
    if Mentions(all, k) {
      var j :| 0 <= j < |all| && ToJsString(all[j]) == k;
      if j < |ids| {
        assert all[j] == ids[j];
      } else {
        assert all[j] == more[j - |ids|];
      }
    }
    if Mentions(ids, k) {
      var j :| 0 <= j < |ids| && ToJsString(ids[j]) == k;
      assert all[j] == ids[j];
    }
    if Mentions(more, k) {
      var j :| 0 <= j < |more| && ToJsString(more[j]) == k;
      assert all[|ids| + j] == more[j];
    }
  }

  lemma IsParentKeySnoc(rows: seq<Row>, k: string)
    requires rows != []
    ensures var p := Field(rows[|rows| - 1], "parent_station");
      IsParentKey(rows, k) <==> IsParentKey(rows[..|rows| - 1], k) || (Truthy(p) && ToJsString(p) == k)
  {
    var init := rows[..|rows| - 1];
    if IsParentKey(rows, k) {
      var i :| 0 <= i < |rows| && Truthy(Field(rows[i], "parent_station")) && ToJsString(Field(rows[i], "parent_station")) == k;
      if i < |init| {
        assert init[i] == rows[i];
      }
    }
    if IsParentKey(init, k) {
      var i :| 0 <= i < |init| && Truthy(Field(init[i], "parent_station")) && ToJsString(Field(init[i], "parent_station")) == k;
      assert rows[i] == init[i];
    }
  }

  lemma {:induction false} ParentIdsMentions(rows: seq<Row>, k: string)
    ensures Mentions(ParentIds(rows), k) <==> IsParentKey(rows, k)
  {
    if rows != [] {
      var init := rows[..|rows| - 1];
      var p := Field(rows[|rows| - 1], "parent_station");
      var more := if Truthy(p) then [p] else [];
      ParentIdsMentions(init, k);
      MentionsAppend(ParentIds(init), more, k);
      IsParentKeySnoc(rows, k);
      if Truthy(p) {
        assert Mentions(more, k) <==> ToJsString(p) == k by {
          assert more[0] == p;
        }
      }
    }
  }

  /** The first stops loop (api.ts:117-142): fills the stop record and
      collects the parent ids. */
  method BuildStops(rows: seq<Row>) returns (stops: map<string, Stop>, parentIds: seq<Cell>)
    ensures stops == IndexBy(rows, "stop_id", MakeStop)
    ensures parentIds == ParentIds(rows)
  {
    stops := map[];
    parentIds := [];
    for i := 0 to |rows|
      invariant stops == IndexBy(rows[..i], "stop_id", MakeStop)
      invariant parentIds == ParentIds(rows[..i])
    {
      assert rows[..i + 1][..i] == rows[..i];
      var record := rows[i];
      var parentStopId := Field(record, "parent_station");
      if Truthy(parentStopId) {
        parentIds := parentIds + [parentStopId];
      }
      stops := stops[RowKey(record, "stop_id") := MakeStop(record)];
    }
    assert rows[..|rows|] == rows;
  }

  /** The second stops loop (api.ts:144-146): sets `hasChildren` on each
      listed stop in order; an id that is not a stop is a TypeError, which
      aborts the pass and is reported here as `Err` of that id's key. */
  function LinkParents(stops: map<string, Stop>, ids: seq<Cell>): (r: Result<map<string, Stop>, string>)
    ensures r.Ok? ==> r.value.Keys == stops.Keys
    ensures r.Err? ==> r.error !in stops
    ensures ids == [] ==> r == Ok(stops)
  {
    if ids == [] then Ok(stops)
    else
      var k := ToJsString(ids[0]);
      if k !in stops then Err(k)
      else LinkParents(stops[k := stops[k].(hasChildren := true)], ids[1..])
  }

  /** The pass fails exactly when some listed id is not a stop, and then
      names such an id; otherwise it keeps the keys and every other field and
      sets `hasChildren` on exactly the listed stops. */
  lemma {:induction false} LinkParentsEffect(stops: map<string, Stop>, ids: seq<Cell>)
    ensures LinkParents(stops, ids).Ok? <==> forall j :: 0 <= j < |ids| ==> ToJsString(ids[j]) in stops
    ensures LinkParents(stops, ids).Err? ==>
      var k := LinkParents(stops, ids).error; k !in stops && Mentions(ids, k)
    ensures LinkParents(stops, ids).Ok? ==>
      var s := LinkParents(stops, ids).value;
      s.Keys == stops.Keys &&
      forall k :: k in s ==> s[k] == stops[k].(hasChildren := stops[k].hasChildren || Mentions(ids, k))
  {
    if ids != [] {
      var k0 := ToJsString(ids[0]);
      var rest := ids[1..];
      forall k ensures Mentions(ids, k) <==> k == k0 || Mentions(rest, k)
      {
        if Mentions(rest, k) {
          var j :| 0 <= j < |rest| && ToJsString(rest[j]) == k;
          assert ids[j + 1] == rest[j];
        }
        if Mentions(ids, k) && k != k0 {
          var j :| 0 <= j < |ids| && ToJsString(ids[j]) == k;
          assert rest[j - 1] == ids[j];
        }
      }
      if k0 in stops {
        var stops' := stops[k0 := stops[k0].(hasChildren := true)];
        LinkParentsEffect(stops', rest);
        assert (forall j :: 0 <= j < |ids| ==> ToJsString(ids[j]) in stops)
           <==> (forall j :: 0 <= j < |rest| ==> ToJsString(rest[j]) in stops') by {
          if forall j :: 0 <= j < |rest| ==> ToJsString(rest[j]) in stops' {
            forall j | 0 <= j < |ids| ensures ToJsString(ids[j]) in stops {
              if j > 0 { assert ids[j] == rest[j - 1]; }
            }
          }
        }
      } else {
        assert !(ToJsString(ids[0]) in stops);
      }
    }
  }

  /** The stop passes together: they succeed exactly when every parent
      station names a stop, and then a stop has children exactly when some
      row names it as its parent station. */
  lemma StopsHaveChildren(rows: seq<Row>)
    ensures var built := IndexBy(rows, "stop_id", MakeStop);
      LinkParents(built, ParentIds(rows)).Ok? <==>
        forall i :: 0 <= i < |rows| && Truthy(Field(rows[i], "parent_station")) ==> ToJsString(Field(rows[i], "parent_station")) in built
    ensures var built := IndexBy(rows, "stop_id", MakeStop);
      LinkParents(built, ParentIds(rows)).Ok? ==>
        var stops := LinkParents(built, ParentIds(rows)).value;
        stops.Keys == built.Keys &&
        forall k :: k in stops ==> stops[k] == built[k].(hasChildren := IsParentKey(rows, k))
  {
    var built := IndexBy(rows, "stop_id", MakeStop);
    var ids := ParentIds(rows);
    LinkParentsEffect(built, ids);
    IndexByBuiltFrom(rows, "stop_id", MakeStop);
    forall k ensures Mentions(ids, k) <==> IsParentKey(rows, k) {
      ParentIdsMentions(rows, k);
    }
    assert (forall j :: 0 <= j < |ids| ==> ToJsString(ids[j]) in built) <==>
      forall i :: 0 <= i < |rows| && Truthy(Field(rows[i], "parent_station")) ==> ToJsString(Field(rows[i], "parent_station")) in built
    by {
      if forall j :: 0 <= j < |ids| ==> ToJsString(ids[j]) in built {
        forall i | 0 <= i < |rows| && Truthy(Field(rows[i], "parent_station"))
          ensures ToJsString(Field(rows[i], "parent_station")) in built
        {
          var k := ToJsString(Field(rows[i], "parent_station"));
          assert IsParentKey(rows, k);
          assert Mentions(ids, k);
        }
      }
      if forall i :: 0 <= i < |rows| && Truthy(Field(rows[i], "parent_station")) ==> ToJsString(Field(rows[i], "parent_station")) in built {
        forall j | 0 <= j < |ids| ensures ToJsString(ids[j]) in built {
          var k := ToJsString(ids[j]);
          assert Mentions(ids, k);
          assert IsParentKey(rows, k);
        }
      }
    }
    forall k | k in built ensures !built[k].hasChildren {
      var i :| 0 <= i < |rows| && RowKey(rows[i], "stop_id") == k && built[k] == MakeStop(rows[i]);
    }
  }

  /** The second loop as the source runs it: stop by stop, in list order. */
  method MarkParents(stops: map<string, Stop>, ids: seq<Cell>) returns (r: Result<map<string, Stop>, string>)
    ensures r == LinkParents(stops, ids)
  {
    var current := stops;
    for i := 0 to |ids|
      invariant LinkParents(current, ids[i..]) == LinkParents(stops, ids)
    {
      assert ids[i..][1..] == ids[i + 1..];
      var k := ToJsString(ids[i]);
      if k !in current {
        return Err(k);
      }
      current := current[k := current[k].(hasChildren := true)];
    }
    r := Ok(current);
  }
}
