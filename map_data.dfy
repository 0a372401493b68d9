/**
 * MapDataService: for every station that has actual (non-prediction)
 * readings, its latest batch of actual readings, grouped by station. The
 * grouped `max(datetime)` query is raw SQL and counts soft-deleted rows; the
 * `find` that fetches the batches leaves them out.
 */
module MapData {
  import opened Wrappers
  import opened Entities

  /** A row of the `max(datetime) ... GROUP BY station_id` query; its row order is the database's. */
  datatype LatestTimestamp = LatestTimestamp(latestTimestamp: int, stationId: int)

  /**
   * `{ ...station, data }`: the station's fields (None when no station has
   * the id, so nothing is spread) and its rows (None when undefined).
   */
  datatype MapEntry = MapEntry(station: Option<Station>, data: Option<seq<Reading>>)

  /** e holds the greatest datetime of e.stationId's actual readings, which exist. */
  ghost predicate IsLatestOf(readings: seq<Reading>, e: LatestTimestamp) {
    && (exists x :: x in readings && !x.isPrediction && x.stationId == e.stationId && x.datetime == e.latestTimestamp)
    && (forall y :: y in readings && !y.isPrediction && y.stationId == e.stationId ==> y.datetime <= e.latestTimestamp)
  }

  /** What the grouped query returns: one row per station with actual readings, in some order. */
  ghost predicate IsGroupedLatest(readings: seq<Reading>, latest: seq<LatestTimestamp>) {
    && (forall i, j :: 0 <= i < j < |latest| ==> latest[i].stationId != latest[j].stationId)
    && (forall i {:trigger IsLatestOf(readings, latest[i])} :: 0 <= i < |latest| ==> IsLatestOf(readings, latest[i]))
    && (forall x :: x in readings && !x.isPrediction ==>
          exists i :: 0 <= i < |latest| && latest[i].stationId == x.stationId)
  }

  /** `WHERE NOT is_prediction` in raw SQL: soft-deleted rows are not excluded. */
  function ActualRows(readings: seq<Reading>): (r: seq<Reading>)
    ensures forall x :: x in r <==> x in readings && !x.isPrediction
  {
    var ws := [Where(None, None, Some(false))];
    assert forall x :: MatchesAny(x, ws) <==> !x.isPrediction by {
      forall x ensures MatchesAny(x, ws) <==> !x.isPrediction {
        if !x.isPrediction { assert Matches(x, ws[0]); }
      }
    }
    Select(readings, ws)
  }

  /** The distinct station ids of some rows, in order of first appearance. */
  function DistinctStationIds(rows: seq<Reading>): (ids: seq<int>)
    ensures forall i, j :: 0 <= i < j < |ids| ==> ids[i] != ids[j]
    ensures forall id :: id in ids <==> exists x :: x in rows && x.stationId == id
  {
    if rows == [] then []
    else
      var init, last := rows[..|rows| - 1], rows[|rows| - 1];
      assert rows == init + [last];
      var ids := DistinctStationIds(init);
      if last.stationId in ids then ids else ids + [last.stationId]
  }

  function LatestActualDatetime(actual: seq<Reading>, stationId: int): (t: int)
    requires exists x :: x in actual && x.stationId == stationId
    ensures exists x :: x in actual && x.stationId == stationId && x.datetime == t
    ensures forall y :: y in actual && y.stationId == stationId ==> y.datetime <= t
  {
    var x :| x in actual && x.stationId == stationId;
    assert x in StationRows(actual, stationId);
    LatestDatetime(StationRows(actual, stationId)).value
  }

  /** One possible answer of the grouped query, listing stations by first appearance. */
  function GroupedLatest(readings: seq<Reading>): (latest: seq<LatestTimestamp>)
    ensures IsGroupedLatest(readings, latest)
  {
    var actual := ActualRows(readings);
    var ids := DistinctStationIds(actual);
    var latest := seq(|ids|, i requires 0 <= i < |ids| =>
      assert ids[i] in ids;
      LatestTimestamp(LatestActualDatetime(actual, ids[i]), ids[i]));
    ListingIsGrouped(readings, ids, latest);
    latest
  }

  lemma ListingIsGrouped(readings: seq<Reading>, ids: seq<int>, latest: seq<LatestTimestamp>)
    requires ids == DistinctStationIds(ActualRows(readings))
    requires |latest| == |ids|
    requires forall i :: 0 <= i < |ids| ==>
      ids[i] in ids && latest[i] == LatestTimestamp(LatestActualDatetime(ActualRows(readings), ids[i]), ids[i])
    ensures IsGroupedLatest(readings, latest)
  {
    var actual := ActualRows(readings);
    forall i | 0 <= i < |latest|
      ensures IsLatestOf(readings, latest[i])
    {
      var t := LatestActualDatetime(actual, ids[i]);
      var w :| w in actual && w.stationId == ids[i] && w.datetime == t;
      assert w in readings && !w.isPrediction;
      forall y | y in readings && !y.isPrediction && y.stationId == ids[i]
        ensures y.datetime <= t
      {
        assert y in actual;
      }
    }
    forall x | x in readings && !x.isPrediction
      ensures exists i :: 0 <= i < |latest| && latest[i].stationId == x.stationId
    {
      assert x in actual;
      assert x.stationId in ids;
      var i :| 0 <= i < |ids| && ids[i] == x.stationId;
      assert latest[i].stationId == x.stationId;
    }
  }

  /** `pollutantDataWhere`: one where-object per grouped row. */
  function LatestWheres(latest: seq<LatestTimestamp>): seq<Where> {
    seq(|latest|, i requires 0 <= i < |latest| =>
      Where(Some(latest[i].stationId), Some(latest[i].latestTimestamp), Some(false)))
  }

  /** `allData`: the live rows matching any of the where-objects. */
  function LatestRows(readings: seq<Reading>, latest: seq<LatestTimestamp>): seq<Reading> {
    Find(readings, LatestWheres(latest))
  }

  /** x sits at its own station's latest actual instant. */
  ghost predicate AtLatestActual(readings: seq<Reading>, x: Reading) {
    && !x.isPrediction
    && forall y :: y in readings && !y.isPrediction && y.stationId == x.stationId ==> y.datetime <= x.datetime
  }

  lemma LatestRowIsLatestActual(readings: seq<Reading>, latest: seq<LatestTimestamp>, x: Reading)
    requires IsGroupedLatest(readings, latest)
    requires MatchesAny(x, LatestWheres(latest))
    ensures AtLatestActual(readings, x)
  {
    var ws := LatestWheres(latest);
    var i :| 0 <= i < |ws| && Matches(x, ws[i]);
    assert IsLatestOf(readings, latest[i]);
  }

  lemma LatestActualIsLatestRow(readings: seq<Reading>, latest: seq<LatestTimestamp>, x: Reading)
    requires IsGroupedLatest(readings, latest)
    requires x in readings && AtLatestActual(readings, x)
    ensures MatchesAny(x, LatestWheres(latest))
  {
    var ws := LatestWheres(latest);
    var i :| 0 <= i < |latest| && latest[i].stationId == x.stationId;
    assert IsLatestOf(readings, latest[i]);
    var w :| w in readings && !w.isPrediction && w.stationId == x.stationId && w.datetime == latest[i].latestTimestamp;
    assert w.datetime <= x.datetime;
    assert Matches(x, ws[i]);
  }

  /**
   * When `latest` is what the grouped query returns, `allData` is exactly the
   * live actual readings that sit at their own station's latest actual instant.
   */
  lemma LatestRowsSelectLatest(readings: seq<Reading>, latest: seq<LatestTimestamp>)
    requires IsGroupedLatest(readings, latest)
    ensures forall x :: x in LatestRows(readings, latest) <==> x in readings && !x.deleted && AtLatestActual(readings, x)
  {
    forall x | x in readings
      ensures MatchesAny(x, LatestWheres(latest)) <==> AtLatestActual(readings, x)
    {
      if MatchesAny(x, LatestWheres(latest)) {
        LatestRowIsLatestActual(readings, latest, x);
      }
      if AtLatestActual(readings, x) {
        LatestActualIsLatestRow(readings, latest, x);
      }
    }
  }

  /** `stations.find((element) => element.id === stationId)` */
  function StationById(stations: seq<Station>, stationId: int): (r: Option<Station>)
    ensures r.None? <==> forall s :: s in stations ==> s.id != stationId
    ensures r.Some? ==> exists k :: (
      && 0 <= k < |stations| && stations[k] == r.value && r.value.id == stationId
      && forall j :: 0 <= j < k ==> stations[j].id != stationId)
  {
    if stations == [] then None
    else if stations[0].id == stationId then Some(stations[0])
    else
      var r := StationById(stations[1..], stationId);
      assert forall s :: s in stations[1..] ==> s in stations;
      if r.Some? then
        var k :| 0 <= k < |stations[1..]| && stations[1..][k] == r.value && r.value.id == stationId
          && forall j :: 0 <= j < k ==> stations[1..][j].id != stationId;
        assert stations[k + 1] == r.value;
        r
      else r
  }

  /** `dataByStation[stationId]`: the station's rows in `allData` order, undefined when it has none. */
  function GroupOf(rows: seq<Reading>, stationId: int): Option<seq<Reading>> {
    var own := StationRows(rows, stationId);
    if own == [] then None else Some(own)
  }

  /** Every row lands in its own station's group, with its multiplicity, and in no other. */
  lemma GroupsPartitionRows(rows: seq<Reading>)
    ensures forall x :: x in rows ==>
      GroupOf(rows, x.stationId).Some? && multiset(GroupOf(rows, x.stationId).value)[x] == multiset(rows)[x]
    ensures forall x, id :: x in rows && id != x.stationId && GroupOf(rows, id).Some? ==>
      x !in GroupOf(rows, id).value
  {
  }

  /**
   * A listed station gets a defined group exactly when one of its actual rows
   * at its latest actual instant is live; when all of them are soft-deleted
   * its `data` is undefined.
   */
  lemma ListedStationHasData(readings: seq<Reading>, latest: seq<LatestTimestamp>)
    requires IsGroupedLatest(readings, latest)
    ensures forall i :: 0 <= i < |latest| ==>
      (GroupOf(LatestRows(readings, latest), latest[i].stationId).Some? <==>
        exists w :: (&& w in readings && !w.deleted && !w.isPrediction
                     && w.stationId == latest[i].stationId && w.datetime == latest[i].latestTimestamp))
  {
    var ws := LatestWheres(latest);
    forall i | 0 <= i < |latest|
      ensures GroupOf(LatestRows(readings, latest), latest[i].stationId).Some? <==>
        exists w :: (&& w in readings && !w.deleted && !w.isPrediction
                     && w.stationId == latest[i].stationId && w.datetime == latest[i].latestTimestamp)
    {
      assert IsLatestOf(readings, latest[i]);
      if w :| && w in readings && !w.deleted && !w.isPrediction
              && w.stationId == latest[i].stationId && w.datetime == latest[i].latestTimestamp {
        assert Matches(w, ws[i]);
        assert w in LatestRows(readings, latest);
        assert w in StationRows(LatestRows(readings, latest), latest[i].stationId);
      }
      if GroupOf(LatestRows(readings, latest), latest[i].stationId).Some? {
        var own := StationRows(LatestRows(readings, latest), latest[i].stationId);
        var x := own[0];
        assert x in own;
        LatestRowIsLatestActual(readings, latest, x);
        var j :| 0 <= j < |ws| && Matches(x, ws[j]);
        assert latest[j].stationId == x.stationId == latest[i].stationId;
        assert j == i;
      }
    }
  }

  /** With no soft-deleted rows, every station the grouped query lists gets a defined group. */
  lemma EveryListedStationHasData(readings: seq<Reading>, latest: seq<LatestTimestamp>)
    requires IsGroupedLatest(readings, latest)
    requires forall x :: x in readings ==> !x.deleted
    ensures forall i :: 0 <= i < |latest| ==>
      GroupOf(LatestRows(readings, latest), latest[i].stationId).Some?
  {
    ListedStationHasData(readings, latest);
    forall i | 0 <= i < |latest|
      ensures GroupOf(LatestRows(readings, latest), latest[i].stationId).Some?
    {
      assert IsLatestOf(readings, latest[i]);
    }
  }

  /** `dataByStation` after pushing `rows` one by one into an empty dictionary. */
  function Grouped(rows: seq<Reading>): map<int, seq<Reading>> {
    if rows == [] then map[]
    else
      var groups, entry := Grouped(rows[..|rows| - 1]), rows[|rows| - 1];
      if entry.stationId in groups then groups[entry.stationId := groups[entry.stationId] + [entry]]
      else groups[entry.stationId := [entry]]
  }

  /** The dictionary holds, under each station id, that station's rows in order, and no empty group. */
  lemma {:induction false} GroupedIsGroupOf(rows: seq<Reading>, stationId: int)
    ensures GroupOf(rows, stationId) == if stationId in Grouped(rows) then Some(Grouped(rows)[stationId]) else None
  {
    if rows != [] {
      var init, entry := rows[..|rows| - 1], rows[|rows| - 1];
      assert rows == init + [entry];
      GroupedIsGroupOf(init, stationId);
      FilterAppend(init, entry, (x: Reading) => x.stationId == stationId);
      if entry.stationId == stationId {
        if stationId !in Grouped(init) {
          assert StationRows(init, stationId) + [entry] == [entry];
        }
      }
    }
  }

  /**
   * The first loop of getMapData: each row is pushed onto its station's list,
   * which is created on the station's first row.
   */
  method GroupByStation(allData: seq<Reading>) returns (dataByStation: map<int, seq<Reading>>)
    ensures dataByStation == Grouped(allData)
    ensures forall stationId :: (GroupOf(allData, stationId) ==
      if stationId in dataByStation then Some(dataByStation[stationId]) else None)
  {
    dataByStation := map[];
    for i := 0 to |allData|
      invariant dataByStation == Grouped(allData[..i])
    {
      var entry := allData[i];
      var stationId := entry.stationId;
      assert allData[..i + 1][..i] == allData[..i];
      if stationId in dataByStation {
        dataByStation := dataByStation[stationId := dataByStation[stationId] + [entry]];
      } else {
        dataByStation := dataByStation[stationId := [entry]];
      }
    }
    assert allData[..|allData|] == allData;
    forall stationId
      ensures GroupOf(allData, stationId) ==
        (if stationId in dataByStation then Some(dataByStation[stationId]) else None)
    {
      GroupedIsGroupOf(allData, stationId);
    }
  }

  /**
   * The second loop of getMapData: one entry per listed station id, in list
   * order, with the first station carrying that id and the dictionary's value
   * for it (undefined when the id is no key).
   */
  method EmitEntries(stations: seq<Station>, stationIds: seq<int>, dataByStation: map<int, seq<Reading>>)
    returns (mapData: seq<MapEntry>)
    ensures |mapData| == |stationIds|
    ensures forall i :: 0 <= i < |stationIds| ==>
      mapData[i] == MapEntry(StationById(stations, stationIds[i]),
                             if stationIds[i] in dataByStation then Some(dataByStation[stationIds[i]]) else None)
  {
    mapData := [];
    for i := 0 to |stationIds|
      invariant |mapData| == i
      invariant forall j :: 0 <= j < i ==>
        mapData[j] == MapEntry(StationById(stations, stationIds[j]),
                               if stationIds[j] in dataByStation then Some(dataByStation[stationIds[j]]) else None)
    {
      var stationId := stationIds[i];
      var station := StationById(stations, stationId);
      var data := if stationId in dataByStation then Some(dataByStation[stationId]) else None;
      mapData := mapData + [MapEntry(station, data)];
    }
  }

  /** `latestTimestamps.map(({ stationId }) => stationId)` */
  function StationIds(latest: seq<LatestTimestamp>): (ids: seq<int>)
    ensures |ids| == |latest|
    ensures forall i :: 0 <= i < |latest| ==> ids[i] == latest[i].stationId
  {
    seq(|latest|, i requires 0 <= i < |latest| => latest[i].stationId)
  }

  /**
   * getMapData: the rows of every station's latest batch are grouped by
   * station id, then one entry is emitted per station of the grouped query,
   * in the query's order.
   */
  method GetMapData(stations: seq<Station>, readings: seq<Reading>, latest: seq<LatestTimestamp>)
    returns (mapData: seq<MapEntry>)
    ensures |mapData| == |latest|
    ensures forall i :: 0 <= i < |latest| ==>
      mapData[i] == MapEntry(StationById(stations, latest[i].stationId),
                             GroupOf(LatestRows(readings, latest), latest[i].stationId))
  {
    var stationIds := StationIds(latest);
    var allData := LatestRows(readings, latest);
    var dataByStation := GroupByStation(allData);
    mapData := EmitEntries(stations, stationIds, dataByStation);
  }
}
