/**
 * The stored entities (stations, pollutants, pollutant readings), the
 * repository query `find({ where })` that the services issue against them,
 * and the raw SQL filters of their hand-written queries. The table of
 * readings is a sequence in storage order; `find` leaves soft-deleted rows
 * out, raw SQL does not.
 */
module Entities {
  import opened Wrappers

  datatype Station = Station(id: int, name: string, latitude: real, longitude: real, externalId: int)

  datatype Pollutant = Pollutant(id: int, fullName: string, shortName: string, description: string, waqiName: string)

  /**
   * A row of pollutant_data; instants are whole numbers on one time line.
   * `deleted` is set when the row is soft-deleted (its `deleted_at` is not null).
   */
  datatype Reading = Reading(
    id: int,
    stationId: int,
    pollutantId: int,
    datetime: int,
    value: real,
    isPrediction: bool,
    predictionDatetime: Option<int>,
    deleted: bool)

  /** The table's check constraint: a prediction row, and only one, has a prediction datetime. */
  predicate WellFormed(r: Reading) {
    r.isPrediction <==> r.predictionDatetime.Some?
  }

  /** One object of a `where` clause: every field it sets must be equal in the row. */
  datatype Where = Where(stationId: Option<int>, datetime: Option<int>, isPrediction: Option<bool>)

  function StationWhere(stationId: int): Where {
    Where(Some(stationId), None, None)
  }

  predicate Matches(r: Reading, w: Where) {
    && (w.stationId.Some? ==> r.stationId == w.stationId.value)
    && (w.datetime.Some? ==> r.datetime == w.datetime.value)
    && (w.isPrediction.Some? ==> r.isPrediction == w.isPrediction.value)
  }

  /** A `where` given as an array is the disjunction of its objects. */
  predicate MatchesAny(r: Reading, ws: seq<Where>) {
    exists i :: 0 <= i < |ws| && Matches(r, ws[i])
  }

  /** The rows satisfying `keep`, in storage order, each as many times as stored. */
  function Filter(rows: seq<Reading>, keep: Reading -> bool): (r: seq<Reading>)
    ensures |r| <= |rows|
    ensures forall x :: multiset(r)[x] == if keep(x) then multiset(rows)[x] else 0
    ensures forall x :: x in r <==> x in rows && keep(x)
  {
    if rows == [] then []
    else
      var init, last := rows[..|rows| - 1], rows[|rows| - 1];
      assert rows == init + [last];
      var kept := Filter(init, keep);
      if keep(last) then kept + [last] else kept
  }

  /** Filtering keeps storage order: a row stored last is kept last. */
  lemma FilterAppend(rows: seq<Reading>, x: Reading, keep: Reading -> bool)
    ensures Filter(rows + [x], keep) == Filter(rows, keep) + (if keep(x) then [x] else [])
  {
    assert (rows + [x])[..|rows|] == rows;
  }

  /**
   * A raw SQL `WHERE` written as where-objects: every stored row matching one
   * of them, soft-deleted rows included.
   */
  function Select(rows: seq<Reading>, ws: seq<Where>): (r: seq<Reading>)
    ensures forall x :: multiset(r)[x] == if MatchesAny(x, ws) then multiset(rows)[x] else 0
    ensures forall x :: x in r <==> x in rows && MatchesAny(x, ws)
  {
    Filter(rows, (x: Reading) => MatchesAny(x, ws))
  }

  /**
   * `find({ where: ws })`: the repository adds `deleted_at IS NULL`, so only
   * the live rows matching one of the where-objects, in storage order.
   */
  function Find(rows: seq<Reading>, ws: seq<Where>): (r: seq<Reading>)
    ensures |r| <= |rows|
    ensures forall x :: multiset(r)[x] == if !x.deleted && MatchesAny(x, ws) then multiset(rows)[x] else 0
    ensures forall x :: x in r <==> x in rows && !x.deleted && MatchesAny(x, ws)
  {
    Filter(rows, (x: Reading) => !x.deleted && MatchesAny(x, ws))
  }

  /** `WHERE station_id = stationId` in raw SQL: the station's rows, soft-deleted ones included. */
  function StationRows(rows: seq<Reading>, stationId: int): (r: seq<Reading>)
    ensures forall x :: x in r <==> x in rows && x.stationId == stationId
    ensures forall x: Reading :: x.stationId == stationId ==> multiset(r)[x] == multiset(rows)[x]
  {
    Filter(rows, (x: Reading) => x.stationId == stationId)
  }

  /** `find({ where: { stationId } })`: the station's live rows. */
  function OfStation(rows: seq<Reading>, stationId: int): (r: seq<Reading>)
    ensures forall x :: x in r <==> x in rows && !x.deleted && x.stationId == stationId
    ensures forall x: Reading :: x.stationId == stationId ==>
      multiset(r)[x] == if x.deleted then 0 else multiset(rows)[x]
  {
    var ws := [StationWhere(stationId)];
    assert forall x :: MatchesAny(x, ws) <==> x.stationId == stationId by {
      forall x ensures MatchesAny(x, ws) <==> x.stationId == stationId {
        if x.stationId == stationId { assert Matches(x, ws[0]); }
      }
    }
    Find(rows, ws)
  }

  /** `find({ where: { datetime, stationId } })`: the station's live rows at that instant. */
  function AtInstant(rows: seq<Reading>, stationId: int, datetime: int): (r: seq<Reading>)
    ensures forall x :: x in r <==> x in rows && !x.deleted && x.stationId == stationId && x.datetime == datetime
    ensures forall x: Reading :: !x.deleted && x.stationId == stationId && x.datetime == datetime ==>
      multiset(r)[x] == multiset(rows)[x]
  {
    var ws := [Where(Some(stationId), Some(datetime), None)];
    assert forall x :: MatchesAny(x, ws) <==> x.stationId == stationId && x.datetime == datetime by {
      forall x ensures MatchesAny(x, ws) <==> x.stationId == stationId && x.datetime == datetime {
        if x.stationId == stationId && x.datetime == datetime { assert Matches(x, ws[0]); }
      }
    }
    Find(rows, ws)
  }

  /** `max(datetime)` over some rows; SQL's NULL for no rows is None. */
  function LatestDatetime(rows: seq<Reading>): (t: Option<int>)
    ensures t.None? <==> rows == []
    ensures t.Some? ==> exists x :: x in rows && x.datetime == t.value
    ensures t.Some? ==> forall x :: x in rows ==> x.datetime <= t.value
  {
    if rows == [] then None
    else
      var rest := LatestDatetime(rows[1..]);
      assert forall x :: x in rows[1..] ==> x in rows;
      if rest.None? || rest.value < rows[0].datetime then Some(rows[0].datetime) else rest
  }
}
