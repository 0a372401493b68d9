/**
 * PollutantHistoryService: the closest station's readings, newest first,
 * at most 500 of them.
 */
module PollutantHistory {
  import opened Wrappers
  import opened Entities
  import opened Sorting
  import opened PollutantData

  /** `take: 500` */
  const HistoryLimit: nat := 500

  /** `order: { datetime: 'DESC', id: 'ASC' }`: a comes no later than b. */
  predicate NewerFirst(a: Reading, b: Reading) {
    a.datetime > b.datetime || (a.datetime == b.datetime && a.id <= b.id)
  }

  lemma NewerFirstIsTotalPreorder()
    ensures TotalPreorder(NewerFirst)
  {
  }

  /** Ids are the table's primary key: no two different rows share one. */
  ghost predicate UniqueIds(rows: seq<Reading>) {
    forall x, y :: x in rows && y in rows && x.id == y.id ==> x == y
  }

  function Min(a: nat, b: nat): nat {
    if a <= b then a else b
  }

  /** The closest station's rows in the query's order; helper for the history. */
  function OrderedStationRows(readings: seq<Reading>, stationId: int): (r: seq<Reading>)
    ensures multiset(r) == multiset(OfStation(readings, stationId))
    ensures Sorted(r, NewerFirst)
  {
    NewerFirstIsTotalPreorder();
    InsertionSort(OfStation(readings, stationId), NewerFirst)
  }

  /**
   * getClosestStationHistory: `find` of the closest station's rows (so
   * soft-deleted rows are left out), ordered by datetime descending then id
   * ascending, the first 500 kept. Prediction rows are not filtered out.
   */
  function ClosestStationHistory(
    readings: seq<Reading>, stations: seq<Station>, latitude: real, longitude: real, distance: Distance)
    : (r: Result<seq<Reading>, ServiceError>)
    ensures r.Failure? <==> stations == []
    ensures r.Success? ==> |r.value| <= HistoryLimit
    ensures r.Success? ==> Sorted(r.value, NewerFirst)
    ensures r.Success? ==> forall x :: x in r.value ==>
      x in readings && !x.deleted && x.stationId == ClosestStationId(latitude, longitude, stations, distance)
  {
    if stations == [] then Failure(NoStations)
    else
      var closest := ClosestStationId(latitude, longitude, stations, distance);
      var ordered := OrderedStationRows(readings, closest);
      var taken := ordered[..Min(HistoryLimit, |ordered|)];
      assert forall x :: x in taken ==> x in multiset(ordered);
      Success(taken)
  }

  /** The history is a prefix of the station's ordered rows: nothing newer is skipped. */
  lemma HistoryNothingNewerSkipped(
    readings: seq<Reading>, stations: seq<Station>, latitude: real, longitude: real, distance: Distance)
    requires stations != []
    ensures var history := ClosestStationHistory(readings, stations, latitude, longitude, distance).value;
      var own := OfStation(readings, ClosestStationId(latitude, longitude, stations, distance));
      && multiset(history) <= multiset(own)
      && forall x, y :: x in multiset(own) - multiset(history) && y in history ==> NewerFirst(y, x)
  {
    var closest := ClosestStationId(latitude, longitude, stations, distance);
    var ordered := OrderedStationRows(readings, closest);
    PrefixBeforeSkipped(ordered, Min(HistoryLimit, |ordered|), NewerFirst);
  }

  /** With at most 500 live rows for the station, all of them come back, predictions included. */
  lemma HistoryCompleteWhenSmall(
    readings: seq<Reading>, stations: seq<Station>, latitude: real, longitude: real, distance: Distance)
    requires stations != []
    requires |OfStation(readings, ClosestStationId(latitude, longitude, stations, distance))| <= HistoryLimit
    ensures var history := ClosestStationHistory(readings, stations, latitude, longitude, distance).value;
      forall x: Reading :: x.stationId == ClosestStationId(latitude, longitude, stations, distance) ==>
        multiset(history)[x] == if x.deleted then 0 else multiset(readings)[x]
  {
    var closest := ClosestStationId(latitude, longitude, stations, distance);
    var ordered := OrderedStationRows(readings, closest);
    assert |ordered| == |multiset(ordered)| == |OfStation(readings, closest)|;
    assert ordered[..Min(HistoryLimit, |ordered|)] == ordered;
  }

  /**
   * Because ids are unique, the ORDER BY fixes one arrangement: any sequence
   * of the station's rows sorted the same way gives the same 500 first rows.
   */
  lemma {:induction false} HistoryOrderDetermined(
    readings: seq<Reading>, stations: seq<Station>, latitude: real, longitude: real, distance: Distance,
    other: seq<Reading>)
    requires stations != []
    requires UniqueIds(readings)
    requires Sorted(other, NewerFirst)
    requires multiset(other) == multiset(OfStation(readings, ClosestStationId(latitude, longitude, stations, distance)))
    ensures ClosestStationHistory(readings, stations, latitude, longitude, distance).value
      == other[..Min(HistoryLimit, |other|)]
  {
    var closest := ClosestStationId(latitude, longitude, stations, distance);
    var ordered := OrderedStationRows(readings, closest);
    forall x, y | x in multiset(ordered) && y in multiset(ordered) && NewerFirst(x, y) && NewerFirst(y, x)
      ensures x == y
    {
      assert x in readings && y in readings;
    }
    SortedUnique(ordered, other, NewerFirst);
  }
}
