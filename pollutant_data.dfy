/**
 * PollutantDataService: resolving the station closest to a point, and the
 * latest batch of readings stored for it.
 */
module PollutantData {
  import opened Wrappers
  import opened Entities

  /**
   * computeDistance(lat1, lon1, lat2, lon2), the great-circle distance in km.
   * Its trigonometric formula is not modelled; the services receive it as a
   * parameter.
   */
  type Distance = (real, real, real, real) -> real

  /** computeClosestStation reads `stations[0].id`, which throws on an empty list. */
  datatype ServiceError = NoStations

  /** The distance from each station, in list order, to the point (latitude, longitude). */
  function Distances(latitude: real, longitude: real, stations: seq<Station>, distance: Distance): seq<real>
  {
    seq(|stations|, i requires 0 <= i < |stations| =>
      distance(stations[i].latitude, stations[i].longitude, latitude, longitude))
  }

  /** k is the first position holding the least distance. */
  predicate IsFirstClosest(ds: seq<real>, k: int) {
    && 0 <= k < |ds|
    && (forall j :: 0 <= j < |ds| ==> ds[k] <= ds[j])
    && (forall j :: 0 <= j < k ==> ds[k] < ds[j])
  }

  /** The position the running-minimum scan ends on. */
  function FirstClosest(ds: seq<real>): (k: nat)
    requires |ds| > 0
    ensures IsFirstClosest(ds, k)
  {
    if |ds| == 1 then 0
    else
      var k := FirstClosest(ds[..|ds| - 1]);
      if ds[|ds| - 1] < ds[k] then |ds| - 1 else k
  }

  /** Only one position is the first closest one, so the scan's answer is determined. */
  lemma FirstClosestUnique(ds: seq<real>, k1: int, k2: int)
    requires IsFirstClosest(ds, k1) && IsFirstClosest(ds, k2)
    ensures k1 == k2
  {
    assert ds[k1] == ds[k2];
  }

  /** The id computeClosestStation returns, as a value usable by the other services. */
  function ClosestStationId(latitude: real, longitude: real, stations: seq<Station>, distance: Distance): (id: int)
    requires |stations| > 0
    ensures exists k :: IsFirstClosest(Distances(latitude, longitude, stations, distance), k) && stations[k].id == id
  {
    stations[FirstClosest(Distances(latitude, longitude, stations, distance))].id
  }

  /** `minDistance` starts at Infinity, above every distance. */
  datatype Bound = Infinity | Finite(value: real)

  predicate Below(d: real, b: Bound) {
    b.Infinity? || d < b.value
  }

  /**
   * The forEach scan: a station replaces the current one only when strictly
   * closer, so ties go to the station met first.
   */
  method ComputeClosestStation(latitude: real, longitude: real, stations: seq<Station>, distance: Distance)
    returns (closestStationId: int)
    requires |stations| > 0
    ensures closestStationId == ClosestStationId(latitude, longitude, stations, distance)
    ensures exists k :: (
      && 0 <= k < |stations| && stations[k].id == closestStationId
      && (forall j :: 0 <= j < |stations| ==>
            distance(stations[k].latitude, stations[k].longitude, latitude, longitude)
            <= distance(stations[j].latitude, stations[j].longitude, latitude, longitude))
      && (forall j :: 0 <= j < k ==>
            distance(stations[k].latitude, stations[k].longitude, latitude, longitude)
            < distance(stations[j].latitude, stations[j].longitude, latitude, longitude)))
  {
    ghost var ds := Distances(latitude, longitude, stations, distance);
    var minDistance := Infinity;
    closestStationId := stations[0].id;
    ghost var k := 0;
    var i := 0;
    while i < |stations|
      invariant 0 <= i <= |stations|
      invariant 0 <= k < |stations| && closestStationId == stations[k].id
      invariant i == 0 ==> minDistance == Infinity && k == 0
      invariant i > 0 ==> k == FirstClosest(ds[..i]) && minDistance == Finite(ds[k])
    {
      var station := stations[i];
      var d := distance(station.latitude, station.longitude, latitude, longitude);
      assert ds[..i + 1][..i] == ds[..i];
      if Below(d, minDistance) {
        minDistance := Finite(d);
        closestStationId := station.id;
        k := i;
      }
      i := i + 1;
    }
    assert ds[..i] == ds;
    assert IsFirstClosest(ds, k);
    assert forall j :: 0 <= j < |stations| ==>
      ds[j] == distance(stations[j].latitude, stations[j].longitude, latitude, longitude);
  }

  /**
   * x is a reading of `stationId` whose datetime is the greatest among that
   * station's rows, soft-deleted ones included, as the raw `max(datetime)`
   * query counts them.
   */
  ghost predicate InLatestBatch(readings: seq<Reading>, stationId: int, x: Reading) {
    && x.stationId == stationId
    && forall y :: y in readings && y.stationId == stationId ==> y.datetime <= x.datetime
  }

  /**
   * getClosestStationData: max(datetime) over all the closest station's rows
   * (raw SQL), then `find` of that station's rows at that instant, whatever
   * their pollutant and whether or not they are predictions; `find` leaves the
   * soft-deleted ones out.
   */
  function ClosestStationData(
    readings: seq<Reading>, stations: seq<Station>, latitude: real, longitude: real, distance: Distance)
    : (r: Result<seq<Reading>, ServiceError>)
    ensures r.Failure? <==> stations == []
    ensures r.Success? ==> forall x :: x in r.value <==>
      x in readings && !x.deleted && InLatestBatch(readings, ClosestStationId(latitude, longitude, stations, distance), x)
    ensures r.Success? ==> forall x :: x in r.value ==> multiset(r.value)[x] == multiset(readings)[x]
    ensures r.Success? ==> (r.value == [] <==>
      forall y :: y in readings && InLatestBatch(readings, ClosestStationId(latitude, longitude, stations, distance), y)
        ==> y.deleted)
  {
    if stations == [] then Failure(NoStations)
    else
      var closest := ClosestStationId(latitude, longitude, stations, distance);
      match LatestDatetime(StationRows(readings, closest))
      case None => Success([])
      case Some(latest) =>
        var found := AtInstant(readings, closest, latest);
        LatestBatchIsAtInstant(readings, closest, latest);
        Success(found)
  }

  /**
   * The find at the station's maximum datetime selects exactly the live rows
   * of its latest batch; some row, live or not, sits at that instant.
   */
  lemma LatestBatchIsAtInstant(readings: seq<Reading>, stationId: int, latest: int)
    requires LatestDatetime(StationRows(readings, stationId)) == Some(latest)
    ensures exists w :: w in readings && w.stationId == stationId && w.datetime == latest
    ensures forall x :: x in AtInstant(readings, stationId, latest) <==>
      x in readings && !x.deleted && InLatestBatch(readings, stationId, x)
  {
    var own := StationRows(readings, stationId);
    var w :| w in own && w.datetime == latest;
    forall x | x in readings && InLatestBatch(readings, stationId, x)
      ensures x.datetime == latest
    {
      assert x in own && w in readings;
    }
  }

  /**
   * When every row of the station at its newest instant is soft-deleted, the
   * service returns nothing, even if older live rows exist: it does not fall
   * back to an earlier batch.
   */
  lemma DeletedLatestBatchGivesNothing(
    readings: seq<Reading>, stations: seq<Station>, latitude: real, longitude: real, distance: Distance, newest: int)
    requires stations != []
    requires exists w :: (w in readings && w.stationId == ClosestStationId(latitude, longitude, stations, distance)
      && w.datetime == newest)
    requires forall y :: (
      && y in readings && y.stationId == ClosestStationId(latitude, longitude, stations, distance)
      && y.datetime >= newest) ==> y.deleted
    ensures ClosestStationData(readings, stations, latitude, longitude, distance) == Success([])
  {
    var closest := ClosestStationId(latitude, longitude, stations, distance);
    var w :| w in readings && w.stationId == closest && w.datetime == newest;
    forall y | y in readings && InLatestBatch(readings, closest, y)
      ensures y.deleted
    {
      assert w.datetime <= y.datetime;
    }
  }
}
