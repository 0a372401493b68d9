/**
 * The fetch-external-data script's storage side: indexing pollutants by their
 * WAQI name, and inserting one station's WAQI response as pollutant readings.
 */
module Ingestion {
  import opened Wrappers
  import opened Entities
  import opened Json
  import CustomValidators

  /** A (station, instant) pair already stored, from the last-five-data-points query. */
  datatype DataPoint = DataPoint(stationId: int, datetime: int)

  /**
   * The `pollutants.forEach` loop that fills `waqiPollutantToDbPollutant`:
   * every WAQI name is a key, mapped to the last pollutant carrying it.
   */
  method BuildPollutantIndex(pollutants: seq<Pollutant>) returns (index: map<string, Pollutant>)
    ensures forall name :: name in index <==> exists i :: 0 <= i < |pollutants| && pollutants[i].waqiName == name
    ensures forall name :: name in index ==> exists i :: (
      && 0 <= i < |pollutants| && pollutants[i] == index[name] && pollutants[i].waqiName == name
      && forall j :: i < j < |pollutants| ==> pollutants[j].waqiName != name)
  {
    index := map[];
    for k := 0 to |pollutants|
      invariant forall name :: name in index <==> exists i :: 0 <= i < k && pollutants[i].waqiName == name
      invariant forall name :: name in index ==> exists i :: (
        && 0 <= i < k && pollutants[i] == index[name] && pollutants[i].waqiName == name
        && forall j :: i < j < k ==> pollutants[j].waqiName != name)
    {
      index := index[pollutants[k].waqiName := pollutants[k]];
    }
  }

  /** The pollutant_data repository: rows in insertion order and the next generated id. */
  class PollutantDataRepository {
    var rows: seq<Reading>
    var nextId: int

    /** Generated ids stay ahead of every stored id. */
    ghost predicate Valid()
      reads this
    {
      forall x :: x in rows ==> x.id < nextId
    }

    constructor (rows0: seq<Reading>, nextId0: int)
      requires forall x :: x in rows0 ==> x.id < nextId0
      ensures Valid() && rows == rows0 && nextId == nextId0
    {
      rows := rows0;
      nextId := nextId0;
    }

    /**
     * `save(create({ stationId, pollutantId, datetime, value }))`: the table's
     * defaults make the row an actual reading with no prediction datetime.
     */
    method Save(stationId: int, pollutantId: int, datetime: int, value: real)
      requires Valid()
      modifies this
      ensures Valid()
      ensures rows == old(rows) + [NewRow(old(nextId), stationId, pollutantId, datetime, value)]
      ensures nextId == old(nextId) + 1
    {
      rows := rows + [NewRow(nextId, stationId, pollutantId, datetime, value)];
      nextId := nextId + 1;
    }
  }

  /** The row `create` makes: the column defaults make it a live, actual reading. */
  function NewRow(id: int, stationId: int, pollutantId: int, datetime: int, value: real): (r: Reading)
    ensures WellFormed(r) && !r.isPrediction && !r.deleted
  {
    Reading(id, stationId, pollutantId, datetime, value, false, None, false)
  }

  /** The response was stored already: same station, same instant, whatever the pollutant. */
  predicate AlreadySaved(points: seq<DataPoint>, stationId: int, instant: int) {
    exists p :: p in points && p.stationId == stationId && p.datetime == instant
  }

  /**
   * `{ ...iaqi, aqi: { v: aqi } }`: an `aqi` key already in `iaqi` keeps its
   * place and takes the new value; otherwise the entry is added last.
   */
  function WithAqi(iaqi: seq<(string, Json)>, aqi: Json): (entries: seq<(string, Json)>)
    ensures "aqi" !in Keys(iaqi) ==> entries == iaqi + [("aqi", JObject([("v", aqi)]))]
    ensures "aqi" in Keys(iaqi) ==> exists k :: (
      && 0 <= k < |iaqi| && iaqi[k].0 == "aqi" && (forall j :: 0 <= j < k ==> iaqi[j].0 != "aqi")
      && entries == iaqi[k := ("aqi", JObject([("v", aqi)]))])
  {
    match KeyIndex(iaqi, "aqi")
    case None => iaqi + [("aqi", JObject([("v", aqi)]))]
    case Some(k) => iaqi[k := ("aqi", JObject([("v", aqi)]))]
  }

  /** Reading `valueObject.v`: undefined on a non-object, a TypeError on null. */
  datatype Access = Undefined | Defined(value: Json) | ThrowsTypeError

  function MemberV(valueObject: Json): Access {
    match valueObject
    case JNull => ThrowsTypeError
    case JObject(entries) => (match Get(entries, "v") case None => Undefined case Some(v) => Defined(v))
    case _ => Undefined
  }

  datatype InsertError =
    | UnknownPollutant(name: string)   // `Unknown pollutant "<name>" received in WAQI API response`
    | NullValueObject(name: string)    // reading `.v` of null

  /** What the loop body does with one entry. */
  datatype Step = Skip | Fail(error: InsertError) | Store(pollutantId: int, value: real)

  function StepFor(entry: (string, Json), index: map<string, Pollutant>): Step {
    match MemberV(entry.1)
    case ThrowsTypeError => Fail(NullValueObject(entry.0))
    case Defined(JNumber(v)) =>
      if entry.0 in index then Store(index[entry.0].id, v) else Fail(UnknownPollutant(entry.0))
    case _ => Skip
  }

  /** The (pollutantId, value) pairs saved, and the error thrown if any. */
  datatype Outcome = Outcome(saves: seq<(int, real)>, error: Option<InsertError>)

  /** The loop over the entries, up to its end or its first throw. */
  function Run(entries: seq<(string, Json)>, index: map<string, Pollutant>): Outcome {
    if entries == [] then Outcome([], None)
    else
      match StepFor(entries[0], index)
      case Skip => Run(entries[1..], index)
      case Fail(e) => Outcome([], Some(e))
      case Store(p, v) =>
        var rest := Run(entries[1..], index);
        Outcome([(p, v)] + rest.saves, rest.error)
  }

  /** Reference reading of the loop: the entries that would be stored, ignoring throws. */
  function Stores(entries: seq<(string, Json)>, index: map<string, Pollutant>): (saves: seq<(int, real)>)
    ensures |saves| <= |entries|
    ensures forall s :: s in saves ==> exists i :: (
      && 0 <= i < |entries| && entries[i].0 in index
      && MemberV(entries[i].1) == Defined(JNumber(s.1)) && index[entries[i].0].id == s.0)
  {
    if entries == [] then []
    else
      var rest := Stores(entries[1..], index);
      assert forall s :: s in rest ==> exists i :: (
        && 0 <= i < |entries| && entries[i].0 in index
        && MemberV(entries[i].1) == Defined(JNumber(s.1)) && index[entries[i].0].id == s.0) by {
        forall s | s in rest
          ensures exists i :: (
            && 0 <= i < |entries| && entries[i].0 in index
            && MemberV(entries[i].1) == Defined(JNumber(s.1)) && index[entries[i].0].id == s.0)
        {
          var i :| 0 <= i < |entries[1..]| && entries[1..][i].0 in index
            && MemberV(entries[1..][i].1) == Defined(JNumber(s.1)) && index[entries[1..][i].0].id == s.0;
          assert entries[i + 1] == entries[1..][i];
        }
      }
      match StepFor(entries[0], index)
      case Store(p, v) => [(p, v)] + rest
      case _ => rest
  }

  /** The first entry the loop throws at, if any. */
  function FirstFailure(entries: seq<(string, Json)>, index: map<string, Pollutant>): (r: Option<nat>)
    ensures r.None? <==> forall i :: 0 <= i < |entries| ==> !StepFor(entries[i], index).Fail?
    ensures r.Some? ==> r.value < |entries| && StepFor(entries[r.value], index).Fail?
    ensures r.Some? ==> forall i :: 0 <= i < r.value ==> !StepFor(entries[i], index).Fail?
  {
    if entries == [] then None
    else if StepFor(entries[0], index).Fail? then Some(0)
    else
      match FirstFailure(entries[1..], index)
      case None =>
        assert forall i :: 1 <= i < |entries| ==> entries[i] == entries[1..][i - 1];
        None
      case Some(k) =>
        assert forall i :: 1 <= i < k + 1 ==> entries[i] == entries[1..][i - 1];
        Some(k + 1)
  }

  /** The outcome of a run that saved `saves` before going on as `rest`. */
  function After(saves: seq<(int, real)>, rest: Outcome): Outcome {
    Outcome(saves + rest.saves, rest.error)
  }

  lemma RunFrom(entries: seq<(string, Json)>, i: nat, index: map<string, Pollutant>)
    requires i < |entries|
    ensures Run(entries[i..], index) == match StepFor(entries[i], index)
      case Skip => Run(entries[i + 1..], index)
      case Fail(e) => Outcome([], Some(e))
      case Store(p, v) => After([(p, v)], Run(entries[i + 1..], index))
  {
    assert entries[i..][1..] == entries[i + 1..];
  }

  /**
   * The loop stores every numeric entry of a known pollutant, in order; an
   * unknown name (or a null entry) ends it with that error, after the entries
   * before it were stored.
   */
  lemma {:induction false} RunStoresUntilFirstFailure(entries: seq<(string, Json)>, index: map<string, Pollutant>)
    ensures Run(entries, index) == match FirstFailure(entries, index)
      case None => Outcome(Stores(entries, index), None)
      case Some(k) => Outcome(Stores(entries[..k], index), Some(StepFor(entries[k], index).error))
    decreases |entries|
  {
    if entries != [] {
      RunStoresUntilFirstFailure(entries[1..], index);
      match FirstFailure(entries[1..], index)
      case None =>
      case Some(k) =>
        assert entries[..k + 1][1..] == entries[1..][..k];
        assert entries[k + 1] == entries[1..][k];
    }
  }

  /** The rows the saves of one run append, ids generated from firstId on. */
  function Records(firstId: int, stationId: int, datetime: int, saves: seq<(int, real)>): (rs: seq<Reading>)
    ensures |rs| == |saves|
    ensures forall k :: 0 <= k < |rs| ==>
      rs[k] == NewRow(firstId + k, stationId, saves[k].0, datetime, saves[k].1)
  {
    seq(|saves|, k requires 0 <= k < |saves| => NewRow(firstId + k, stationId, saves[k].0, datetime, saves[k].1))
  }

  lemma RecordsAppend(firstId: int, stationId: int, datetime: int, saves: seq<(int, real)>, p: int, v: real)
    ensures Records(firstId, stationId, datetime, saves + [(p, v)])
         == Records(firstId, stationId, datetime, saves) + [NewRow(firstId + |saves|, stationId, p, datetime, v)]
  {
  }

  /**
   * The `for ... of Object.entries(...)` loop of insertDataInDb: one save per
   * entry whose `v` is a number of a known pollutant, up to the first throw.
   */
  method SaveEntries(
    entries: seq<(string, Json)>, isoTime: int,
    repository: PollutantDataRepository, stationId: int, index: map<string, Pollutant>)
    returns (r: Result<nat, InsertError>)
    requires repository.Valid()
    modifies repository
    ensures repository.Valid()
    ensures var outcome := Run(entries, index);
      && repository.rows == old(repository.rows) + Records(old(repository.nextId), stationId, isoTime, outcome.saves)
      && repository.nextId == old(repository.nextId) + |outcome.saves|
      && r == (if outcome.error.Some? then Failure(outcome.error.value) else Success(|outcome.saves|))
  {
    var insertedDataPoints: nat := 0;
    ghost var saved: seq<(int, real)> := [];
    assert entries[0..] == entries;
    for i := 0 to |entries|
      invariant repository.Valid()
      invariant insertedDataPoints == |saved|
      invariant repository.rows == old(repository.rows) + Records(old(repository.nextId), stationId, isoTime, saved)
      invariant repository.nextId == old(repository.nextId) + |saved|
      invariant Run(entries, index) == After(saved, Run(entries[i..], index))
    {
      RunFrom(entries, i, index);
      match StepFor(entries[i], index)
      case Skip =>
      case Fail(e) =>
        assert Run(entries, index) == Outcome(saved, Some(e));
        return Failure(e);
      case Store(pollutantId, value) =>
        repository.Save(stationId, pollutantId, isoTime, value);
        RecordsAppend(old(repository.nextId), stationId, isoTime, saved, pollutantId, value);
        saved := saved + [(pollutantId, value)];
        insertedDataPoints := insertedDataPoints + 1;
    }
    assert Run(entries, index) == Outcome(saved, None);
    return Success(insertedDataPoints);
  }

  /**
   * insertDataInDb: skip the whole response when (station, time.iso) is
   * already stored; otherwise save one row per entry of `iaqi` plus `aqi`
   * whose `v` is a number, stop with an error at an unknown pollutant name
   * (earlier saves stay), and return how many rows were saved.
   */
  method InsertDataInDb(
    iaqi: seq<(string, Json)>, aqi: Json, isoTime: int,
    repository: PollutantDataRepository, station: Station,
    index: map<string, Pollutant>, points: seq<DataPoint>)
    returns (r: Result<nat, InsertError>)
    requires repository.Valid()
    modifies repository
    ensures repository.Valid()
    ensures AlreadySaved(points, station.id, isoTime) ==>
      r == Success(0) && repository.rows == old(repository.rows) && repository.nextId == old(repository.nextId)
    ensures !AlreadySaved(points, station.id, isoTime) ==>
      var outcome := Run(WithAqi(iaqi, aqi), index);
      && repository.rows == old(repository.rows) + Records(old(repository.nextId), station.id, isoTime, outcome.saves)
      && repository.nextId == old(repository.nextId) + |outcome.saves|
      && r == (if outcome.error.Some? then Failure(outcome.error.value) else Success(|outcome.saves|))
  {
    if AlreadySaved(points, station.id, isoTime) {
      return Success(0);
    }
    r := SaveEntries(WithAqi(iaqi, aqi), isoTime, repository, station.id, index);
  }

  /** A response of the shape the unit tests of the script send: co and no2 in iaqi. */
  function SampleIndex(aqiId: int, coId: int, no2Id: int): map<string, Pollutant> {
    map[
      "aqi" := Pollutant(aqiId, "Air Quality Index", "AQI", "", "aqi"),
      "co" := Pollutant(coId, "Carbon monoxide", "CO", "", "co"),
      "no2" := Pollutant(no2Id, "Nitrogen dioxide", "NO2", "", "no2")]
  }

  const SampleIaqi: seq<(string, Json)> := [("co", JObject([("v", JNumber(0.1))])), ("no2", JObject([("v", JNumber(11.1))]))]

  /** Both pollutants and the AQI are saved: three rows, iaqi order first. */
  lemma NumericAqiIsSavedLast(aqiId: int, coId: int, no2Id: int)
    ensures Run(WithAqi(SampleIaqi, JNumber(20.0)), SampleIndex(aqiId, coId, no2Id))
         == Outcome([(coId, 0.1), (no2Id, 11.1), (aqiId, 20.0)], None)
  {
    var index := SampleIndex(aqiId, coId, no2Id);
    var entries := WithAqi(SampleIaqi, JNumber(20.0));
    assert Keys(SampleIaqi) == ["co", "no2"];
    assert entries == SampleIaqi + [("aqi", JObject([("v", JNumber(20.0))]))];
    assert StepFor(entries[0], index) == Store(coId, 0.1);
    assert StepFor(entries[1], index) == Store(no2Id, 11.1);
    assert StepFor(entries[2], index) == Store(aqiId, 20.0);
    RunFrom(entries, 2, index);
    RunFrom(entries, 1, index);
    RunFrom(entries, 0, index);
    assert entries[3..] == [] && entries[0..] == entries;
  }

  /** An AQI of "-" is skipped: only the two pollutants are saved. */
  lemma StringAqiIsSkipped(aqiId: int, coId: int, no2Id: int)
    ensures Run(WithAqi(SampleIaqi, JString("-")), SampleIndex(aqiId, coId, no2Id))
         == Outcome([(coId, 0.1), (no2Id, 11.1)], None)
  {
    var index := SampleIndex(aqiId, coId, no2Id);
    var entries := WithAqi(SampleIaqi, JString("-"));
    assert Keys(SampleIaqi) == ["co", "no2"];
    assert entries == SampleIaqi + [("aqi", JObject([("v", JString("-"))]))];
    assert StepFor(entries[0], index) == Store(coId, 0.1);
    assert StepFor(entries[1], index) == Store(no2Id, 11.1);
    assert StepFor(entries[2], index) == Skip;
    RunFrom(entries, 2, index);
    RunFrom(entries, 1, index);
    RunFrom(entries, 0, index);
    assert entries[3..] == [] && entries[0..] == entries;
  }

  /** An unknown name throws, but the entries before it were saved already. */
  lemma UnknownPollutantStopsAfterEarlierSaves(aqiId: int, coId: int, no2Id: int)
    ensures Run(WithAqi(SampleIaqi + [("fakePollutant", JObject([("v", JNumber(3.0))]))], JNumber(20.0)),
                SampleIndex(aqiId, coId, no2Id))
         == Outcome([(coId, 0.1), (no2Id, 11.1)], Some(UnknownPollutant("fakePollutant")))
  {
    var iaqi := SampleIaqi + [("fakePollutant", JObject([("v", JNumber(3.0))]))];
    var index := SampleIndex(aqiId, coId, no2Id);
    var entries := WithAqi(iaqi, JNumber(20.0));
    assert Keys(iaqi) == ["co", "no2", "fakePollutant"];
    assert entries == iaqi + [("aqi", JObject([("v", JNumber(20.0))]))];
    assert StepFor(entries[0], index) == Store(coId, 0.1);
    assert StepFor(entries[1], index) == Store(no2Id, 11.1);
    assert StepFor(entries[2], index) == Fail(UnknownPollutant("fakePollutant"));
    RunFrom(entries, 2, index);
    RunFrom(entries, 1, index);
    RunFrom(entries, 0, index);
    assert entries[0..] == entries;
  }

  lemma {:induction false} StoresAppend(a: seq<(string, Json)>, b: seq<(string, Json)>, index: map<string, Pollutant>)
    ensures Stores(a + b, index) == Stores(a, index) + Stores(b, index)
    decreases |a|
  {
    if a == [] {
      assert a + b == b;
    } else {
      assert (a + b)[1..] == a[1..] + b;
      assert (a + b)[0] == a[0];
      StoresAppend(a[1..], b, index);

    }
  }

  /** Every entry with a numeric `v` and a known name is saved. */
  lemma {:induction false} StoresEveryStoredEntry(entries: seq<(string, Json)>, index: map<string, Pollutant>)
    ensures forall i :: 0 <= i < |entries| && StepFor(entries[i], index).Store? ==>
      (StepFor(entries[i], index).pollutantId, StepFor(entries[i], index).value) in Stores(entries, index)
    decreases |entries|
  {
    if entries != [] {
      StoresEveryStoredEntry(entries[1..], index);
      forall i | 1 <= i < |entries| && StepFor(entries[i], index).Store?
        ensures (StepFor(entries[i], index).pollutantId, StepFor(entries[i], index).value) in Stores(entries, index)
      {
        assert entries[i] == entries[1..][i - 1];
      }
    }
  }

  /**
   * The saves follow the entries' order: the saves of the first i + 1 entries
   * are those of the first i, then entry i's own save if it is stored.
   */
  lemma StoresInEntryOrder(entries: seq<(string, Json)>, i: nat, index: map<string, Pollutant>)
    requires i < |entries|
    ensures Stores(entries[..i + 1], index) == Stores(entries[..i], index) + match StepFor(entries[i], index)
      case Store(p, v) => [(p, v)]
      case _ => []
  {
    assert entries[..i + 1] == entries[..i] + [entries[i]];
    StoresAppend(entries[..i], [entries[i]], index);
    assert [entries[i]][1..] == [];
  }

  lemma {:induction false} StoresOfAllStored(entries: seq<(string, Json)>, index: map<string, Pollutant>)
    requires forall i :: 0 <= i < |entries| ==> StepFor(entries[i], index).Store?
    ensures |Stores(entries, index)| == |entries|
    decreases |entries|
  {
    if entries != [] {
      StoresOfAllStored(entries[1..], index);
    }
  }

  /**
   * With every WAQI pollutant name and `aqi` in the index, an iaqi object
   * that passed validation never makes the loop throw: each of its entries is
   * saved, and the AQI too when it is a number.
   */
  lemma CompleteIndexSavesValidatedEntries(iaqi: seq<(string, Json)>, aqi: Json, index: map<string, Pollutant>)
    requires CustomValidators.IsWaqiIaqi(JObject(iaqi))
    requires forall name :: name in CustomValidators.WaqiPollutantNames ==> name in index
    requires "aqi" in index
    ensures Run(WithAqi(iaqi, aqi), index).error == None
    ensures |Run(WithAqi(iaqi, aqi), index).saves| == |iaqi| + (if aqi.JNumber? then 1 else 0)
  {
    assert forall i :: 0 <= i < |iaqi| ==> CustomValidators.IaqiEntryValid(iaqi[i]);
    assert "aqi" !in Keys(iaqi);
    var last := ("aqi", JObject([("v", aqi)]));
    var entries := WithAqi(iaqi, aqi);
    assert entries == iaqi + [last];
    forall i | 0 <= i < |iaqi|
      ensures StepFor(iaqi[i], index).Store?
    {
      assert CustomValidators.IaqiEntryValid(iaqi[i]);
      assert Keys(iaqi[i].1.entries) == ["v"];
    }
    assert MemberV(last.1) == Defined(aqi);
    assert StepFor(last, index) == (if aqi.JNumber? then Store(index["aqi"].id, aqi.n) else Skip);
    assert forall i :: 0 <= i < |entries| ==> !StepFor(entries[i], index).Fail? by {
      forall i | 0 <= i < |entries|
        ensures !StepFor(entries[i], index).Fail?
      {
        if i < |iaqi| {
          assert entries[i] == iaqi[i];
        }
      }
    }
    RunStoresUntilFirstFailure(entries, index);
    StoresAppend(iaqi, [last], index);
    StoresOfAllStored(iaqi, index);
    assert [last][1..] == [];
  }
}
