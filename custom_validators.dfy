/**
 * The three hand-written class-validator constraints for WAQI payloads. Each
 * is a loop over the keys that returns false at the first violation, written
 * here as a recursion over the entries, and proved to be the universally
 * quantified condition it stands for.
 */
module CustomValidators {
  import opened Wrappers
  import opened Json

  /** The WAQI pollutant names, in the order the constants file lists them. */
  const WaqiPollutantNames: seq<string> := ["co", "dew", "h", "no2", "o3", "p", "pm10", "pm25", "so2", "t", "w", "wg"]

  /** Keys a daily forecast may carry: the pollutant names and `uvi`. */
  const DailyForecastKeys: seq<string> := WaqiPollutantNames + ["uvi"]

  /** The keys every day of a forecast has, in the order they are checked. */
  const DaySubKeys: seq<string> := ["min", "max", "avg", "day"]

  // ---------------------------------------------------------------- daily forecast

  /** What the check of one sub-key of a day demands of its value. */
  predicate SubKeyValueValid(subKey: string, value: Option<Json>, f: Formats) {
    if subKey == "day" then
      f.iso8601((if value.Some? then Display(value.value, f) else "undefined") + "T00:00:00Z")
    else
      value.Some? && IsInt(value.value)
  }

  /**
   * The inner `for (const subKey of ...)` loop: every sub-key is a key of the
   * day, and its value passes its check.
   */
  function SubKeysValid(day: seq<(string, Json)>, subKeys: seq<string>, f: Formats): (r: bool)
    ensures r <==> forall k :: 0 <= k < |subKeys| ==>
      subKeys[k] in Keys(day) && SubKeyValueValid(subKeys[k], Get(day, subKeys[k]), f)
  {
    if subKeys == [] then true
    else if subKeys[0] !in Keys(day) then false
    else if !SubKeyValueValid(subKeys[0], Get(day, subKeys[0]), f) then false
    else
      var r := SubKeysValid(day, subKeys[1..], f);
      assert forall k :: 1 <= k < |subKeys| ==> subKeys[k] == subKeys[1..][k - 1];
      r
  }

  /**
   * One day of a forecast: exactly four keys, which are min, max, avg and day;
   * min, max and avg are integers and `${day}T00:00:00Z` is an ISO 8601 date.
   * The index keys a string or an array would show never include "min", so
   * anything but an object fails.
   */
  predicate IsForecastDay(day: Json, f: Formats) {
    && day.JObject?
    && |day.entries| == 4
    && SubKeysValid(day.entries, DaySubKeys, f)
  }

  /** The per-key condition of the daily forecast, stated outright. */
  predicate DailyEntryValid(entry: (string, Json), f: Formats) {
    && entry.0 in DailyForecastKeys
    && entry.1.JArray? && |entry.1.items| > 0
    && forall j :: 0 <= j < |entry.1.items| ==> IsForecastDay(entry.1.items[j], f)
  }

  /** The `for (const day of value[key])` loop. */
  function DaysValid(days: seq<Json>, f: Formats): (r: bool)
    ensures r <==> forall j :: 0 <= j < |days| ==> IsForecastDay(days[j], f)
  {
    if days == [] then true
    else if !IsForecastDay(days[0], f) then false
    else
      var r := DaysValid(days[1..], f);
      assert forall j :: 1 <= j < |days| ==> days[j] == days[1..][j - 1];
      r
  }

  /** The `for (const key of keys)` loop of the daily forecast. */
  function DailyEntriesValid(entries: seq<(string, Json)>, f: Formats): (r: bool)
    ensures r <==> forall i :: 0 <= i < |entries| ==> DailyEntryValid(entries[i], f)
  {
    if entries == [] then true
    else if entries[0].0 !in DailyForecastKeys then false
    else if !entries[0].1.JArray? || |entries[0].1.items| == 0 then false
    else if !DaysValid(entries[0].1.items, f) then false
    else
      var r := DailyEntriesValid(entries[1..], f);
      assert forall i :: 1 <= i < |entries| ==> entries[i] == entries[1..][i - 1];
      r
  }

  /** IsWaqiDailyForecastConstraint.validate */
  function IsWaqiDailyForecast(value: Json, f: Formats): (r: bool)
    ensures r <==> value.JObject? && forall i :: 0 <= i < |value.entries| ==> DailyEntryValid(value.entries[i], f)
  {
    if !IsObject(value) then false else DailyEntriesValid(value.entries, f)
  }

  /**
   * A valid day has exactly the keys min, max, avg and day, whatever order
   * they come in.
   */
  lemma ForecastDayKeysAreExact(day: Json, f: Formats)
    requires IsForecastDay(day, f)
    ensures forall key :: key in Keys(day.entries) <==> key in DaySubKeys
  {
    var ks := Keys(day.entries);
    assert forall k :: 0 <= k < 4 ==> DaySubKeys[k] in ks;
    forall key | key in ks
      ensures key in DaySubKeys
    {
      OnlySubKeys(ks, key);
    }
  }

  /** Four keys that include min, max, avg and day leave no room for another. */
  lemma OnlySubKeys(ks: seq<string>, key: string)
    requires |ks| == 4 && key in ks
    requires forall k :: 0 <= k < 4 ==> DaySubKeys[k] in ks
    ensures key in DaySubKeys
  {
    assert DaySubKeys[0] == "min" && DaySubKeys[1] == "max" && DaySubKeys[2] == "avg" && DaySubKeys[3] == "day";
    var i0 :| 0 <= i0 < 4 && ks[i0] == "min";
    var i1 :| 0 <= i1 < 4 && ks[i1] == "max";
    var i2 :| 0 <= i2 < 4 && ks[i2] == "avg";
    var i3 :| 0 <= i3 < 4 && ks[i3] == "day";
    var ie :| 0 <= ie < 4 && ks[ie] == key;
    assert ie == i0 || ie == i1 || ie == i2 || ie == i3;
  }

  // ---------------------------------------------------------------- s-time

  /** Where `c` first occurs in `s`. */
  function IndexOfChar(s: string, c: char): (r: Option<nat>)
    ensures r.None? <==> c !in s
    ensures r.Some? ==> r.value < |s| && s[r.value] == c && c !in s[..r.value]
  {
    if s == [] then None
    else if s[0] == c then Some(0)
    else
      match IndexOfChar(s[1..], c)
      case None => None
      case Some(k) =>
        assert s[..k + 1] == [s[0]] + s[1..][..k];
        Some(k + 1)
  }

  /** `s.replace(/ /, 'T')`: only the first space becomes a T. */
  function ReplaceFirstSpace(s: string): (r: string)
    ensures |r| == |s|
    ensures ' ' !in s ==> r == s
    ensures ' ' in s ==> exists k :: 0 <= k < |s| && s[k] == ' ' && ' ' !in s[..k] && r == s[k := 'T']
  {
    match IndexOfChar(s, ' ')
    case None => s
    case Some(k) => s[k := 'T']
  }

  /** IsWaqiSTimeConstraint.validate: a string read as UTC once its first space is a T. */
  function IsWaqiSTime(value: Json, f: Formats): (r: bool)
    ensures r <==> value.JString? && f.iso8601Strict(ReplaceFirstSpace(value.s) + "Z")
  {
    if !IsString(value) then false else f.iso8601Strict(ReplaceFirstSpace(value.s) + "Z")
  }

  // ---------------------------------------------------------------- iaqi

  /** The per-key condition of the iaqi object: `{ v: <number ≥ 0> }` and nothing else. */
  predicate IaqiEntryValid(entry: (string, Json)) {
    && entry.0 in WaqiPollutantNames
    && entry.1.JObject?
    && |entry.1.entries| == 1 && entry.1.entries[0].0 == "v"
    && entry.1.entries[0].1.JNumber? && entry.1.entries[0].1.n >= 0.0
  }

  /** The `for (const key of keys)` loop of the iaqi check. */
  function IaqiEntriesValid(entries: seq<(string, Json)>): (r: bool)
    ensures r <==> forall i :: 0 <= i < |entries| ==> IaqiEntryValid(entries[i])
  {
    if entries == [] then true
    else if entries[0].0 !in WaqiPollutantNames then false
    else if !IsObject(entries[0].1) then false
    else if |Keys(entries[0].1.entries)| != 1 || Keys(entries[0].1.entries)[0] != "v" then false
    else
      var v := Get(entries[0].1.entries, "v");
      if v.None? || !IsNumber(v.value) || v.value.n < 0.0 then false
      else
        var r := IaqiEntriesValid(entries[1..]);
        assert forall i :: 1 <= i < |entries| ==> entries[i] == entries[1..][i - 1];
        r
  }

  /** IsWaqiIaqiConstraint.validate */
  function IsWaqiIaqi(value: Json): (r: bool)
    ensures r <==> value.JObject? && forall i :: 0 <= i < |value.entries| ==> IaqiEntryValid(value.entries[i])
  {
    if !IsObject(value) then false else IaqiEntriesValid(value.entries)
  }

  /** Every concentration that passes is a number, never negative. */
  lemma IaqiValuesAreNonNegative(value: Json, name: string)
    requires IsWaqiIaqi(value)
    requires Get(value.entries, name).Some?
    ensures name in WaqiPollutantNames
    ensures Get(value.entries, name).value.JObject?
    ensures var v := Get(Get(value.entries, name).value.entries, "v"); v.Some? && v.value.JNumber? && v.value.n >= 0.0
  {
    var i :| 0 <= i < |value.entries| && value.entries[i] == (name, Get(value.entries, name).value);
    assert IaqiEntryValid(value.entries[i]);
    assert Keys(value.entries[i].1.entries)[0] == "v";
  }

  /** A negative temperature is refused, like any negative concentration. */
  lemma IaqiRejectsNegativeTemperature()
    ensures !IsWaqiIaqi(JObject([("o3", JObject([("v", JNumber(12.5))])), ("t", JObject([("v", JNumber(-4.7))]))]))
  {
    var value := JObject([("o3", JObject([("v", JNumber(12.5))])), ("t", JObject([("v", JNumber(-4.7))]))]);
    assert !IaqiEntryValid(value.entries[1]);
  }

  /** The empty object is a valid forecast; a string is not. */
  lemma DailyForecastEdgeCases(f: Formats)
    ensures IsWaqiDailyForecast(JObject([]), f)
    ensures !IsWaqiDailyForecast(JString("string"), f)
    ensures !IsWaqiDailyForecast(JObject([("o3", JArray([]))]), f)
  {
  }

  /** A day that lacks one of the four keys is refused, even with a fourth key of another name. */
  lemma ForecastDayNeedsTheDayKey(f: Formats)
    ensures !IsForecastDay(JObject([("min", JNumber(0.0)), ("max", JNumber(10.0)), ("avg", JNumber(5.0)),
                                    ("dayDay", JString("2020-12-05"))]), f)
  {
    var d := [("min", JNumber(0.0)), ("max", JNumber(10.0)), ("avg", JNumber(5.0)), ("dayDay", JString("2020-12-05"))];
    assert Keys(d) == ["min", "max", "avg", "dayDay"];
    assert DaySubKeys[3] !in Keys(d);
  }

  /** An average with a fractional part is refused. */
  lemma ForecastDayNeedsIntegers(f: Formats)
    ensures !IsForecastDay(JObject([("min", JNumber(0.0)), ("max", JNumber(10.0)), ("avg", JNumber(5.4)),
                                    ("day", JString("2020-12-05"))]), f)
  {
    var d := [("min", JNumber(0.0)), ("max", JNumber(10.0)), ("avg", JNumber(5.4)), ("day", JString("2020-12-05"))];
    assert Keys(d) == ["min", "max", "avg", "day"];
    assert Get(d, "avg") == Some(JNumber(5.4));
    assert (5.4).Floor == 5;
    assert !SubKeyValueValid(DaySubKeys[2], Get(d, DaySubKeys[2]), f);
  }
}
