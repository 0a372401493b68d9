/**
 * The declarative WaqiDataValidator: the constraints its decorators put on
 * each property of a WAQI response's `data`, with the nested attribution,
 * city, time, debug and forecast validators. A property that is absent is
 * `undefined`: it fails the plain decorators (`@IsInt`, `@IsArray`,
 * `@IsString`, the custom constraints), but `@ValidateNested` skips it, so
 * an absent `city`, `time`, `forecast` or `debug` passes.
 */
module Validation {
  import opened Wrappers
  import opened Json
  import CustomValidators

  /** A property of a value: `undefined` (None) when absent or when the value is no object. */
  function Field(value: Json, key: string): (r: Option<Json>)
    ensures r.Some? ==> value.JObject? && key in Keys(value.entries)
  {
    if value.JObject? then Get(value.entries, key) else None
  }

  predicate StringField(value: Json, key: string) {
    Field(value, key).Some? && Field(value, key).value.JString?
  }

  predicate UrlField(value: Json, key: string, f: Formats) {
    Field(value, key).Some? && IsUrl(Field(value, key).value, f)
  }

  predicate IsDigit(c: char) {
    '0' <= c <= '9'
  }

  /** `/^[-+]\d{2}:\d{2}$/` */
  predicate IsTimezoneOffset(s: string) {
    && |s| == 6
    && (s[0] == '-' || s[0] == '+')
    && IsDigit(s[1]) && IsDigit(s[2])
    && s[3] == ':'
    && IsDigit(s[4]) && IsDigit(s[5])
  }

  /** WaqiAttributionValidator: `url` a URL, `name` a string, `logo` absent, null or a string. */
  predicate AttributionValid(a: Json, f: Formats) {
    && a.JObject?
    && UrlField(a, "url", f)
    && StringField(a, "name")
    && (Field(a, "logo").None? || Field(a, "logo") == Some(JNull) || StringField(a, "logo"))
  }

  /** `geo`: an array of exactly two numbers, each within [-180, 180]. */
  predicate GeoValid(geo: Option<Json>) {
    && geo.Some? && geo.value.JArray? && |geo.value.items| == 2
    && forall i :: 0 <= i < 2 ==> geo.value.items[i].JNumber? && -180.0 <= geo.value.items[i].n <= 180.0
  }

  /** WaqiCityValidator */
  predicate CityValid(c: Json, f: Formats) {
    && c.JObject?
    && GeoValid(Field(c, "geo"))
    && StringField(c, "name")
    && UrlField(c, "url", f)
  }

  /** WaqiTimeValidator */
  predicate TimeValid(t: Json, f: Formats) {
    && t.JObject?
    && Field(t, "s").Some? && CustomValidators.IsWaqiSTime(Field(t, "s").value, f)
    && StringField(t, "tz") && IsTimezoneOffset(Field(t, "tz").value.s)
    && Field(t, "v").Some? && IsInt(Field(t, "v").value) && Field(t, "v").value.n >= 0.0
    && Field(t, "iso").Some? && IsIso8601Strict(Field(t, "iso").value, f)
  }

  /** WaqiDebugValidator */
  predicate DebugValid(d: Json, f: Formats) {
    d.JObject? && Field(d, "sync").Some? && IsIso8601(Field(d, "sync").value, f)
  }

  /** WaqiForecastValidator */
  predicate ForecastValid(x: Json, f: Formats) {
    x.JObject? && Field(x, "daily").Some? && CustomValidators.IsWaqiDailyForecast(Field(x, "daily").value, f)
  }

  /** `aqi`: only when it is a number, an integer within [0, 500]. */
  predicate AqiValid(aqi: Option<Json>) {
    aqi.Some? && aqi.value.JNumber? ==> IsIntegral(aqi.value.n) && 0.0 <= aqi.value.n <= 500.0
  }

  /** `idx`: a positive integer. */
  predicate IdxValid(idx: Option<Json>) {
    idx.Some? && IsInt(idx.value) && idx.value.n > 0.0
  }

  /** `attributions`: an array of valid attributions. */
  predicate AttributionsValid(attributions: Option<Json>, f: Formats) {
    && attributions.Some? && attributions.value.JArray?
    && forall a :: a in attributions.value.items ==> AttributionValid(a, f)
  }

  /** `dominentpol`: a pollutant name or the empty string. */
  predicate DominentpolValid(pol: Option<Json>) {
    pol.Some? && pol.value.JString? && pol.value.s in CustomValidators.WaqiPollutantNames + [""]
  }

  predicate IaqiValid(iaqi: Option<Json>) {
    iaqi.Some? && CustomValidators.IsWaqiIaqi(iaqi.value)
  }

  /**
   * `@ValidateNested()` properties without `@IsDefined()`: absent, or valid
   * for the nested validator (`null` and primitives are refused).
   */
  predicate CityFieldValid(city: Option<Json>, f: Formats) {
    city.None? || CityValid(city.value, f)
  }

  predicate TimeFieldValid(time: Option<Json>, f: Formats) {
    time.None? || TimeValid(time.value, f)
  }

  predicate ForecastFieldValid(forecast: Option<Json>, f: Formats) {
    forecast.None? || ForecastValid(forecast.value, f)
  }

  predicate DebugFieldValid(debug: Option<Json>, f: Formats) {
    debug.None? || DebugValid(debug.value, f)
  }

  /** WaqiDataValidator, all properties together. */
  predicate IsWaqiData(data: Json, f: Formats) {
    && AqiValid(Field(data, "aqi"))
    && IdxValid(Field(data, "idx"))
    && AttributionsValid(Field(data, "attributions"), f)
    && CityFieldValid(Field(data, "city"), f)
    && DominentpolValid(Field(data, "dominentpol"))
    && IaqiValid(Field(data, "iaqi"))
    && TimeFieldValid(Field(data, "time"), f)
    && ForecastFieldValid(Field(data, "forecast"), f)
    && DebugFieldValid(Field(data, "debug"), f)
  }

  /**
   * A payload that passes gives the ingestion what it reads: a positive
   * integer station index and an iaqi object whose every value is
   * `{ v: <number ≥ 0> }` under a pollutant name; `time`, when present,
   * has a strict ISO 8601 `iso`, and `city`, when present, a valid position.
   * Neither needs to be present: see `AbsentNestedPropertiesPass`.
   */
  lemma ValidatedPayloadShape(data: Json, f: Formats)
    requires IsWaqiData(data, f)
    ensures data.JObject?
    ensures Field(data, "idx").Some? && Field(data, "idx").value.JNumber?
    ensures var idx := Field(data, "idx").value.n; IsIntegral(idx) && idx >= 1.0
    ensures Field(data, "time").Some? ==> StringField(Field(data, "time").value, "iso")
    ensures Field(data, "time").Some? ==> f.iso8601Strict(Field(Field(data, "time").value, "iso").value.s)
    ensures Field(data, "city").Some? ==> GeoValid(Field(Field(data, "city").value, "geo"))
    ensures Field(data, "iaqi").Some? && Field(data, "iaqi").value.JObject?
    ensures var iaqi := Field(data, "iaqi").value.entries; forall i :: 0 <= i < |iaqi| ==> (
      && iaqi[i].0 in CustomValidators.WaqiPollutantNames
      && iaqi[i].1.JObject? && |iaqi[i].1.entries| == 1 && iaqi[i].1.entries[0].0 == "v"
      && iaqi[i].1.entries[0].1.JNumber? && iaqi[i].1.entries[0].1.n >= 0.0)
  {
    assert IdxValid(Field(data, "idx"));
    assert TimeFieldValid(Field(data, "time"), f);
    assert CityFieldValid(Field(data, "city"), f);
    IntegralPositiveIsAtLeastOne(Field(data, "idx").value.n);
    IaqiShape(Field(data, "iaqi").value);
  }

  /**
   * The nested validators do not require their property: a payload whose
   * other properties pass is valid without `city`, `time`, `forecast` and
   * `debug`, though the ingestion then has no `time.iso` to read.
   */
  lemma AbsentNestedPropertiesPass(data: Json, f: Formats)
    requires AqiValid(Field(data, "aqi")) && IdxValid(Field(data, "idx"))
    requires AttributionsValid(Field(data, "attributions"), f)
    requires DominentpolValid(Field(data, "dominentpol")) && IaqiValid(Field(data, "iaqi"))
    requires Field(data, "city").None? && Field(data, "time").None?
    requires Field(data, "forecast").None? && Field(data, "debug").None?
    ensures IsWaqiData(data, f)
  {
  }

  lemma IntegralPositiveIsAtLeastOne(x: real)
    requires IsIntegral(x) && x > 0.0
    ensures x >= 1.0
  {
  }

  lemma IaqiShape(iaqi: Json)
    requires CustomValidators.IsWaqiIaqi(iaqi)
    ensures iaqi.JObject?
    ensures forall i :: 0 <= i < |iaqi.entries| ==> (
      && iaqi.entries[i].0 in CustomValidators.WaqiPollutantNames
      && iaqi.entries[i].1.JObject? && |iaqi.entries[i].1.entries| == 1 && iaqi.entries[i].1.entries[0].0 == "v"
      && iaqi.entries[i].1.entries[0].1.JNumber? && iaqi.entries[i].1.entries[0].1.n >= 0.0)
  {
    forall i | 0 <= i < |iaqi.entries|
      ensures CustomValidators.IaqiEntryValid(iaqi.entries[i])
    {
    }
  }

  /** Whatever `aqi` holds that is not a number, the verdict is the one it would be without it. */
  lemma NonNumericAqiIsIgnored(data1: Json, data2: Json, f: Formats)
    requires forall key :: key != "aqi" ==> Field(data1, key) == Field(data2, key)
    requires Field(data1, "aqi").None? || !Field(data1, "aqi").value.JNumber?
    requires Field(data2, "aqi").None? || !Field(data2, "aqi").value.JNumber?
    ensures IsWaqiData(data1, f) <==> IsWaqiData(data2, f)
  {
    assert Field(data1, "idx") == Field(data2, "idx");
    assert Field(data1, "attributions") == Field(data2, "attributions");
    assert Field(data1, "city") == Field(data2, "city");
    assert Field(data1, "dominentpol") == Field(data2, "dominentpol");
    assert Field(data1, "iaqi") == Field(data2, "iaqi");
    assert Field(data1, "time") == Field(data2, "time");
    assert Field(data1, "forecast") == Field(data2, "forecast");
    assert Field(data1, "debug") == Field(data2, "debug");
  }

  /** A numeric `aqi` passes exactly when it is an integer from 0 to 500. */
  lemma NumericAqiRange(x: real)
    ensures AqiValid(Some(JNumber(x))) <==> x == x.Floor as real && 0.0 <= x <= 500.0
    ensures AqiValid(Some(JNumber(20.0))) && !AqiValid(Some(JNumber(501.0))) && !AqiValid(Some(JNumber(-1.0)))
    ensures AqiValid(Some(JString("-"))) && AqiValid(None)
  {
  }

  /** A zero or negative station index fails, whatever the formats accept. */
  lemma NonPositiveIdxFails(data: Json, f: Formats, idx: real)
    requires Field(data, "idx") == Some(JNumber(idx)) && idx <= 0.0
    ensures !IsWaqiData(data, f)
  {
  }

  /** The offsets WAQI sends pass the pattern; one missing a sign or a digit does not. */
  lemma TimezoneOffsetExamples()
    ensures IsTimezoneOffset("+01:00") && IsTimezoneOffset("-09:30")
    ensures !IsTimezoneOffset("01:00") && !IsTimezoneOffset("+1:00") && !IsTimezoneOffset("+01:00 ")
  {
  }
}
