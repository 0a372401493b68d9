/**
 * JSON values as the WAQI payload delivers them, and the primitive checks of
 * the class-validator library that the ingestion validators are built from.
 * An object is its list of entries in key order; keys of a JavaScript object
 * are distinct, so each entry's value is the value of its key.
 */
module Json {
  import opened Wrappers

  datatype Json =
    | JNull
    | JBool(b: bool)
    | JNumber(n: real)
    | JString(s: string)
    | JArray(items: seq<Json>)
    | JObject(entries: seq<(string, Json)>)

  /** `Object.keys` of an object. */
  function Keys(entries: seq<(string, Json)>): (keys: seq<string>)
    ensures |keys| == |entries|
    ensures forall i :: 0 <= i < |entries| ==> keys[i] == entries[i].0
  {
    seq(|entries|, i requires 0 <= i < |entries| => entries[i].0)
  }

  /** `obj[key]`; None is `undefined`. */
  function Get(entries: seq<(string, Json)>, key: string): (r: Option<Json>)
    ensures r.None? <==> key !in Keys(entries)
    ensures r.Some? ==> exists i :: 0 <= i < |entries| && entries[i] == (key, r.value)
  {
    if entries == [] then None
    else if entries[0].0 == key then Some(entries[0].1)
    else
      var r := Get(entries[1..], key);
      assert Keys(entries) == [entries[0].0] + Keys(entries[1..]);
      if r.Some? then
        var i :| 0 <= i < |entries[1..]| && entries[1..][i] == (key, r.value);
        assert entries[i + 1] == (key, r.value);
        r
      else r
  }

  /** Where `key` sits among the entries; None when it is not a key. */
  function KeyIndex(entries: seq<(string, Json)>, key: string): (r: Option<nat>)
    ensures r.None? <==> key !in Keys(entries)
    ensures r.Some? ==> r.value < |entries| && entries[r.value].0 == key
    ensures r.Some? ==> forall j :: 0 <= j < r.value ==> entries[j].0 != key
  {
    if entries == [] then None
    else if entries[0].0 == key then Some(0)
    else
      assert Keys(entries) == [entries[0].0] + Keys(entries[1..]);
      match KeyIndex(entries[1..], key)
      case None => None
      case Some(k) => Some(k + 1)
  }

  /** class-validator `isObject`: a non-null object that is not an array. */
  predicate IsObject(j: Json) {
    j.JObject?
  }

  predicate IsNumber(j: Json) {
    j.JNumber?
  }

  predicate IsIntegral(x: real) {
    x == x.Floor as real
  }

  /** class-validator `isInt`: a number with no fractional part. */
  predicate IsInt(j: Json) {
    j.JNumber? && IsIntegral(j.n)
  }

  predicate IsString(j: Json) {
    j.JString?
  }

  /**
   * The library checks that this model leaves opaque: ISO 8601 dates (plain
   * and strict), URLs, and the text a template literal `${value}` makes of a
   * value that is not a string.
   */
  datatype Formats = Formats(
    iso8601: string -> bool,
    iso8601Strict: string -> bool,
    url: string -> bool,
    display: Json -> string)

  /** `${value}` */
  function Display(j: Json, f: Formats): string {
    if j.JString? then j.s else f.display(j)
  }

  /** class-validator `isISO8601`, which also demands a string. */
  predicate IsIso8601(j: Json, f: Formats) {
    j.JString? && f.iso8601(j.s)
  }

  predicate IsIso8601Strict(j: Json, f: Formats) {
    j.JString? && f.iso8601Strict(j.s)
  }

  /** class-validator `isURL`, which also demands a string. */
  predicate IsUrl(j: Json, f: Formats) {
    j.JString? && f.url(j.s)
  }
}
