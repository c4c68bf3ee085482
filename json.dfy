/** The decoded JSON payload of the search API, as the pipeline sees it. */
module Json {
  import opened Wrappers

  /** A decoded JSON value. Numbers are integers only: the fields the
      pipeline reads are identifiers and strings. */
  datatype Json =
    | JNull
    | JBool(b: bool)
    | JNum(n: int)
    | JStr(s: string)
    | JArr(items: seq<Json>)
    | JObj(fields: map<string, Json>)

  /** Python's `value[key]` on a decoded value: it succeeds only on an object
      that holds the key (a missing key raises KeyError, any other kind of
      value raises TypeError). */
  function Lookup(value: Json, key: string): (r: Option<Json>)
    ensures r.Some? <==> value.JObj? && key in value.fields
    ensures r.Some? ==> r.value == value.fields[key]
  {
    match value
    case JObj(fields) => if key in fields then Some(fields[key]) else None
    case _ => None
  }
}
