/** Parsed JSON values, as the browser's JSON.parse hands them to the app,
    and the JavaScript notion of truthiness the app tests them with. */
module Json {
  import opened Wrappers

  /** A JSON value. Numbers are restricted to integers: the only numbers the
      app stores are reset intervals in whole hours. */
  datatype Json =
    | JNull
    | JBool(b: bool)
    | JNum(n: int)
    | JStr(s: string)
    | JArr(elems: seq<Json>)
    | JObj(fields: map<string, Json>)

  /** JavaScript truthiness: `null`, `false`, `0` and `""` are falsy,
      every other value (arrays and objects included) is truthy. */
  predicate Truthy(j: Json) {
    match j
    case JNull => false
    case JBool(b) => b
    case JNum(n) => n != 0
    case JStr(s) => s != ""
    case _ => true
  }

  /** Property access `obj.key`: `None` stands for `undefined`. */
  function Get(obj: map<string, Json>, key: string): (r: Option<Json>)
    ensures r.Some? <==> key in obj
    ensures r.Some? ==> r.value == obj[key]
  {
    if key in obj then Some(obj[key]) else None
  }

  /** Truthiness of a property that may be `undefined` (which is falsy). */
  predicate TruthyField(v: Option<Json>) {
    v.Some? && Truthy(v.value)
  }
}
