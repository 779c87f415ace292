/** Parsed JSON values and the JavaScript operators the review handlers apply to them:
    optional chaining `v?.key`, truthiness and `||`, nullishness and `??`, `typeof`. */
module Json {
  import opened Wrappers

  datatype Json = JNull | JBool(b: bool) | JNum(n: real) | JStr(s: string) | JArr(items: seq<Json>) | JObj(fields: map<string, Json>)

  /** `v?.key`: `None` is `undefined`. Only an object with that key yields a value. */
  function Get(v: Option<Json>, key: string): Option<Json>
  {
    if v.Some? && v.value.JObj? && key in v.value.fields then Some(v.value.fields[key]) else None
  }

  /** JavaScript truthiness (`undefined`, `null`, `false`, `0` and `""` are falsy). */
  predicate Truthy(v: Option<Json>)
  {
    match v
    case None => false
    case Some(j) =>
      match j
      case JNull => false
      case JBool(b) => b
      case JNum(n) => n != 0.0
      case JStr(s) => s != ""
      case JArr(_) => true
      case JObj(_) => true
  }

  /** `v || d`. */
  function Or(v: Option<Json>, d: Json): Json
  {
    if Truthy(v) then v.value else d
  }

  /** `v` is what `upstream || d` gives: the upstream value when it is truthy, the default
      otherwise. */
  predicate DefaultedTo(v: Json, upstream: Option<Json>, d: Json)
  {
    (Truthy(upstream) && Some(v) == upstream) || (!Truthy(upstream) && v == d)
  }

  /** `undefined` or `null`. */
  predicate Nullish(v: Option<Json>)
  {
    v.None? || v.value.JNull?
  }

  /** `v ?? d`. */
  function Coalesce(v: Option<Json>, d: Json): Json
  {
    if Nullish(v) then d else v.value
  }

  /** `typeof v === "number" ? v : null`. */
  function NumberOrNull(v: Option<Json>): Json
  {
    if v.Some? && v.value.JNum? then v.value else JNull
  }

  /** `Array.isArray(v) ? v : []`, as a sequence of elements. */
  function ArrayItems(v: Option<Json>): seq<Json>
  {
    if v.Some? && v.value.JArr? then v.value.items else []
  }
}
