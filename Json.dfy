/**
 * The values that `json.loads` produces and that the pipeline's dictionaries hold, with the few
 * Python operations the pipeline applies to them: truthiness, `dict.get` with a default, and `+`.
 * JSON numbers are modelled as integers.
 */
module Json {
  import opened Strings

  datatype Json =
    | JNull
    | JBool(b: bool)
    | JNum(n: int)
    | JStr(s: string)
    | JArr(items: seq<Json>)
    | JObj(fields: map<string, Json>)

  /** Python truthiness: None, False, 0 and empty containers are false. */
  predicate Truthy(v: Json) {
    match v
    case JNull => false
    case JBool(b) => b
    case JNum(n) => n != 0
    case JStr(s) => s != ""
    case JArr(a) => a != []
    case JObj(m) => m != map[]
  }

  /** Values that support `len(v)` followed by `v[:k]` (a `str` or a `list`). */
  predicate Sliceable(v: Json) {
    v.JStr? || v.JArr?
  }

  /** `d.get(key, default)`. */
  function Get(d: map<string, Json>, key: string, default: Json): (r: Json)
    ensures key in d ==> r == d[key]
    ensures key !in d ==> r == default
  {
    if key in d then d[key] else default
  }

  /** The integer value of a Python `bool` or `int`. */
  function NumberOf(v: Json): int
    requires v.JNum? || v.JBool?
  {
    if v.JNum? then v.n else if v.b then 1 else 0
  }

  /** Python's binary `+`: `None` stands for the `TypeError` it raises. */
  function Add(a: Json, b: Json): (r: Option<Json>)
    ensures a.JArr? && b.JArr? ==> r == Some(JArr(a.items + b.items))
    ensures r.Some? && (a.JArr? || b.JArr?) ==> a.JArr? && b.JArr?
    ensures r.Some? && (a.JObj? || b.JObj? || a.JNull? || b.JNull?) ==> false
  {
    if a.JArr? && b.JArr? then Some(JArr(a.items + b.items))
    else if a.JStr? && b.JStr? then Some(JStr(a.s + b.s))
    else if (a.JNum? || a.JBool?) && (b.JNum? || b.JBool?) then Some(JNum(NumberOf(a) + NumberOf(b)))
    else None
  }
}
