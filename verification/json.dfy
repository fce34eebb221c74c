/** Values produced by `json.loads`, and the few Python operations the pipeline
    applies to them without checking their type first. Decoding itself is an
    oracle (`decode: string -> Option<Json>`), passed in by the callers. */
module Json {
  import opened Wrappers
  import opened Text

  /** JSON numbers are modelled as integers. */
  datatype Json =
    | JNull
    | JBool(b: bool)
    | JNum(n: int)
    | JStr(s: string)
    | JArr(items: seq<Json>)
    | JObj(fields: map<string, Json>)

  /** The exceptions Python raises for `in` and `[...]` on the wrong kind of value. */
  datatype PyError = TypeError | KeyError

  /** Python `key in v`: a key test on a dict, a substring test on a str, an
      element test on a list, and a TypeError on anything else. */
  function In(key: string, v: Json): Result<bool, PyError> {
    match v
    case JObj(m) => Ok(key in m)
    case JStr(s) => Ok(Contains(s, key))
    case JArr(xs) => Ok(JStr(key) in xs)
    case _ => Err(TypeError)
  }

  /** Python `v[key]` with a string key. */
  function Get(v: Json, key: string): Result<Json, PyError> {
    match v
    case JObj(m) => if key in m then Ok(m[key]) else Err(KeyError)
    case _ => Err(TypeError)
  }

  /** Whether Python can hash the value, as a dict key must be: lists and
      dicts cannot be hashed. */
  predicate Hashable(v: Json) {
    !v.JArr? && !v.JObj?
  }

  /** Python truthiness: `None`, `False`, `0` and empty containers are false. */
  predicate Truthy(v: Json) {
    match v
    case JNull => false
    case JBool(b) => b
    case JNum(n) => n != 0
    case JStr(s) => s != ""
    case JArr(xs) => xs != []
    case JObj(m) => m != map[]
  }

  /** `d.get(key, default)` on a dict. */
  function DictGet(m: map<string, Json>, key: string, default: Json): Json {
    if key in m then m[key] else default
  }

  /** Python `str(v)`, exact for scalars. */
  function Show(v: Json): string {
    match v
    case JNull => "None"
    case JBool(b) => if b then "True" else "False"
    case JNum(n) => if n < 0 then "-" + NatToString(-n) else NatToString(n)
    case JStr(s) => s
    case JArr(_) => "[...]"
    case JObj(_) => "{...}"
  }
}
