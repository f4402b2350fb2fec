/** JSON values as Python's `json` module hands them over (`dict`, `list`, `str`,
    numbers, booleans and `None`), and the few dynamic operations on them that the URL
    extractors rely on: truthiness, `d.get(key, default)` and `x[0]`. */
module Json {
  import opened Wrappers

  datatype Json =
    | JNull
    | JBool(b: bool)
    | JNum(n: real)
    | JStr(s: string)
    | JArr(items: seq<Json>)
    | JObj(fields: map<string, Json>)

  /** A JSON object as a Python `dict` with string keys. */
  type Entry = map<string, Json>

  /** `json.loads`: partial, `None` standing for `JSONDecodeError`. */
  type Loader = string -> Option<Json>

  /** Python truthiness: `None`, `False`, zero and empty containers are false. */
  predicate Truthy(j: Json) {
    match j
    case JNull => false
    case JBool(b) => b
    case JNum(n) => n != 0.0
    case JStr(s) => s != []
    case JArr(items) => items != []
    case JObj(fields) => fields != map[]
  }

  /** `d.get(key, default)` */
  function Get(d: Entry, key: string, default: Json): Json {
    if key in d then d[key] else default
  }

  /** `x[0]`: the first item of a list or the first character of a string; an empty
      one raises IndexError, a dict raises KeyError (its keys are strings, never 0),
      and any other value is not subscriptable. */
  function First(x: Json): (r: Result<Json>)
    ensures x.JArr? && x.items != [] ==> r == Ok(x.items[0])
    ensures r.Ok? ==> x.JArr? || x.JStr?
    ensures r.Err? <==> !(Truthy(x) && (x.JArr? || x.JStr?))
  {
    match x
    case JArr(items) => if items == [] then Err(IndexError) else Ok(items[0])
    case JStr(s) => if s == [] then Err(IndexError) else Ok(JStr([s[0]]))
    case JObj(_) => Err(KeyError)
    case _ => Err(TypeError)
  }
}
