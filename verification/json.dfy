/**
 * The JSON values that flow through the chunk files, and the Python
 * behaviour the pipeline applies to them: `dict.get`, truthiness (`x or y`)
 * and `str(x)` as an f-string renders it.
 */
module JsonValue {
  import opened PyText

  /** A JSON value as the chunk files hold it. Numbers are integers (page
      numbers); tables are arrays of arrays of cells. */
  datatype Json =
    | JNull
    | JBool(b: bool)
    | JInt(i: int)
    | JStr(s: string)
    | JArr(items: seq<Json>)

  /** A JSON object, i.e. a Python dict after `json.loads`. */
  type Obj = map<string, Json>

  /** `obj.get(key)`: the value, or None when the key is absent. */
  function Get(obj: Obj, key: string): (v: Json)
    ensures key !in obj ==> v == JNull
    ensures key in obj ==> v == obj[key]
  {
    if key in obj then obj[key] else JNull
  }

  /** `obj.get(key, default)`. */
  function GetOr(obj: Obj, key: string, default: Json): (v: Json)
    ensures key !in obj ==> v == default
    ensures key in obj ==> v == obj[key]
  {
    if key in obj then obj[key] else default
  }

  /** Python truthiness: None, False, 0, "" and [] are false. */
  predicate Truthy(v: Json) {
    match v
    case JNull => false
    case JBool(b) => b
    case JInt(i) => i != 0
    case JStr(s) => s != []
    case JArr(items) => items != []
  }

  /** `str(v)`, which is what `f"{v}"` inserts. */
  function PyStr(v: Json): string
    decreases v, 1
  {
    match v
    case JNull => "None"
    case JBool(b) => if b then "True" else "False"
    case JInt(i) => IntToString(i)
    case JStr(s) => s
    case JArr(items) => "[" + JoinWith(", ", ReprAll(items)) + "]"
  }

  /** `repr(v)`, as a list renders its elements. */
  function PyRepr(v: Json): string
    decreases v, 2
  {
    match v
    case JStr(s) => "'" + s + "'"
    case _ => PyStr(v)
  }

  function ReprAll(items: seq<Json>): seq<string>
    decreases items, 0
  {
    if items == [] then [] else [PyRepr(items[0])] + ReprAll(items[1..])
  }
}
