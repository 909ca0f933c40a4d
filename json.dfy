/** The JSON-like values that arrive as decoded websocket and zmq payloads and event files,
    with the Python operations the modelled code applies to them. */
module Json {

  datatype Json =
    | JNull
    | JBool(b: bool)
    | JInt(i: int)
    | JStr(s: string)
    | JList(items: seq<Json>)
    | JObj(fields: map<string, Json>)

  /** A decoded message or file body: a JSON object. */
  type Dict = map<string, Json>

  /** Python's `d.get(key)` (`None` when absent) on a dict. */
  function Get(d: Dict, key: string): Json
  {
    if key in d then d[key] else JNull
  }

  /** Python's `d.get(key, default)`. */
  function GetOr(d: Dict, key: string, default: Json): Json
  {
    if key in d then d[key] else default
  }

  /** Python's truth value of a decoded JSON value. */
  predicate Truthy(j: Json)
  {
    match j
    case JNull => false
    case JBool(b) => b
    case JInt(i) => i != 0
    case JStr(s) => |s| > 0
    case JList(items) => |items| > 0
    case JObj(fields) => |fields| > 0
  }
}
