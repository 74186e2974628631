/** Values shared by the stores: an optional value, bytes, and the JSON values
    that arrive in request bodies and persisted documents, with Python's notion
    of truthiness for them. */
module Values {

  datatype Option<+T> = None | Some(value: T)

  newtype byte = x: int | 0 <= x < 256

  /** A decoded JSON value. Numbers are kept as integers: the backend never
      computes with them, it only tests them against null and for zero. */
  datatype Json =
    | JNull
    | JBool(b: bool)
    | JNum(n: int)
    | JStr(s: string)
    | JArr(items: seq<Json>)
    | JObj(fields: map<string, Json>)

  /** Python's `bool(value)` for the value `json.loads` produces. */
  function Truthy(j: Json): (b: bool)
    ensures !b <==> j == JNull || j == JBool(false) || j == JNum(0) || j == JStr("")
                    || j == JArr([]) || j == JObj(map[])
  {
    match j
    case JNull => false
    case JBool(b) => b
    case JNum(n) => n != 0
    case JStr(s) => s != ""
    case JArr(items) => items != []
    case JObj(fields) => fields != map[]
  }

  /** The name Python gives the type of the value `json.loads` produces. */
  function PythonTypeName(j: Json): string {
    match j
    case JNull => "NoneType"
    case JBool(_) => "bool"
    case JNum(_) => "int"
    case JStr(_) => "str"
    case JArr(_) => "list"
    case JObj(_) => "dict"
  }

  /** `d.get(key)` on a decoded JSON object: a missing key and an explicit
      `null` both come back as Python's `None`. */
  function Get(fields: map<string, Json>, key: string): (r: Option<Json>)
    ensures r != Some(JNull)
    ensures r.Some? ==> key in fields && r.value == fields[key]
    ensures key in fields && fields[key] != JNull ==> r.Some?
  {
    if key in fields && fields[key] != JNull then Some(fields[key]) else None
  }
}
