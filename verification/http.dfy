/** JSON values as they reach and leave the HTTP handlers, JavaScript
    truthiness over them, and the (status, body) pair a handler answers with. */
module Http {
  import opened Wrappers

  /** A parsed JSON document. Numbers are kept as exact reals; the rounding
      of a parsed number to a double is not modelled. */
  datatype Json =
    | JNull
    | JBool(b: bool)
    | JNum(n: real)
    | JStr(s: string)
    | JArr(items: seq<Json>)
    | JObj(fields: map<string, Json>)

  /** JavaScript's `!!v` on a value produced by JSON parsing: `null`, `false`,
      `0` and `""` are falsy; every array and object, even an empty one, is
      truthy. */
  function Truthy(j: Json): (b: bool)
    ensures j.JArr? || j.JObj? ==> b
    ensures !b <==> j in {JNull, JBool(false), JNum(0.0), JStr("")}
  {
    match j
    case JNull => false
    case JBool(b) => b
    case JNum(n) => n != 0.0
    case JStr(s) => s != ""
    case JArr(_) => true
    case JObj(_) => true
  }

  /** JavaScript truthiness of a string that may be `undefined`: absent and
      `""` are falsy. */
  function TruthyText(v: Option<string>): (b: bool)
    ensures b <==> v.Some? && Truthy(JStr(v.value))
  {
    v.Some? && v.value != ""
  }

  /** What `c.json(body, status)` sends: a status code and a JSON object. */
  datatype Response = Response(status: nat, body: map<string, Json>)
}
