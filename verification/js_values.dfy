/** The JavaScript values the action builds and inspects: a JSON-like value
    whose objects are sparse key/value maps (the `properties` payload), the truthiness tests the code
    applies with `if (x)`, and the rendering `${err}` of a thrown error. */
module JsValues {
  import opened Wrappers

  /** A JSON value. An object maps each present key to its value; a key that
      was never assigned is simply absent, so a sparse object is not
      null-filled. Key order is not modelled. */
  datatype Json =
    | JNull
    | JBool(b: bool)
    | JNum(n: int)
    | JStr(s: string)
    | JArr(items: seq<Json>)
    | JObj(fields: map<string, Json>)

  /** JavaScript truthiness of a value. */
  predicate Truthy(j: Json) {
    match j
    case JNull => false
    case JBool(b) => b
    case JNum(n) => n != 0
    case JStr(s) => s != ""
    case JArr(_) => true
    case JObj(_) => true
  }

  /** JavaScript truthiness of a `string | undefined`. */
  predicate TruthyText(o: Option<string>) {
    o.Some? && o.value != ""
  }

  /** A thrown value, as the template literal `${err}` renders it. */
  datatype Thrown = Thrown(text: string)

  /** What `x.executions.forEach(...)` throws when `x` has no `executions` array. */
  const MissingExecutions := Thrown("TypeError: Cannot read properties of undefined (reading 'forEach')")

  /** `new Error(message)`: its rendering carries the `Error: ` prefix. */
  function ErrorOf(message: string): (e: Thrown)
    ensures |e.text| == |message| + 7
    ensures e.text[..7] == "Error: " && e.text[7..] == message
  {
    Thrown("Error: " + message)
  }
}
