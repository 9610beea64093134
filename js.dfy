/** The JavaScript values the modelled code passes around without inspecting:
    parsed JSON documents and thrown values. */
module Js {
  import opened Wrappers

  /** A parsed JSON document. Numbers keep their textual form: nothing in the
      modelled code computes with them. Object members keep their order. */
  datatype Json =
    | JNull
    | JBool(b: bool)
    | JNumber(lexeme: string)
    | JString(s: string)
    | JArray(items: seq<Json>)
    | JObject(members: seq<(string, Json)>)

  /** `JSON.parse`: a document, or the message of the SyntaxError it throws.
      The JSON grammar itself is not modelled. */
  type JsonParser = string -> Result<Json, string>

  /** A value reaching a `catch` clause: an `Error` (which has a message) or
      anything else that was thrown. */
  datatype Thrown = ErrorValue(message: string) | NonError

  /** `error instanceof Error ? error.message : fallback`. */
  function MessageOr(t: Thrown, fallback: string): string {
    match t
    case ErrorValue(msg) => msg
    case NonError => fallback
  }

  /** What V8 throws when a property is read from `undefined`. */
  function ReadOfUndefined(property: string): string {
    "Cannot read properties of undefined (reading '" + property + "')"
  }
}
