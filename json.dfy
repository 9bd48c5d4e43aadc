/** Decoded JSON values, for the SteamSpy payloads whose shape the scripts test at run time. */
module Json {
  import opened Common

  /** An object keeps its keys in document order, as a Python dict does. */
  datatype Json =
    | JNull
    | JBool(b: bool)
    | JNum(n: real)
    | JStr(s: string)
    | JArr(items: seq<Json>)
    | JObj(fields: Assoc<string, Json>)

  /** Python's truth test on a decoded value. */
  predicate Truthy(j: Json) {
    match j
    case JNull => false
    case JBool(b) => b
    case JNum(n) => n != 0.0
    case JStr(s) => s != ""
    case JArr(a) => a != []
    case JObj(o) => o != []
  }

  const EmptyObject: Json := JObj([])

  /** One call to a JSON endpoint: `NoReply` when `requests.get` raises (no connection, a
      timeout); otherwise the status and the decoded body, `None` when the body is not JSON and
      `resp.json()` raises. */
  datatype Reply = NoReply | Reply(status: int, body: Option<Json>)
}
