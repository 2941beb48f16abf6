/** Values exchanged with clients: parsed JSON documents and an optional wrapper. */
module Values {

  datatype Option<+T> = None | Some(value: T)

  /** A parsed JSON value. Numbers are integers only (see README, "Left out"). */
  datatype Json =
    | JNull
    | JBool(b: bool)
    | JNum(n: int)
    | JStr(s: string)
    | JArray(items: seq<Json>)
    | JObject(fields: map<string, Json>)
}
