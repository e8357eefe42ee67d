/**
 * What the network code sees of an HTTP exchange and of `org.json`'s parser.
 * The exchange itself is I/O, so its outcome is an input of every model that
 * performs one.
 */
module Http {
  import opened Wrappers

  /**
   * The outcome of one blocking OkHttp `execute()`: it threw (no connection,
   * timeout), or a response with its `isSuccessful` flag, status code and
   * (nullable) body text.
   */
  datatype Exchange = Threw | Response(successful: bool, code: nat, body: Option<string>)

  /**
   * What `JSONObject(text)` makes of a body: `Malformed` when the constructor
   * throws, otherwise the string form of each top-level field.
   */
  datatype Json = Malformed | Object(fields: map<string, string>)

  /** `optString(key, fallback)`: the field's string form, or the fallback when it is absent. */
  function OptString(fields: map<string, string>, key: string, fallback: string): (r: string)
    ensures key in fields ==> r == fields[key]
    ensures key !in fields ==> r == fallback
  {
    if key in fields then fields[key] else fallback
  }

  /** `response.body?.string() ?: ""` */
  function BodyText(body: Option<string>): string {
    body.GetOr("")
  }
}
