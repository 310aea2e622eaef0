/**
 * JSON values as stored in the `Json` columns (`metadata`, `payload`,
 * `style_profile`) and as produced by `JSON.parse`.
 * Numbers are integers in this model.
 */
module JsonValue {

  datatype Json =
    | JNull
    | JBool(b: bool)
    | JNum(n: int)
    | JStr(s: string)
    | JArr(items: seq<Json>)
    | JObj(fields: map<string, Json>)

  /**
   * The own keys an object spread `{ ...j }` copies: the fields of an
   * object; nothing for `null`, booleans and numbers.
   */
  function Spread(j: Json): (m: map<string, Json>)
    ensures j.JObj? ==> m == j.fields
    ensures !j.JObj? ==> m == map[]
  {
    match j
    case JObj(fields) => fields
    case _ => map[]
  }
}
