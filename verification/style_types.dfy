/**
 * The client-side shape of a stored style profile and its runtime guard
 * `isStyleProfile`, with the JavaScript truthiness and `typeof` it relies on.
 */
module StyleTypes {
  import opened Wrappers
  import opened JsonValue

  /** JavaScript truthiness of a JSON value. */
  predicate JsTruthy(j: Json) {
    match j
    case JNull => false
    case JBool(b) => b
    case JNum(n) => n != 0
    case JStr(s) => s != ""
    case JArr(_) => true
    case JObj(_) => true
  }

  /** `typeof` of a JSON value (`null` and arrays are objects too). */
  function TypeOf(j: Json): string {
    match j
    case JNull => "object"
    case JBool(_) => "boolean"
    case JNum(_) => "number"
    case JStr(_) => "string"
    case JArr(_) => "object"
    case JObj(_) => "object"
  }

  /** `obj[key]` for a key that is not an array or string built-in; `None` is `undefined`. */
  function Property(j: Json, key: string): Option<Json> {
    if j.JObj? && key in j.fields then Some(j.fields[key]) else None
  }

  /** `obj && typeof obj === 'object' && typeof obj.status === 'string'`. */
  function IsStyleProfile(obj: Json): (b: bool)
    ensures b <==> obj.JObj? && "status" in obj.fields && obj.fields["status"].JStr?
  {
    JsTruthy(obj) && TypeOf(obj) == "object"
    && var status := Property(obj, "status"); status.Some? && TypeOf(status.value) == "string"
  }

  /** Setting a string `status` on any object makes it pass the guard; every other key is irrelevant. */
  lemma StatusDecides(fields: map<string, Json>, status: string, k: string, v: Json)
    requires k != "status"
    ensures IsStyleProfile(JObj(fields["status" := JStr(status)]))
    ensures IsStyleProfile(JObj(fields[k := v])) == IsStyleProfile(JObj(fields))
  {
  }
}
