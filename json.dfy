/**
 * The JSON values the digest pipeline exchanges with the language model and
 * the relational store, as Python's `json` module produces them.
 */
module Json {
  import opened Wrappers

  /** A decoded JSON document: an object is a Python `dict` keyed by strings. */
  datatype JValue =
    | JNull
    | JBool(b: bool)
    | JNum(n: int)
    | JStr(s: string)
    | JList(items: seq<JValue>)
    | JObj(fields: map<string, JValue>)

  /** Python truthiness of the decoded value, as used by `if result and ...`. */
  predicate Truthy(v: JValue) {
    match v
    case JNull => false
    case JBool(b) => b
    case JNum(n) => n != 0
    case JStr(s) => s != ""
    case JList(items) => items != []
    case JObj(fields) => |fields| != 0
  }

  /** `v.get(key)` when `v` is an object; None when it is not one or lacks the key. */
  function Get(v: JValue, key: string): (r: Option<JValue>)
    ensures r.Some? <==> v.JObj? && key in v.fields
  {
    if v.JObj? && key in v.fields then Some(v.fields[key]) else None
  }

  /** `v[key] = x` on an object (the caller's dict is replaced by its updated copy). */
  function Put(v: JValue, key: string, x: JValue): (r: JValue)
    ensures v.JObj? ==> Get(r, key) == Some(x)
    ensures forall k :: k != key ==> Get(r, k) == Get(v, k)
  {
    match v
    case JObj(fields) => JObj(fields[key := x])
    case _ => v
  }
}
