/**
 * A decoded JSON document as Python's `json` module hands it over, with the
 * two Python comparisons the validator applies to field values: truthiness
 * and `== 0`.
 */
module Json {

  datatype JsonValue =
    | JNull
    | JBool(b: bool)
    | JNum(n: real)
    | JStr(s: string)
    | JArr(items: seq<JsonValue>)
    | JObj(fields: map<string, JsonValue>)

  /** Python's `bool(v)`: `None`, `False`, zero, `""`, `[]` and `{}` are false. */
  predicate Truthy(v: JsonValue)
  {
    match v
    case JNull => false
    case JBool(b) => b
    case JNum(n) => n != 0.0
    case JStr(s) => s != []
    case JArr(items) => items != []
    case JObj(fields) => fields != map[]
  }

  /** Python's `v == 0`: true for the numbers zero and for `False`, which equals `0`. */
  predicate EqualsZero(v: JsonValue)
  {
    match v
    case JNum(n) => n == 0.0
    case JBool(b) => !b
    case _ => false
  }

  /** `d.get(key)`: the value under `key`, or `None` when the key is absent. */
  function Get(fields: map<string, JsonValue>, key: string): JsonValue
  {
    if key in fields then fields[key] else JNull
  }

  /** `d.get(key, default)`. */
  function GetOr(fields: map<string, JsonValue>, key: string, default: JsonValue): JsonValue
  {
    if key in fields then fields[key] else default
  }

  /** Every value that equals 0 is already falsy, so a `v != 0` test after a truthiness test rejects nothing more. */
  lemma ZeroIsFalsy(v: JsonValue)
    ensures EqualsZero(v) ==> !Truthy(v)
  {
  }
}
