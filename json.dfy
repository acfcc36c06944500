/**
 * Parsed JSON values as both programs see them: what `JSON.parse` returns
 * in the catalog and what `json.loads` returns in the merger. An object maps
 * each key to its value; a key repeated in the text keeps its last value in
 * both parsers, and setting a key replaces its value.
 */
module JsonValues {
  import opened Wrappers
  import opened Text

  /** A JSON value; numbers are integers. */
  datatype Json =
    | JNull
    | JBool(b: bool)
    | JNum(n: int)
    | JStr(s: string)
    | JArr(items: seq<Json>)
    | JObj(fields: map<string, Json>)

  /** An object's members. */
  type Dict = map<string, Json>

  /** `d.get(key)` / `obj[key]`. */
  function Get(d: Dict, key: string): (v: Option<Json>)
    ensures v.Some? <==> key in d
    ensures v.Some? ==> d[key] == v.value
  {
    if key in d then Some(d[key]) else None
  }

  /** JavaScript truthiness of a parsed value. */
  predicate JsTruthy(j: Json) {
    match j
    case JNull => false
    case JBool(b) => b
    case JNum(n) => n != 0
    case JStr(s) => s != ""
    case _ => true
  }

  /** Python truthiness: empty lists and dictionaries are false as well. */
  predicate PyTruthy(j: Json) {
    match j
    case JNull => false
    case JBool(b) => b
    case JNum(n) => n != 0
    case JStr(s) => s != ""
    case JArr(items) => items != []
    case JObj(fields) => fields != map[]
  }

  /** JavaScript `String(v)`; an array joins its elements with `,`, rendering `null` as empty. */
  function JsString(j: Json): string {
    match j
    case JNull => "null"
    case JBool(b) => if b then "true" else "false"
    case JNum(n) => IntToString(n)
    case JStr(s) => s
    case JArr(items) =>
      Join(seq(|items|, i requires 0 <= i < |items| => if items[i] == JNull then "" else JsString(items[i])), ",")
    case JObj(_) => "[object Object]"
  }

  /** Python `repr(v)` of a parsed value, with strings quoted by `'`; a non-empty dict is only sketched. */
  function PyRepr(j: Json): string {
    match j
    case JNull => "None"
    case JBool(b) => if b then "True" else "False"
    case JNum(n) => IntToString(n)
    case JStr(s) => "'" + s + "'"
    case JArr(items) =>
      "[" + Join(seq(|items|, i requires 0 <= i < |items| => PyRepr(items[i])), ", ") + "]"
    case JObj(fields) => if fields == map[] then "{}" else "{...}"
  }

  /** Python `str(v)`, which is what an f-string inserts. */
  function PyStr(j: Json): (s: string)
    ensures j.JStr? ==> s == j.s
  {
    if j.JStr? then j.s else PyRepr(j)
  }
}
