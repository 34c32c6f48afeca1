/** Parsed JSON values, as the ledger code sees them after `json.load`, and
    the few Python operations the code applies to them: `in`, indexing,
    `len`, truthiness and the int/float/bool coercion of comparisons. An operation
    that raises in Python (a `TypeError`, a `KeyError`) gives `None`. */
module Json {
  import opened Wrappers
  import Text

  datatype Json =
    | JNull
    | JBool(b: bool)
    | JInt(i: int)
    | JFloat(f: real)
    | JStr(s: string)
    | JArr(items: seq<Json>)
    | JObj(fields: map<string, Json>)

  /** `key in x` for a string key: a key test on a dict, a substring test on a
      string, a membership test on a list; anything else raises. */
  function PyIn(key: string, x: Json): (r: Option<bool>)
    ensures r.None? <==> !(x.JObj? || x.JStr? || x.JArr?)
    ensures x.JObj? ==> r == Some(key in x.fields)
  {
    match x
    case JObj(fields) => Some(key in fields)
    case JStr(s) => Some(Text.Contains(s, key))
    case JArr(items) => Some(JStr(key) in items)
    case _ => None
  }

  /** `x[key]` for a string key: only a dict holding the key answers. */
  function PyGet(x: Json, key: string): (r: Option<Json>)
    ensures r.Some? <==> x.JObj? && key in x.fields
    ensures r.Some? ==> r.value == x.fields[key]
  {
    if x.JObj? && key in x.fields then Some(x.fields[key]) else None
  }

  /** `len(x)`: defined on strings, lists and dicts. */
  function PyLen(x: Json): (r: Option<nat>)
    ensures r.None? <==> !(x.JObj? || x.JStr? || x.JArr?)
    ensures x.JObj? ==> r == Some(|x.fields|)
  {
    match x
    case JObj(fields) => Some(|fields|)
    case JStr(s) => Some(|s|)
    case JArr(items) => Some(|items|)
    case _ => None
  }

  /** The integer a value stands for in arithmetic and in `==` against an
      int: an int itself, or a bool as 0/1. */
  function PyInt(x: Json): (r: Option<int>)
    ensures r.Some? <==> x.JInt? || x.JBool?
    ensures x.JInt? ==> r == Some(x.i)
  {
    match x
    case JInt(i) => Some(i)
    case JBool(b) => Some(if b then 1 else 0)
    case _ => None
  }

  /** The number a value stands for in `==` against a number: an int, a
      float, or a bool as 1/0; any other value is equal to no number. */
  function PyNumber(x: Json): (r: Option<real>)
    ensures r.Some? <==> x.JInt? || x.JFloat? || x.JBool?
    ensures PyInt(x).Some? ==> r == Some(PyInt(x).value as real)
    ensures x.JFloat? ==> r == Some(x.f)
  {
    match x
    case JInt(i) => Some(i as real)
    case JFloat(f) => Some(f)
    case JBool(b) => Some(if b then 1.0 else 0.0)
    case _ => None
  }

  /** Python truthiness. */
  predicate Truthy(x: Json)
  {
    match x
    case JNull => false
    case JBool(b) => b
    case JInt(i) => i != 0
    case JFloat(f) => f != 0.0
    case JStr(s) => s != ""
    case JArr(items) => items != []
    case JObj(fields) => fields != map[]
  }

  /** `x.get(key)` on a dict, `None` (Python's) when absent. */
  function DictGet(x: Json, key: string): (r: Json)
    ensures x.JObj? && key in x.fields ==> r == x.fields[key]
    ensures !(x.JObj? && key in x.fields) ==> r == JNull
  {
    if x.JObj? && key in x.fields then x.fields[key] else JNull
  }
}
