/** JavaScript values as the service receives them: the JSON body that the
    body parser hands to the model, the numbers the model takes as ids, and
    the few JavaScript operators the model applies to them (`obj[key]`,
    `===`, `String(v)`). */
module JsValue {

  /** A JSON value. Numbers are integral here; a JSON fraction is not modelled. */
  datatype Json =
    | JNull
    | JBool(b: bool)
    | JNum(n: int)
    | JStr(s: string)
    | JArr(items: seq<Json>)
    | JObj(fields: map<string, Json>)

  /** A JavaScript number handed to the model as an id: an integer, or any
      other number (a fraction, NaN, an infinity), which `Number.isInteger`
      rejects. */
  datatype Num = Int(n: int) | NonInteger

  /** What `v[key]` yields for one of the two column names: `undefined`
      (Absent) unless v is an object that holds the key. An array never holds
      "ja" or "en". `null` is Present(JNull), distinct from Absent, as
      `undefined !== null` in JavaScript. */
  datatype Field = Absent | Present(v: Json)

  function Get(v: Json, key: string): Field
  {
    if v.JObj? && key in v.fields then Present(v.fields[key]) else Absent
  }

  /** `Object.keys(v).length` for an object or an array. */
  function KeyCount(v: Json): nat
  {
    match v
    case JObj(fields) => |fields|
    case JArr(items) => |items|
    case _ => 0
  }

  /** `isJson(v)`: `JSON.parse(JSON.stringify(v))` is a non-null object, which
      holds exactly for objects and arrays. A string is parsed as JSON text by
      the source; that case is modelled as false (see README). */
  predicate IsJson(v: Json)
  {
    v.JObj? || v.JArr?
  }

  /** `a === b` for field values taken from two different elements of one
      parsed body: primitives compare by value, `undefined` equals only
      `undefined`, and two objects or arrays are never the same reference. */
  predicate StrictEquals(a: Field, b: Field)
  {
    match (a, b)
    case (Absent, Absent) => true
    case (Present(x), Present(y)) => x == y && !x.JArr? && !x.JObj?
    case _ => false
  }

  /** A value that `null`/`""` checks treat as blank. */
  predicate IsBlank(v: Json)
  {
    v == JNull || v == JStr("")
  }

  /** Decimal digits of a natural number. */
  function NatText(n: nat): (r: string)
    ensures |r| > 0
    ensures forall i :: 0 <= i < |r| ==> '0' <= r[i] <= '9'
    decreases n
  {
    var d := ['0' + (n % 10) as char];
    if n < 10 then d else NatText(n / 10) + d
  }

  /** `String(v)`, as the template literal `${v}` renders it. Array elements
      that are null render as the empty string, as `Array.prototype.join` does. */
  function ToText(v: Json): string
    decreases v
  {
    match v
    case JNull => "null"
    case JBool(b) => if b then "true" else "false"
    case JNum(n) => if n < 0 then "-" + NatText(-n) else NatText(n)
    case JStr(s) => s
    case JArr(items) =>
      Join(seq(|items|, i requires 0 <= i < |items| =>
        if items[i] == JNull then "" else ToText(items[i])))
    case JObj(_) => "[object Object]"
  }

  /** The strings joined with commas. */
  function Join(parts: seq<string>): string
  {
    if |parts| == 0 then ""
    else if |parts| == 1 then parts[0]
    else parts[0] + "," + Join(parts[1..])
  }

  /** StrictEquals is an equivalence on the values it can relate: it is
      symmetric and transitive. */
  lemma StrictEqualsSymmetricTransitive(a: Field, b: Field, c: Field)
    ensures StrictEquals(a, b) ==> StrictEquals(b, a)
    ensures StrictEquals(a, b) && StrictEquals(b, c) ==> StrictEquals(a, c)
  {
  }
}
