/** JavaScript values as the adapters see them: element values, annotation
    values, HTTP response bodies. Numbers are integers here. */
module Values {
  import Seqs

  datatype Option<+T> = None | Some(value: T)

  /** A computation that either succeeds or throws. */
  datatype Result<+T, +E> = Ok(value: T) | Err(error: E)

  datatype JsValue =
    | Undefined
    | Null
    | Bool(b: bool)
    | Num(n: int)
    | Str(s: string)
    | Arr(items: seq<JsValue>)
    | Obj(fields: map<string, JsValue>)

  /** A plain object's entries; a missing key reads as `undefined`. */
  type Values = map<string, JsValue>

  /** Property read `values[key]`. */
  function Get(m: Values, key: string): (v: JsValue)
    ensures key !in m ==> v == Undefined
    ensures key in m ==> v == m[key]
  {
    if key in m then m[key] else Undefined
  }

  /** Property read on an arbitrary value, `v?.[key]`: only plain objects
      have own keys that matter here. */
  function GetProp(v: JsValue, key: string): (r: JsValue)
    ensures !v.Obj? ==> r == Undefined
    ensures v.Obj? ==> r == Get(v.fields, key)
  {
    match v
    case Obj(m) => Get(m, key)
    case _ => Undefined
  }

  /** JavaScript truthiness: `undefined`, `null`, `false`, `0` and `""` are
      falsy, everything else is truthy. */
  predicate Truthy(v: JsValue) {
    match v
    case Undefined => false
    case Null => false
    case Bool(b) => b
    case Num(n) => n != 0
    case Str(s) => s != ""
    case Arr(_) => true
    case Obj(_) => true
  }

  /** `!==` as the source uses it on annotation values. Two array or object
      values are taken to be distinct objects, so never strictly equal. */
  predicate StrictEquals(a: JsValue, b: JsValue) {
    match a
    case Arr(_) => false
    case Obj(_) => false
    case _ => a == b
  }

  function DigitChar(d: nat): (c: char)
    requires d < 10
    ensures '0' <= c <= '9'
  {
    "0123456789"[d]
  }

  /** Decimal rendering of a natural number. */
  function NatToString(n: nat): (s: string)
    ensures |s| >= 1
  {
    if n < 10 then [DigitChar(n)]
    else NatToString(n / 10) + [DigitChar(n % 10)]
  }

  function IntToString(n: int): (s: string)
    ensures n >= 0 ==> s == NatToString(n)
    ensures n < 0 ==> s == "-" + NatToString(-n)
  {
    if n >= 0 then NatToString(n) else "-" + NatToString(-n)
  }

  /** `String(v)`, which is also what a template literal and a property-key
      conversion produce. */
  function ToJsString(v: JsValue): (s: string)
    ensures v.Str? ==> s == v.s
    decreases v, 1
  {
    match v
    case Undefined => "undefined"
    case Null => "null"
    case Bool(b) => if b then "true" else "false"
    case Num(n) => IntToString(n)
    case Str(s) => s
    case Arr(items) => JoinValues(items, ",")
    case Obj(_) => "[object Object]"
  }

  /** How `Array.prototype.join` renders one element: `null` and
      `undefined` become the empty string. */
  function JoinElement(v: JsValue): (s: string)
    ensures (v.Undefined? || v.Null?) ==> s == ""
    ensures !(v.Undefined? || v.Null?) ==> s == ToJsString(v)
    decreases v, 2
  {
    if v.Undefined? || v.Null? then "" else ToJsString(v)
  }

  /** `items.join(sep)`. */
  function JoinValues(items: seq<JsValue>, sep: string): (s: string)
    ensures |items| == 0 ==> s == ""
    decreases items
  {
    if |items| == 0 then ""
    else if |items| == 1 then JoinElement(items[0])
    else JoinElement(items[0]) + sep + JoinValues(items[1..], sep)
  }
}
