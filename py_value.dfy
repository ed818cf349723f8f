/** Dynamically typed Python values as they arrive in JSON request bodies,
    token payloads and database documents, with the two Python built-ins the
    backend applies to them: truthiness and `str()`. */
module PyValue {
  import opened PyStr

  /** A Python value: `None`, `bool`, `int`, `str`, `list`, `dict` with
      string keys, or a `datetime` (microseconds since the epoch). */
  datatype Value =
    | VNone
    | VBool(b: bool)
    | VInt(i: int)
    | VStr(s: string)
    | VList(items: seq<Value>)
    | VDict(entries: map<string, Value>)
    | VTime(micros: int)

  /** A JSON object, token payload or stored document. */
  type Dict = map<string, Value>

  /** Python truthiness (`bool(v)`). */
  predicate Truthy(v: Value) {
    match v
    case VNone => false
    case VBool(b) => b
    case VInt(i) => i != 0
    case VStr(s) => s != ""
    case VList(items) => items != []
    case VDict(entries) => entries != map[]
    case VTime(_) => true
  }

  /** `str(v)`: exact for `None`, `bool`, `int` and `str`; lists, dicts and
      datetimes are rendered by a fixed placeholder (their Python `repr` is
      not modelled). */
  function Str(v: Value): (r: string)
    ensures v.VStr? ==> r == v.s
    ensures v.VNone? ==> r == "None"
  {
    match v
    case VNone => "None"
    case VBool(b) => if b then "True" else "False"
    case VInt(i) => IntToString(i)
    case VStr(s) => s
    case VList(_) => "[...]"
    case VDict(_) => "{...}"
    case VTime(_) => "<datetime>"
  }

  /** `d.get(k, default)` */
  function Get(d: Dict, k: string, default: Value): (r: Value)
    ensures k in d ==> r == d[k]
    ensures k !in d ==> r == default
  {
    if k in d then d[k] else default
  }

  /** The value is a list whose elements are all strings. */
  predicate IsStrList(v: Value) {
    v.VList? && forall k :: 0 <= k < |v.items| ==> v.items[k].VStr?
  }

  /** The strings of a list of strings, in order. */
  function Strings(items: seq<Value>): (r: seq<string>)
    requires forall k :: 0 <= k < |items| ==> items[k].VStr?
    ensures |r| == |items|
    ensures forall k :: 0 <= k < |items| ==> r[k] == items[k].s
  {
    if items == [] then [] else [items[0].s] + Strings(items[1..])
  }

  /** A Python list of strings. */
  function StrList(xs: seq<string>): (v: Value)
    ensures IsStrList(v) && Strings(v.items) == xs
  {
    VList(seq(|xs|, k requires 0 <= k < |xs| => VStr(xs[k])))
  }
}
