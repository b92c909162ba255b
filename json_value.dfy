/**
  Decoded JSON documents as Python sees them after `json.load`, and the
  subscript, `len` and `str` operations the scripts apply to them.
 */
module JsonValue {
  import opened Outcomes

  /** A decoded JSON value.  Numbers are integral (see README "Left out"). */
  datatype Value =
    | Null
    | Bool(b: bool)
    | Num(n: int)
    | Str(s: string)
    | Arr(items: seq<Value>)
    | Obj(fields: map<string, Value>)

  /** `v[k]` for a string key: only a dict has keys. */
  function Key(v: Value, k: string): (r: Option<Value>)
    ensures r.Some? <==> v.Obj? && k in v.fields
    ensures r.Some? ==> r.value == v.fields[k]
  {
    if v.Obj? && k in v.fields then Some(v.fields[k]) else None
  }

  /** `v[i]` for a non-negative integer index: a list yields an element, a string a one-character string. */
  function At(v: Value, i: nat): (r: Option<Value>)
    ensures r.Some? <==> (v.Arr? && i < |v.items|) || (v.Str? && i < |v.s|)
    ensures r.Some? && v.Arr? ==> r.value == v.items[i]
    ensures r.Some? && v.Str? ==> r.value == Str([v.s[i]])
  {
    match v
    case Arr(items) => if i < |items| then Some(items[i]) else None
    case Str(s) => if i < |s| then Some(Str([s[i]])) else None
    case _ => None
  }

  /** `len(v)`: defined for strings, lists and dicts only. */
  function Len(v: Value): (r: Option<nat>)
    ensures r.Some? <==> v.Str? || v.Arr? || v.Obj?
    ensures v.Str? ==> r == Some(|v.s|)
    ensures v.Arr? ==> r == Some(|v.items|)
    ensures v.Obj? ==> r == Some(|v.fields|)
  {
    match v
    case Str(s) => Some(|s|)
    case Arr(items) => Some(|items|)
    case Obj(fields) => Some(|fields|)
    case _ => None
  }

  /** Decimal digits of a natural number, most significant first. */
  function DigitsOf(n: nat): (r: string)
    ensures |r| > 0
    ensures forall i :: 0 <= i < |r| ==> '0' <= r[i] <= '9'
    decreases n
  {
    var d := [(48 + n % 10) as char];
    if n < 10 then d else DigitsOf(n / 10) + d
  }

  /** `str(n)` for a Python int. */
  function IntText(n: int): (r: string)
    ensures |r| > 0
    ensures (r[0] == '-') <==> n < 0
  {
    if n < 0 then "-" + DigitsOf(-n) else DigitsOf(n)
  }

  /**
    `str(v)` for a scalar identifier.  Only the forms that identifiers take
    in the source data are rendered: strings, integers, booleans and `None`.
   */
  function ScalarText(v: Value): (r: Option<string>)
    ensures r.Some? <==> !(v.Arr? || v.Obj?)
    ensures v.Str? ==> r == Some(v.s)
  {
    match v
    case Null => Some("None")
    case Bool(b) => Some(if b then "True" else "False")
    case Num(n) => Some(IntText(n))
    case Str(s) => Some(s)
    case _ => None
  }

  /** Follows a path of dict keys, as a chain of `v[k1][k2]...` subscripts. */
  function Path(v: Value, keys: seq<string>): (r: Option<Value>)
    ensures |keys| == 0 ==> r == Some(v)
    ensures r.Some? && |keys| > 0 ==> Key(v, keys[0]).Some?
    decreases |keys|
  {
    if |keys| == 0 then Some(v)
    else
      var next :- Key(v, keys[0]);
      Path(next, keys[1..])
  }
}
