/** The JavaScript values the chat handler reads: what `JSON.parse` can return,
    plus `undefined`, which a missing member reads as. Only the member reads,
    truthiness tests and number conversions the handler performs are given. */
module Json {
  import opened Wrappers

  datatype Value =
    | Undefined
    | Null
    | Bool(b: bool)
    | Num(n: real)
    | Str(s: string)
    | Arr(items: seq<Value>)
    | Obj(members: map<string, Value>)
  {
    /** Reading any member of these throws a TypeError. */
    predicate Nullish() {
      Undefined? || Null?
    }
  }

  /** The member names the handler reads. `Price` is the member `value` of a
      chart point. */
  datatype Key = Response | Action | Data | Symbol | Price | Length

  function Name(k: Key): string {
    match k
    case Response => "response"
    case Action => "action"
    case Data => "data"
    case Symbol => "symbol"
    case Price => "value"
    case Length => "length"
  }

  /** JavaScript truthiness: everything except `undefined`, `null`, `false`,
      zero and the empty string. */
  function Truthy(v: Value): (b: bool)
    ensures v.Nullish() ==> !b
    ensures v.Arr? || v.Obj? ==> b
  {
    match v
    case Undefined => false
    case Null => false
    case Bool(b) => b
    case Num(n) => n != 0.0
    case Str(s) => s != []
    case Arr(_) => true
    case Obj(_) => true
  }

  /** `v.k`, or None where JavaScript throws. Arrays and strings have a
      `length`; none of the other names is a member of an array, a string, a
      number or a boolean. */
  function Get(v: Value, k: Key): (r: Option<Value>)
    ensures r.None? <==> v.Nullish()
  {
    match v
    case Undefined => None
    case Null => None
    case Obj(m) => Some(if Name(k) in m then m[Name(k)] else Undefined)
    case Arr(items) => Some(if k == Length then Num(|items| as real) else Undefined)
    case Str(s) => Some(if k == Length then Num(|s| as real) else Undefined)
    case _ => Some(Undefined)
  }

  /** The decimal name of an array index, as `obj[n]` looks it up. */
  function IndexName(n: nat): string {
    var d := ['0', '1', '2', '3', '4', '5', '6', '7', '8', '9'][n % 10];
    if n < 10 then [d] else IndexName(n / 10) + [d]
  }

  /** `i` is a whole number in `[0, len)`. */
  predicate IsIndex(i: real, len: nat) {
    0.0 <= i && i == i.Floor as real && i.Floor < len
  }

  /** `v[i]` for a numeric `i`, or None where JavaScript throws. */
  function At(v: Value, i: real): (r: Option<Value>)
    ensures r.None? <==> v.Nullish()
  {
    match v
    case Undefined => None
    case Null => None
    case Arr(items) => Some(if IsIndex(i, |items|) then items[i.Floor] else Undefined)
    case Str(s) => Some(if IsIndex(i, |s|) then Str([s[i.Floor]]) else Undefined)
    case Obj(m) =>
      if 0.0 <= i && i == i.Floor as real && IndexName(i.Floor) in m
      then Some(m[IndexName(i.Floor)])
      else Some(Undefined)
    case _ => Some(Undefined)
  }

  /** The number `v` converts to in `v > 0` and `v - 1`, or None for NaN.
      Strings and arrays are not converted. */
  function NumberValue(v: Value): (r: Option<real>)
    ensures v.Num? ==> r == Some(v.n)
    ensures r.Some? <==> v.Num? || v.Bool? || v.Null?
  {
    match v
    case Num(n) => Some(n)
    case Bool(b) => Some(if b then 1.0 else 0.0)
    case Null => Some(0.0)
    case _ => None
  }
}
