/**
 * The JavaScript values that the browser code reads back from localStorage
 * through `JSON.parse`, with the three coercions it applies to them:
 * truthiness (`if (x)`, `x || y`, `filter(Boolean)`), `String(x)` and
 * `Number(x)`. A property that is absent reads as `undefined`, written `None`.
 * Numbers are integers here: the stored lists hold ids and genre ids only.
 */
module JsValues {
  import opened Common
  import opened Text

  datatype Json =
    | Null
    | Bool(b: bool)
    | Num(n: int)
    | Str(s: string)
    | Arr(items: seq<Json>)
    | Obj(fields: map<string, Json>)

  /** `Boolean(v)`; `undefined` is falsy. */
  predicate Truthy(v: Option<Json>) {
    match v
    case None => false
    case Some(Null) => false
    case Some(Bool(b)) => b
    case Some(Num(n)) => n != 0
    case Some(Str(s)) => s != ""
    case Some(_) => true
  }

  /** `v == null`: `undefined` or `null`. */
  predicate IsNullish(v: Option<Json>) { v.None? || v.value.Null? }

  /** `v.name` on a value that is not null or undefined. */
  function Prop(v: Json, name: string): Option<Json> {
    if v.Obj? && name in v.fields then Some(v.fields[name]) else None
  }

  /** `a || b`. */
  function OrElse(a: Option<Json>, b: Option<Json>): (r: Option<Json>)
    ensures Truthy(a) ==> r == a
    ensures !Truthy(a) ==> r == b
  {
    if Truthy(a) then a else b
  }

  /** `String(v)`. */
  function ToStr(v: Option<Json>): string {
    match v
    case None => "undefined"
    case Some(j) => JsonToStr(j)
  }

  function JsonToStr(j: Json): string
    decreases j, 1
  {
    match j
    case Null => "null"
    case Bool(b) => if b then "true" else "false"
    case Num(n) => IntToDecimal(n)
    case Str(s) => s
    case Arr(items) => JoinElements(j, items)
    case Obj(_) => "[object Object]"
  }

  /** `Array.prototype.join(',')`, where null elements print as the empty string. */
  function JoinElements(parent: Json, items: seq<Json>): string
    requires forall k :: 0 <= k < |items| ==> items[k] < parent
    decreases parent, 0, |items|
  {
    if |items| == 0 then ""
    else
      var first := if items[0].Null? then "" else JsonToStr(items[0]);
      if |items| == 1 then first else first + "," + JoinElements(parent, items[1..])
  }

  /** `Number(s)` on a string, for the forms the stored lists use: an optional sign and decimal digits,
      surrounded by white space; the empty string is 0; anything else is NaN, written `None`. */
  function StringToNumber(s: string): (r: Option<int>)
    ensures AllDigits(Trim(s)) ==> r.Some?
  {
    var t := Trim(s);
    if t == "" then Some(0)
    else if AllDigits(t) then Some(DecimalValue(t))
    else if |t| >= 2 && (t[0] == '-' || t[0] == '+') && AllDigits(t[1..]) then
      var m: int := DecimalValue(t[1..]);
      Some(if t[0] == '-' then -m else m)
    else None
  }

  /** `Number(v)`, `None` standing for NaN: `Number.isFinite(Number(v))` holds exactly when it is `Some`. */
  function ToNumber(v: Option<Json>): Option<int> {
    match v
    case None => None
    case Some(Null) => Some(0)
    case Some(Bool(b)) => Some(if b then 1 else 0)
    case Some(Num(n)) => Some(n)
    case Some(Str(s)) => StringToNumber(s)
    case Some(Arr(_)) => StringToNumber(JsonToStr(v.value))
    case Some(Obj(_)) => None
  }

  /** `a === b`: primitives compare by value, while an array or object read from storage is a
      fresh object and equals nothing held elsewhere. */
  predicate StrictEquals(a: Option<Json>, b: Option<Json>) {
    a == b && (a.None? || !(a.value.Arr? || a.value.Obj?))
  }

  /** `String(n)` gives back `n` under `Number`. */
  lemma {:induction false} NumberOfDecimal(n: int)
    ensures StringToNumber(IntToDecimal(n)) == Some(n)
  {
    var t := IntToDecimal(n);
    if n >= 0 {
      DecimalRoundTrip(n);
      TrimOfTrimmed(t);
    } else {
      DecimalRoundTrip(-n);
      assert t[1..] == NatToDecimal(-n);
      assert !IsSpace(t[0]) && !IsSpace(t[|t| - 1]);
      TrimOfTrimmed(t);
      assert !AllDigits(t);
    }
  }
}
