/** The few JavaScript notions the hospital front-end relies on: dynamically typed
    values with truthiness and strict equality, awaited calls that resolve or reject,
    plain objects used as records, and the decimal text a `<select>` hands back. */
module Js {

  datatype Option<+T> = None | Some(value: T)

  /** The outcome of an awaited call: the resolved data, or a rejection (a thrown error). */
  datatype Response<+T> = Ok(value: T) | Fault

  /** A JavaScript value, as far as the front-end distinguishes them. NaN is left out. */
  datatype JsValue = Undefined | Null | Bool(b: bool) | Num(n: int) | Str(s: string)

  /** JavaScript truthiness: `false`, `0`, `""`, `null` and `undefined` are falsy. */
  predicate Truthy(v: JsValue) {
    match v
    case Undefined => false
    case Null => false
    case Bool(b) => b
    case Num(n) => n != 0
    case Str(s) => s != ""
  }

  /** A plain object such as a form's state: property name to value. */
  type Object = map<string, JsValue>

  /** Property access: a missing property reads as `undefined`. */
  function Get(o: Object, name: string): (v: JsValue)
    ensures name !in o ==> v == Undefined
    ensures name in o ==> v == o[name]
  {
    if name in o then o[name] else Undefined
  }

  /** `x ? 1 : 0`, the encoding the source uses to send a flag as a number. */
  function Bit(v: JsValue): (n: int)
    ensures n == 0 || n == 1
    ensures n == 1 <==> Truthy(v)
  {
    if Truthy(v) then 1 else 0
  }

  function DigitChar(d: nat): (c: char)
    requires d < 10
    ensures IsDigit(c) && DigitValue(c) == d
  {
    (48 + d) as char
  }

  predicate IsDigit(c: char) {
    '0' <= c <= '9'
  }

  function DigitValue(c: char): nat
    requires IsDigit(c)
  {
    c as int - 48
  }

  /** The decimal text of a number, as an `<option value={id}>` renders it. */
  function Decimal(n: nat): (s: string)
    ensures |s| >= 1
    decreases n
  {
    if n < 10 then [DigitChar(n)] else Decimal(n / 10) + [DigitChar(n % 10)]
  }

  /** Reads a non-empty string of decimal digits back into a number. */
  function ParseDecimal(s: string): (r: Option<nat>)
    ensures r.Some? ==> |s| >= 1 && forall i :: 0 <= i < |s| ==> IsDigit(s[i])
    decreases |s|
  {
    if |s| == 0 || !IsDigit(s[|s| - 1]) then None
    else if |s| == 1 then Some(DigitValue(s[0]))
    else match ParseDecimal(s[..|s| - 1])
      case None => None
      case Some(p) => Some(p * 10 + DigitValue(s[|s| - 1]))
  }

  /** Parsing the decimal text of a number gives the number back. */
  lemma {:induction false} ParseDecimalRoundTrip(n: nat)
    ensures ParseDecimal(Decimal(n)) == Some(n)
    decreases n
  {
    if n >= 10 {
      var prefix := Decimal(n / 10);
      var s := Decimal(n);
      assert s == prefix + [DigitChar(n % 10)];
      assert s[..|s| - 1] == prefix;
      ParseDecimalRoundTrip(n / 10);
    }
  }

  /** The id an `<option value={id}>` stands for: its decimal text read back as a number;
      text that is not a decimal stays text. */
  function SelectedId(value: string): (id: JsValue)
    ensures ParseDecimal(value).Some? ==> id == Num(ParseDecimal(value).value)
    ensures ParseDecimal(value).None? ==> id == Str(value)
  {
    match ParseDecimal(value)
    case Some(n) => Num(n)
    case None => Str(value)
  }

  /** Reading back the text of an option gives the id it was rendered from. */
  lemma SelectedIdRoundTrip(n: nat)
    ensures SelectedId(Decimal(n)) == Num(n)
  {
    ParseDecimalRoundTrip(n);
  }
}
