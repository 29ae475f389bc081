/** The dynamic values of JavaScript that the sources inspect, and the coercions they apply to them:
    truthiness, `||`, `&&`, `??`, property reads, `Number(...)`, `String(...)` and `parseInt(..., 10)`.
    Numbers are integers or NaN: every number the modelled code computes is a whole number of
    seconds or milliseconds. */
module Js {
  import opened Wrappers
  import opened Text

  datatype Value =
    | Undefined
    | Null
    | Bool(b: bool)
    | Num(n: int)
    | NaN
    | Str(s: string)
    | Arr(items: seq<Value>)
    | Obj(fields: map<string, Value>)

  predicate Truthy(v: Value) {
    match v
    case Undefined => false
    case Null => false
    case Bool(b) => b
    case Num(n) => n != 0
    case NaN => false
    case Str(s) => s != ""
    case Arr(_) => true
    case Obj(_) => true
  }

  predicate Nullish(v: Value) {
    v.Undefined? || v.Null?
  }

  /** `a || b` */
  function Or(a: Value, b: Value): Value {
    if Truthy(a) then a else b
  }

  /** `a && b` */
  function And(a: Value, b: Value): Value {
    if Truthy(a) then b else a
  }

  /** `a ?? b` */
  function Coalesce(a: Value, b: Value): Value {
    if Nullish(a) then b else a
  }

  /** `v?.k`, and `v.k` where `v` is known not to be null or undefined: a missing key reads as undefined. */
  function Get(v: Value, k: string): Value {
    if v.Obj? && k in v.fields then v.fields[k] else Undefined
  }

  /** `v.k`, which throws a TypeError (None here) when `v` is null or undefined. */
  function Prop(v: Value, k: string): Option<Value> {
    if Nullish(v) then None else Some(Get(v, k))
  }

  /** `v.k = x`; an assignment to a property of a primitive is lost. */
  function SetField(v: Value, k: string, x: Value): Value {
    if v.Obj? then Obj(v.fields[k := x]) else v
  }

  /** `delete v.k` */
  function DeleteField(v: Value, k: string): Value {
    if v.Obj? then Obj(v.fields - {k}) else v
  }

  /** `Object.prototype.hasOwnProperty.call(v, k)` */
  predicate HasOwn(v: Value, k: string) {
    v.Obj? && k in v.fields
  }

  // ---------------------------------------------------------------------------
  // Decimal numerals.

  predicate IsDigit(c: char) {
    '0' <= c <= '9'
  }

  predicate AllDigits(s: string) {
    forall i :: 0 <= i < |s| ==> IsDigit(s[i])
  }

  function DigitChar(d: int): char
    requires 0 <= d < 10
  {
    ('0' as int + d) as char
  }

  /** The value of a string of decimal digits. */
  function DigitsValue(s: string): nat
    requires AllDigits(s)
  {
    if s == [] then 0 else DigitsValue(s[..|s| - 1]) * 10 + (s[|s| - 1] as int - '0' as int)
  }

  /** The shortest decimal numeral of a natural number. */
  function NatToString(n: nat): string
    decreases n
  {
    if n < 10 then [DigitChar(n)] else NatToString(n / 10) + [DigitChar(n % 10)]
  }

  /** `String(i)` for an integer. */
  function IntToString(i: int): string {
    if i < 0 then "-" + NatToString(-i) else NatToString(i)
  }

  /** The numeral of `n` is a non-empty digit string whose value is `n`. */
  lemma {:induction false} NatToStringValue(n: nat)
    ensures |NatToString(n)| > 0 && AllDigits(NatToString(n))
    ensures DigitsValue(NatToString(n)) == n
    decreases n
  {
    if n >= 10 {
      NatToStringValue(n / 10);
      var s := NatToString(n);
      assert s[..|s| - 1] == NatToString(n / 10);
    }
  }

  // ---------------------------------------------------------------------------
  // Coercions.

  /** The characters JavaScript trims and matches with `\s`. */
  predicate IsSpace(c: char) {
    c == '\t' || c == '\n' || c == '\U{000B}' || c == '\U{000C}' || c == '\r' || c == ' '
    || c == '\U{00A0}' || c == '\U{1680}' || ('\U{2000}' <= c <= '\U{200A}')
    || c == '\U{2028}' || c == '\U{2029}' || c == '\U{202F}' || c == '\U{205F}'
    || c == '\U{3000}' || c == '\U{FEFF}'
  }

  function TrimStart(s: string): string
    decreases |s|
  {
    if s != [] && IsSpace(s[0]) then TrimStart(s[1..]) else s
  }

  function TrimEnd(s: string): string
    decreases |s|
  {
    if s != [] && IsSpace(s[|s| - 1]) then TrimEnd(s[..|s| - 1]) else s
  }

  /** The longest prefix of decimal digits. */
  function DigitPrefix(s: string): (r: string)
    ensures AllDigits(r) && |r| <= |s| && r == s[..|r|]
    decreases |s|
  {
    if s != [] && IsDigit(s[0]) then [s[0]] + DigitPrefix(s[1..]) else ""
  }

  /** Splits an optional leading sign off a numeral: (negative, rest). */
  function SplitSign(t: string): (bool, string) {
    if t != [] && t[0] == '-' then (true, t[1..])
    else if t != [] && t[0] == '+' then (false, t[1..])
    else (false, t)
  }

  /** `parseInt(s, 10)`: leading white space, an optional sign, then as many digits as there are;
      NaN when there is no digit. */
  function ParseIntString(s: string): (r: Value)
    ensures r.Num? || r.NaN?
  {
    var (neg, body) := SplitSign(TrimStart(s));
    var ds := DigitPrefix(body);
    if ds == "" then NaN
    else Num(if neg then 0 - DigitsValue(ds) as int else DigitsValue(ds))
  }

  /** `Number(s)` for a string: white space around an optionally signed run of decimal digits,
      the empty (or blank) string being 0; anything else is NaN here. */
  function StringToNumber(s: string): (r: Value)
    ensures r.Num? || r.NaN?
  {
    var t := TrimEnd(TrimStart(s));
    if t == "" then Num(0)
    else
      var (neg, body) := SplitSign(t);
      if body != "" && AllDigits(body) then Num(if neg then 0 - DigitsValue(body) as int else DigitsValue(body))
      else NaN
  }


  /** `String(v)`, also what a template literal `${v}` and `Array.prototype.join` produce. */
  function ToString(v: Value): string
    decreases v
  {
    match v
    case Undefined => "undefined"
    case Null => "null"
    case Bool(b) => if b then "true" else "false"
    case Num(n) => IntToString(n)
    case NaN => "NaN"
    case Str(s) => s
    case Arr(items) =>
      Join(seq(|items|, i requires 0 <= i < |items| =>
                 if Nullish(items[i]) then "" else ToString(items[i])), ",")
    case Obj(_) => "[object Object]"
  }

  /** `Number(v)`; an array or object is first turned into its string. */
  function ToNumber(v: Value): (r: Value)
    ensures r.Num? || r.NaN?
    ensures v.Num? ==> r == v
    ensures v.Undefined? || v.NaN? ==> r == NaN
    ensures v.Null? ==> r == Num(0)
    ensures v.Bool? ==> r == Num(if v.b then 1 else 0)
    ensures v.Str? ==> r == StringToNumber(v.s)
    ensures v.Arr? ==> r == StringToNumber(ToString(v))
    ensures v.Obj? ==> r == NaN
  {
    match v
    case Undefined => NaN
    case Null => Num(0)
    case Bool(b) => Num(if b then 1 else 0)
    case Num(n) => Num(n)
    case NaN => NaN
    case _ => StringToNumber(ToString(v))
  }

  /** `parseInt(v, 10)` */
  function ParseInt(v: Value): (r: Value)
    ensures r.Num? || r.NaN?
  {
    ParseIntString(ToString(v))
  }

  lemma {:induction false} DigitPrefixAll(s: string)
    requires AllDigits(s)
    ensures DigitPrefix(s) == s
    decreases |s|
  {
    if s != [] {
      DigitPrefixAll(s[1..]);
      assert [s[0]] + s[1..] == s;
    }
  }

  /** An array is read through its string: `Number([])` and `Number([null])` are 0, `Number([i])`
      is i, and `Number([i, i])` is NaN because of the comma. */
  lemma NumberOfArray(i: int)
    ensures ToNumber(Arr([])) == Num(0)
    ensures ToNumber(Arr([Null])) == Num(0)
    ensures ToNumber(Arr([Num(i)])) == Num(i)
    ensures ToNumber(Arr([Num(i), Num(i)])) == NaN
  {
    assert ToString(Arr([Num(i)])) == IntToString(i);
    NumberOfIntString(i);
    PairText(i);
    NumeralEnds(i);
    CommaIsNaN(IntToString(i));
  }

  /** A numeral neither starts nor ends with white space. */
  lemma NumeralEnds(i: int)
    ensures var n := IntToString(i); |n| > 0 && !IsSpace(n[0]) && !IsSpace(n[|n| - 1])
  {
    NatToStringValue(if i < 0 then -i else i);
  }

  /** `String([i, i])` */
  lemma PairText(i: int)
    ensures ToString(Arr([Num(i), Num(i)])) == IntToString(i) + "," + IntToString(i)
  {
    var items := [Num(i), Num(i)];
    var parts := seq(|items|, k requires 0 <= k < |items| =>
                   if Nullish(items[k]) then "" else ToString(items[k]));
    var n := IntToString(i);
    assert parts == [n, n];
    assert parts[1..] == [n];
    assert Join(parts, ",") == n + "," + n;
    assert ToString(Arr(items)) == Join(parts, ",");
  }

  /** A numeral, a comma and the numeral again is not a number. */
  lemma CommaIsNaN(n: string)
    requires |n| > 0 && !IsSpace(n[0]) && !IsSpace(n[|n| - 1])
    ensures StringToNumber(n + "," + n) == NaN
  {
    var t := n + "," + n;
    assert TrimStart(t) == t && TrimEnd(t) == t;
    var body := SplitSign(t).1;
    assert body[|body| - |n| - 1] == ',';
  }

  /** `Number(String(i)) === i` for every integer. */
  lemma NumberOfIntString(i: int)
    ensures ToNumber(Str(IntToString(i))) == Num(i)
  {
    var n: nat := if i < 0 then -i else i;
    NatToStringValue(n);
    var s := NatToString(n);
    var t := IntToString(i);
    assert !IsSpace(t[0]) && !IsSpace(t[|t| - 1]);
    assert TrimStart(t) == t;
    assert TrimEnd(t) == t;
    if i < 0 {
      assert SplitSign(t) == (true, s);
    } else {
      assert SplitSign(t) == (false, s);
    }
  }

  /** `parseInt(String(i), 10) === i` for every integer. */
  lemma ParseIntOfIntString(i: int)
    ensures ParseIntString(IntToString(i)) == Num(i)
  {
    var n: nat := if i < 0 then -i else i;
    NatToStringValue(n);
    var s := NatToString(n);
    DigitPrefixAll(s);
    if i < 0 {
      var t := "-" + s;
      assert !IsSpace(t[0]);
      assert TrimStart(t) == t;
      assert SplitSign(t) == (true, s);
    } else {
      assert IsDigit(s[0]) && !IsSpace(s[0]);
      assert TrimStart(s) == s;
      assert SplitSign(s) == (false, s);
    }
  }
}
