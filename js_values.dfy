/**
 * The JavaScript values that reach the converter and the validator from a
 * parsed JSON request body, and the language operations the source applies to
 * them: truthiness (`if (x)`, `!x`, `a && b`), `typeof`, template-literal
 * interpolation and `Number(x)`.
 *
 * Numbers are integers here; `Undefined` stands for an absent property.
 */
module JsValues {
  import opened Wrappers
  import opened Text

  datatype Value = Undefined | Null | Bool(b: bool) | Num(n: int) | Str(s: string) | Obj

  /** JavaScript truthiness. */
  predicate Truthy(v: Value) {
    match v
    case Undefined => false
    case Null => false
    case Bool(b) => b
    case Num(n) => n != 0
    case Str(s) => s != ""
    case Obj => true
  }

  /** The `typeof` operator. */
  function TypeOf(v: Value): string {
    match v
    case Undefined => "undefined"
    case Null => "object"
    case Bool(_) => "boolean"
    case Num(_) => "number"
    case Str(_) => "string"
    case Obj => "object"
  }

  /** `${v}` inside a template literal. */
  function ToText(v: Value): (r: string)
    ensures v.Str? ==> r == v.s
  {
    match v
    case Undefined => "undefined"
    case Null => "null"
    case Bool(b) => if b then "true" else "false"
    case Num(n) => IntToString(n)
    case Str(s) => s
    case Obj => "[object Object]"
  }

  /** A non-empty run of decimal digits, optionally after one sign. */
  predicate IsIntegerText(t: string) {
    (t != "" && AllDigits(t)) || (|t| > 1 && (t[0] == '-' || t[0] == '+') && AllDigits(t[1..]))
  }

  /** `Number(s)` for a string: surrounding white space is ignored, an empty
      string is 0, an optionally signed run of decimal digits is its value;
      `None` stands for NaN. */
  function StringToNumber(s: string): (r: Option<int>)
    ensures AllWhitespace(s) ==> r == Some(0)
    ensures r.Some? <==> Trim(s) == "" || IsIntegerText(Trim(s))
    ensures r.Some? && Trim(s) != "" && Trim(s)[0] != '-' ==> r.value >= 0
    ensures r.Some? && Trim(s) != "" && Trim(s)[0] == '-' ==> r.value <= 0
  {
    var t := Trim(s);
    if t == "" then
      assert AllWhitespace(s) by {
        forall k | 0 <= k < |s| ensures IsJsWhitespace(s[k]) {
          var u := TrimStart(s);
          if k >= |s| - |u| {
            assert TrimEnd(u) == "";
            assert u[k - (|s| - |u|)] == s[k];
          }
        }
      }
      Some(0)
    else if t[0] == '-' && |t| > 1 && AllDigits(t[1..]) then Some(0 - ParseDigits(t[1..]) as int)
    else if t[0] == '+' && |t| > 1 && AllDigits(t[1..]) then Some(ParseDigits(t[1..]))
    else if AllDigits(t) then Some(ParseDigits(t))
    else None
  }

  /** `Number(v)`; `None` stands for NaN. */
  function ToNumber(v: Value): (r: Option<int>)
    ensures v.Num? ==> r == Some(v.n)
    ensures v.Str? ==> r == StringToNumber(v.s)
    ensures r.None? ==> v.Undefined? || v.Obj? || v.Str?
  {
    match v
    case Undefined => None
    case Null => Some(0)
    case Bool(b) => Some(if b then 1 else 0)
    case Num(n) => Some(n)
    case Str(s) => StringToNumber(s)
    case Obj => None
  }

  /** For `undefined`, `null`, booleans and numbers, truthiness agrees with
      `Number(v)`: the value is truthy exactly when it converts to a number
      other than 0 (NaN being falsy). */
  lemma TruthyIffNonZeroNumber(v: Value)
    requires !v.Str? && !v.Obj?
    ensures Truthy(v) <==> ToNumber(v).Some? && ToNumber(v).value != 0
  {
  }

  /** `typeof` answers `object` exactly for `null` and objects, and `string`
      exactly for strings. */
  lemma TypeOfObject(v: Value)
    ensures TypeOf(v) == "object" <==> v.Null? || v.Obj?
    ensures TypeOf(v) == "string" <==> v.Str?
  {
  }

  /** `Number` depends on its text only through the trimmed text. */
  lemma {:induction false} SameTrimSameNumber(s: string, u: string)
    requires Trim(s) == Trim(u)
    ensures StringToNumber(s) == StringToNumber(u)
  {
  }

  /** Leading white space is ignored. */
  lemma {:induction false} LeadingWhitespaceIgnored(c: char, s: string)
    requires IsJsWhitespace(c)
    ensures StringToNumber([c] + s) == StringToNumber(s)
  {
    TrimSkipsLeadingWhitespace(c, s);
    SameTrimSameNumber([c] + s, s);
  }

  /** A plus sign before a run of digits is ignored. */
  lemma {:induction false} PlusSignIgnored(t: string)
    requires t != "" && AllDigits(t)
    ensures StringToNumber("+" + t) == StringToNumber(t)
  {
    var p := "+" + t;
    assert p[0] == '+' && p[|p| - 1] == t[|t| - 1];
    assert !IsJsWhitespace(t[|t| - 1]);
    TrimIdentity(p);
    TrimIdentity(t);
    assert p[1..] == t;
  }

  /** A minus sign before a run of digits negates its value, so `-0`
      is 0. */
  lemma {:induction false} MinusSignNegates(t: string)
    requires t != "" && AllDigits(t)
    ensures StringToNumber("-" + t).Some? && StringToNumber(t).Some?
    ensures StringToNumber("-" + t).value == -StringToNumber(t).value
  {
    var m := "-" + t;
    assert m[0] == '-' && m[|m| - 1] == t[|t| - 1];
    assert !IsJsWhitespace(t[|t| - 1]);
    TrimIdentity(m);
    TrimIdentity(t);
    assert m[1..] == t;
  }

  /** A leading zero before a run of digits is ignored. */
  lemma {:induction false} LeadingZeroIgnored(t: string)
    requires t != "" && AllDigits(t)
    ensures StringToNumber("0" + t) == StringToNumber(t)
  {
    var z := "0" + t;
    assert z[0] == '0' && z[|z| - 1] == t[|t| - 1];
    assert !IsJsWhitespace(t[|t| - 1]);
    TrimIdentity(z);
    TrimIdentity(t);
    ParseLeadingZero(t);
  }

  /** The text a number interpolates to converts back to that number. */
  lemma NumberTextRoundTrip(n: int)
    ensures ToNumber(Str(ToText(Num(n)))) == Some(n)
  {
    if n < 0 {
      NegativeTextNumber(n);
    } else {
      NatTextNumber(n);
    }
  }

  lemma NatTextNumber(n: int)
    requires n >= 0
    ensures StringToNumber(IntToString(n)) == Some(n)
  {
    var t := NatToString(n);
    assert IntToString(n) == t;
    assert IsDigit(t[0]) && IsDigit(t[|t| - 1]);
    TrimIdentity(t);
    ParseNatToString(n);
    assert t[0] != '-' && t[0] != '+';
  }

  lemma NegativeTextNumber(n: int)
    requires n < 0
    ensures StringToNumber(IntToString(n)) == Some(n)
  {
    var t := "-" + NatToString(-n);
    assert IntToString(n) == t;
    assert t[1..] == NatToString(-n);
    assert IsDigit(t[|t| - 1]);
    TrimIdentity(t);
    ParseNatToString(-n);
  }
}
