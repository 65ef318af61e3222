/**
 * JavaScript's `String(value)` on the query-parameter values the client
 * accepts: strings unchanged, booleans as `true`/`false`, and integers in
 * plain decimal notation. For an integer of magnitude at most 2^53,
 * ECMAScript's Number::toString writes exactly these digits.
 */
module JsString {
  import opened ApiTypes

  function DigitChar(d: int): (c: char)
    requires 0 <= d < 10
    ensures '0' <= c <= '9'
  {
    ('0' as int + d) as char
  }

  function DigitValue(c: char): (d: nat)
    requires '0' <= c <= '9'
    ensures 0 <= d < 10
  {
    c as int - '0' as int
  }

  predicate AllDigits(s: string) {
    forall k :: 0 <= k < |s| ==> '0' <= s[k] <= '9'
  }

  /** The decimal digits of `n`, most significant first, without leading zeros. */
  function Digits(n: nat): (s: string)
    ensures s != [] && AllDigits(s)
    ensures n == 0 <==> s == "0"
    ensures n > 0 ==> s[0] != '0'
  {
    if n < 10 then [DigitChar(n)]
    else Digits(n / 10) + [DigitChar(n % 10)]
  }

  /** `String(n)` for an integral number: an optional `-` and the digits of its magnitude. */
  function NumberToString(i: int): (s: string)
    ensures s != []
    ensures i < 0 <==> s[0] == '-'
    ensures i < 0 ==> s[1..] == Digits(-i)
    ensures i >= 0 ==> s == Digits(i)
  {
    if i < 0 then "-" + Digits(-i) else Digits(i)
  }

  /** The value of a string of decimal digits. */
  function DigitsValue(s: string): nat
    requires AllDigits(s)
  {
    if s == [] then 0 else DigitsValue(s[..|s| - 1]) * 10 + DigitValue(s[|s| - 1])
  }

  /** Reads back what `NumberToString` writes. */
  function NumberValue(s: string): int
    requires s != [] && (s[0] == '-' ==> AllDigits(s[1..])) && (s[0] != '-' ==> AllDigits(s))
  {
    if s[0] == '-' then 0 - DigitsValue(s[1..]) as int else DigitsValue(s)
  }

  lemma {:induction false} DigitsRoundTrip(n: nat)
    ensures DigitsValue(Digits(n)) == n
  {
    if n >= 10 {
      var s := Digits(n);
      assert s[..|s| - 1] == Digits(n / 10);
      DigitsRoundTrip(n / 10);
    }
  }

  /** Printing an integer loses nothing: its text reads back as the same integer. */
  lemma NumberRoundTrip(i: int)
    ensures var s := NumberToString(i);
      && s != []
      && (s[0] == '-' ==> AllDigits(s[1..]))
      && (s[0] != '-' ==> AllDigits(s))
      && (s[0] == '-' ==> s[1..] == Digits(-i) && s[1] != '0')
      && NumberValue(s) == i
  {
    if i < 0 {
      assert NumberToString(i)[1..] == Digits(-i);
      DigitsRoundTrip(-i);
    } else {
      DigitsRoundTrip(i);
    }
  }

  /**
   * `String(value)` for a query-parameter value: a string is sent as it
   * is, a number as text that reads back as the same number, and a
   * boolean as the word `true` or `false`.
   */
  function ParamToString(v: ParamValue): (text: string)
    ensures v.Str? ==> text == v.s
    ensures v.Num? ==>
      && text != []
      && (text[0] == '-' ==> AllDigits(text[1..]))
      && (text[0] != '-' ==> AllDigits(text))
      && NumberValue(text) == v.n
    ensures v.Bool? ==> (text == "true" <==> v.b) && (text == "false" <==> !v.b)
  {
    match v
    case Str(s) => s
    case Num(n) => NumberRoundTrip(n); NumberToString(n)
    case Bool(b) => if b then "true" else "false"
  }
}
