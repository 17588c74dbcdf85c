/**
 * The JavaScript values that flow through the database options
 * (`options.db.*`): how they test in an `if` and how `+` turns them
 * into text.
 */
module JsValues {

  /** The non-negative integers a JavaScript number holds exactly (below
      2^53); `String(n)` writes each of them in plain decimal. */
  type SafeNat = n: nat | n < 0x20_0000_0000_0000

  /** A configuration value. Numbers are the exactly representable
      non-negative integers. */
  datatype JsValue = Undefined | Null | Text(s: string) | Number(n: SafeNat)

  /** JavaScript truthiness: `undefined`, `null`, `""` and `0` are falsy. */
  predicate Truthy(v: JsValue) {
    match v
    case Undefined => false
    case Null => false
    case Text(s) => s != ""
    case Number(n) => n != 0
  }

  predicate IsDigit(c: char) {
    '0' <= c <= '9'
  }

  predicate AllDigits(s: string) {
    forall i :: 0 <= i < |s| ==> IsDigit(s[i])
  }

  function DigitChar(d: nat): (c: char)
    requires d < 10
    ensures IsDigit(c)
    ensures DigitValue(c) == d
  {
    ('0' as int + d) as char
  }

  function DigitValue(c: char): (d: nat)
    requires IsDigit(c)
    ensures d < 10
  {
    c as int - '0' as int
  }

  /** The decimal text of `n` (no leading zeros); for every `SafeNat` this is
      what `String(n)` writes. */
  function Decimal(n: nat): (s: string)
    ensures s != [] && AllDigits(s)
    ensures n != 0 ==> s[0] != '0'
  {
    if n < 10 then [DigitChar(n)] else Decimal(n / 10) + [DigitChar(n % 10)]
  }

  /** The number a string of decimal digits denotes; leading zeros allowed. */
  function DigitsValue(s: string): (v: nat)
    requires AllDigits(s)
  {
    if s == [] then 0 else 10 * DigitsValue(s[..|s| - 1]) + DigitValue(s[|s| - 1])
  }

  /** Reading back the decimal text of a number gives the number. */
  lemma {:induction false} DigitsValueOfDecimal(n: nat)
    ensures DigitsValue(Decimal(n)) == n
  {
    var s := Decimal(n);
    if n >= 10 {
      DigitsValueOfDecimal(n / 10);
      assert s[..|s| - 1] == Decimal(n / 10);
    }
  }

  /** The text `+` produces for a value when it is appended to a string. */
  function Display(v: JsValue): (s: string)
    ensures s == "" <==> v == Text("")
    ensures Truthy(v) ==> s != ""
  {
    match v
    case Undefined => "undefined"
    case Null => "null"
    case Text(t) => t
    case Number(n) => Decimal(n)
  }
}
