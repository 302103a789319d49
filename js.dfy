/**
 * JavaScript values as they cross the HTTP boundary between the client and
 * the server of the task manager: request-body fields, stored document
 * fields and the fields of the task objects the client receives.
 */
module Js {

  /** The scalar JavaScript values a request body or a document field can
      hold. `Undefined` is a property that is not present at all; `Null` is
      an explicit `null`. Only integral numbers are modelled, and arrays
      and objects are not modelled at all. */
  datatype JsValue = Undefined | Null | Bool(b: bool) | Str(s: string) | Num(n: int)

  /** JavaScript truthiness (ECMA-262 ToBoolean) restricted to these values. */
  predicate Truthy(v: JsValue)
  {
    match v
    case Undefined => false
    case Null => false
    case Bool(b) => b
    case Str(s) => s != ""
    case Num(n) => n != 0
  }

  /** The `a || b` operator: `a` when it is truthy, otherwise `b`. */
  function Or(a: JsValue, b: JsValue): (r: JsValue)
    ensures Truthy(b) ==> Truthy(r)
    ensures Truthy(r) <==> Truthy(a) || Truthy(b)
    ensures Truthy(a) ==> r == a
    ensures !Truthy(a) ==> r == b
  {
    if Truthy(a) then a else b
  }

  predicate IsDigit(c: char)
  {
    '0' <= c <= '9'
  }

  predicate AllDigits(s: string)
  {
    forall i :: 0 <= i < |s| ==> IsDigit(s[i])
  }

  function DigitChar(d: nat): (c: char)
    requires d < 10
    ensures IsDigit(c) && c as int - '0' as int == d
  {
    "0123456789"[d]
  }

  /** The number a string of decimal digits denotes (most significant first). */
  function DigitsValue(s: string): nat
    requires AllDigits(s)
  {
    if s == [] then 0
    else DigitsValue(s[..|s| - 1]) * 10 + (s[|s| - 1] as int - '0' as int)
  }

  function Pow10(k: nat): (p: nat)
    ensures p >= 1
  {
    if k == 0 then 1 else 10 * Pow10(k - 1)
  }

  /** The decimal representation JavaScript's Number-to-String conversion
      gives a non-negative integer: digits only, no leading zero. */
  function NatToString(n: nat): (s: string)
    ensures 1 <= |s| && AllDigits(s)
    ensures DigitsValue(s) == n
    ensures s[0] == '0' <==> n == 0
    decreases n
  {
    if n < 10 then [DigitChar(n)]
    else
      var prefix := NatToString(n / 10);
      var s := prefix + [DigitChar(n % 10)];
      assert s[..|s| - 1] == prefix;
      s
  }

  /** Number-to-String for any integer: a leading `-` for negative values. */
  function IntToString(n: int): (s: string)
    ensures |s| >= 1
    ensures n >= 0 ==> s == NatToString(n)
    ensures n < 0 ==> s[0] == '-' && s[1..] == NatToString(-n)
  {
    if n < 0 then "-" + NatToString(-n) else NatToString(n)
  }

  /** A decimal string has k digits exactly when the number lies in
      [10^(k-1), 10^k) (or is below 10 when k is 1). */
  lemma {:induction false} NatToStringLength(n: nat, k: nat)
    requires k >= 1
    ensures |NatToString(n)| == k <==> (if k == 1 then n < 10 else Pow10(k - 1) <= n < Pow10(k))
    decreases n
  {
    if n >= 10 {
      if k > 1 {
        NatToStringLength(n / 10, k - 1);
        if k - 1 == 1 {
          assert Pow10(1) == 10;
        }
      }
    }
  }

  /** The numbers whose decimal form has exactly four digits. */
  lemma FourDigitYears(n: nat)
    ensures |NatToString(n)| == 4 <==> 1000 <= n <= 9999
  {
    NatToStringLength(n, 4);
    assert Pow10(3) == 1000 && Pow10(4) == 10000;
  }

  /** Mongoose casting of a value written to a `String` schema path:
      a number is stored as its decimal string, a boolean as "true" or
      "false" (its `toString`), `null` and `undefined` as they are. */
  function CastString(v: JsValue): (r: JsValue)
    ensures !r.Num? && !r.Bool?
    ensures Truthy(v) ==> Truthy(r)
    ensures r.Undefined? <==> v.Undefined?
    ensures v.Str? || v.Null? ==> r == v
    ensures v.Num? ==> r == Str(IntToString(v.n))
    ensures v.Bool? ==> r == Str(if v.b then "true" else "false")
  {
    match v
    case Num(n) => Str(IntToString(n))
    case Bool(b) => Str(if b then "true" else "false")
    case _ => v
  }
}
