/**
 * `Long.valueOf(String)` and `Long.toString(long)` of the Java platform, restricted to the
 * ASCII digits `0`-`9`.
 */
module JavaLong {
  import opened Common

  const MIN_LONG: int := -0x8000_0000_0000_0000
  const MAX_LONG: int := 0x7FFF_FFFF_FFFF_FFFF

  predicate InLongRange(n: int) {
    MIN_LONG <= n <= MAX_LONG
  }

  predicate IsDigit(c: char) {
    '0' <= c <= '9'
  }

  predicate AllDigits(s: string) {
    forall i :: 0 <= i < |s| ==> IsDigit(s[i])
  }

  /** The value of a run of decimal digits, most significant first. */
  function DigitsValue(s: string): nat
    requires AllDigits(s)
  {
    if s == [] then 0 else DigitsValue(s[..|s| - 1]) * 10 + ((s[|s| - 1] as int) - ('0' as int))
  }

  /**
   * `Long.valueOf(s)`: an optional sign, then at least one digit, and a value that fits in 64 bits;
   * anything else raises `NumberFormatException` (`None`).
   */
  function ParseLong(s: string): (r: Option<int>)
    ensures r.Some? ==> InLongRange(r.value)
    ensures r.Some? ==> s != [] && (s[0] == '-' || s[0] == '+' || IsDigit(s[0]))
    ensures r.Some? ==>
      var digits := if s[0] == '-' || s[0] == '+' then s[1..] else s;
      && digits != [] && AllDigits(digits)
      && r.value == if s[0] == '-' then 0 - DigitsValue(digits) else DigitsValue(digits)
    ensures
      var signed := |s| > 0 && (s[0] == '-' || s[0] == '+');
      var digits := if signed then s[1..] else s;
      digits != [] && AllDigits(digits) &&
      InLongRange(if signed && s[0] == '-' then 0 - DigitsValue(digits) else DigitsValue(digits))
      ==> r.Some?
  {
    var signed := |s| > 0 && (s[0] == '-' || s[0] == '+');
    var digits := if signed then s[1..] else s;
    if digits == [] || !AllDigits(digits) then None
    else
      var v: int := if signed && s[0] == '-' then 0 - DigitsValue(digits) as int else DigitsValue(digits);
      if InLongRange(v) then Some(v) else None
  }

  /** The decimal digits of `n` without leading zeros. */
  function NatDigits(n: nat): (s: string)
    ensures s != [] && AllDigits(s)
  {
    if n < 10 then [('0' as int + n) as char]
    else NatDigits(n / 10) + [('0' as int + n % 10) as char]
  }

  /** `Long.toString(n)` (and `Integer.toString`, `BigInteger.toString`): a minus sign when negative. */
  function DecimalString(n: int): string {
    if n < 0 then "-" + NatDigits(-n) else NatDigits(n)
  }

  lemma {:induction false} NatDigitsValue(n: nat)
    ensures DigitsValue(NatDigits(n)) == n
  {
    if n >= 10 {
      var s := NatDigits(n);
      assert s[..|s| - 1] == NatDigits(n / 10);
      NatDigitsValue(n / 10);
    }
  }

  /** Printing an integer and parsing it back gives the integer exactly when it fits in a `long`. */
  lemma ParseDecimalString(n: int)
    ensures ParseLong(DecimalString(n)) == if InLongRange(n) then Some(n) else None
  {
    var s := DecimalString(n);
    if n < 0 {
      assert s[1..] == NatDigits(-n);
      NatDigitsValue(-n);
    } else {
      NatDigitsValue(n);
    }
  }
}
