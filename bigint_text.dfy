/**
 * Decimal text of JavaScript bigints: `BigInt.prototype.toString()` (base 10)
 * and the `BigInt(string)` conversion, both over the natural numbers.
 */
module BigIntText {

  import opened Wrappers

  predicate IsDigit(c: char) {
    '0' <= c <= '9'
  }

  function DigitValue(c: char): (d: nat)
    requires IsDigit(c)
    ensures d < 10
  {
    c as int - '0' as int
  }

  function DigitChar(d: nat): (c: char)
    requires d < 10
    ensures IsDigit(c) && DigitValue(c) == d
  {
    ('0' as int + d) as char
  }

  predicate AllDigits(s: string) {
    forall i :: 0 <= i < |s| ==> IsDigit(s[i])
  }

  /** The decimal text `toString()` produces: digits only, and no leading zero except in "0". */
  predicate IsCanonicalDecimal(s: string) {
    |s| > 0 && AllDigits(s) && (s[0] == '0' ==> |s| == 1)
  }

  /** `n.toString()` for a bigint `n >= 0`. */
  function ToDecimalString(n: nat): (s: string)
    ensures IsCanonicalDecimal(s)
    ensures s == "0" <==> n == 0
  {
    if n < 10 then [DigitChar(n)] else ToDecimalString(n / 10) + [DigitChar(n % 10)]
  }

  /** The value of a string of decimal digits, most significant first; the empty string is 0. */
  function ParseDecimal(s: string): (n: nat)
    requires AllDigits(s)
  {
    if s == [] then 0 else ParseDecimal(s[..|s| - 1]) * 10 + DigitValue(s[|s| - 1])
  }

  /** Reading back the decimal text of `n` gives `n`. */
  lemma {:induction false} ParseToDecimalString(n: nat)
    ensures ParseDecimal(ToDecimalString(n)) == n
  {
    var s := ToDecimalString(n);
    if n >= 10 {
      ParseToDecimalString(n / 10);
      assert s[..|s| - 1] == ToDecimalString(n / 10);
    }
  }

  /** A canonical decimal string that does not start with '0' has a value of at least one. */
  lemma {:induction false} ParseDecimalPositive(s: string)
    requires IsCanonicalDecimal(s) && s[0] != '0'
    ensures ParseDecimal(s) >= 1
    ensures |s| >= 2 ==> ParseDecimal(s) >= 10
  {
    if |s| >= 2 {
      var p := s[..|s| - 1];
      assert p[0] == s[0];
      ParseDecimalPositive(p);
    }
  }

  /** Conversely, every canonical decimal string is the text of its own value. */
  lemma {:induction false} ToDecimalStringParse(s: string)
    requires IsCanonicalDecimal(s)
    ensures ToDecimalString(ParseDecimal(s)) == s
    decreases |s|
  {
    if |s| >= 2 {
      var p := s[..|s| - 1];
      assert p[0] == s[0];
      ParseDecimalPositive(s);
      ToDecimalStringParse(p);
      assert s == p + [s[|s| - 1]];
    }
  }

  /** Distinct numbers have distinct decimal texts. */
  lemma ToDecimalStringInjective(m: nat, n: nat)
    requires ToDecimalString(m) == ToDecimalString(n)
    ensures m == n
  {
    ParseToDecimalString(m);
    ParseToDecimalString(n);
  }

  /**
   * `BigInt(s)` for a string `s`: a string of decimal digits (the empty string included)
   * converts to its value; any other string throws a SyntaxError whose message is returned.
   */
  function BigIntFromString(s: string): (r: Result<nat, string>)
    ensures r.Success? <==> AllDigits(s)
    ensures AllDigits(s) ==> r.value == ParseDecimal(s)
    ensures !AllDigits(s) ==> r.error == "Cannot convert " + s + " to a BigInt"
  {
    if AllDigits(s) then Success(ParseDecimal(s)) else Failure("Cannot convert " + s + " to a BigInt")
  }

  /** `BigInt(n.toString())` is `n` again. */
  lemma BigIntFromDecimalString(n: nat)
    ensures BigIntFromString(ToDecimalString(n)) == Success(n)
  {
    ParseToDecimalString(n);
  }

  /** A canonical decimal string converts to the number whose text it is. */
  lemma BigIntFromCanonical(s: string)
    requires IsCanonicalDecimal(s)
    ensures BigIntFromString(s).Success? && ToDecimalString(BigIntFromString(s).value) == s
  {
    ToDecimalStringParse(s);
  }

}
