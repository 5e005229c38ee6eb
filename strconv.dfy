/** The integer text conversions the bot takes from Go's `strconv` and `fmt`
    packages: decimal rendering (`strconv.Itoa`, the `%d` and `%+d` verbs) and
    decimal parsing (`strconv.Atoi`, `strconv.ParseInt(s, 10, 64)`). Go's `int`
    is 64 bits wide on the platforms the bot runs on. */
module Strconv {
  import opened Wrappers

  const MIN_INT64: int := -0x8000_0000_0000_0000
  const MAX_INT64: int := 0x7FFF_FFFF_FFFF_FFFF

  predicate IsDigit(c: char) { '0' <= c <= '9' }

  predicate AllDigits(s: string) { forall i :: 0 <= i < |s| ==> IsDigit(s[i]) }

  function DigitValue(c: char): nat
    requires IsDigit(c)
  {
    c as int - '0' as int
  }

  function DigitChar(d: nat): (c: char)
    requires d < 10
    ensures IsDigit(c) && DigitValue(c) == d
  {
    ('0' as int + d) as char
  }

  /** The value of a string of decimal digits, most significant digit first. */
  function DigitsValue(s: string): nat
    requires AllDigits(s)
    decreases |s|
  {
    if s == [] then 0 else 10 * DigitsValue(s[..|s| - 1]) + DigitValue(s[|s| - 1])
  }

  /** The shortest decimal digits of `n`. */
  function NatToString(n: nat): (s: string)
    ensures |s| > 0
    decreases n
  {
    if n < 10 then [DigitChar(n)] else NatToString(n / 10) + [DigitChar(n % 10)]
  }

  /** The digits of `n` are digits, they spell `n`, and there is no leading zero. */
  lemma {:induction false} NatToStringDigits(n: nat)
    ensures var s := NatToString(n);
            AllDigits(s) && DigitsValue(s) == n && (s[0] == '0' ==> n == 0)
    decreases n
  {
    if n >= 10 {
      NatToStringDigits(n / 10);
      var s := NatToString(n);
      assert s[..|s| - 1] == NatToString(n / 10);
    }
  }

  /** `strconv.Itoa(n)`, which is also what `%d` prints. */
  function IntToString(n: int): (s: string)
    ensures |s| > 0
  {
    if n < 0 then "-" + NatToString(-n) else NatToString(n)
  }

  /** A minus sign comes first exactly for a negative number, and digits follow. */
  lemma IntToStringDigits(n: int)
    ensures var s := IntToString(n);
            && (s[0] == '-' <==> n < 0)
            && (n >= 0 ==> AllDigits(s))
            && (n < 0 ==> AllDigits(s[1..]))
  {
    var s := IntToString(n);
    if n < 0 {
      NatToStringDigits(-n);
      assert s[1..] == NatToString(-n);
    } else {
      NatToStringDigits(n);
    }
  }

  /** What `%+d` prints: the sign is always written. */
  function SignedString(n: int): (s: string)
    ensures |s| > 1 && s[0] == (if n < 0 then '-' else '+')
  {
    if n < 0 then "-" + NatToString(-n) else "+" + NatToString(n)
  }

  /** `strconv.Atoi(s)` on a 64-bit platform, equivalently
      `strconv.ParseInt(s, 10, 64)`: an optional sign, then at least one ASCII
      digit and nothing else, and a value that fits in 64 bits. */
  function ParseInt(s: string): (r: Option<int>)
    ensures r.Some? ==> MIN_INT64 <= r.value <= MAX_INT64
  {
    var signed := |s| > 0 && (s[0] == '+' || s[0] == '-');
    var digits := if signed then s[1..] else s;
    if digits == [] || !AllDigits(digits) then None
    else
      var v: int := if signed && s[0] == '-' then 0 - (DigitsValue(digits) as int) else DigitsValue(digits) as int;
      if MIN_INT64 <= v <= MAX_INT64 then Some(v) else None
  }

  /** A digit string parses to its value, when that value fits. */
  lemma ParseDigits(s: string)
    requires s != [] && AllDigits(s) && DigitsValue(s) <= MAX_INT64
    ensures ParseInt(s) == Some(DigitsValue(s))
  {
  }

  lemma ParseIntToString(n: int)
    requires MIN_INT64 <= n <= MAX_INT64
    ensures ParseInt(IntToString(n)) == Some(n)
  {
    var s := IntToString(n);
    if n < 0 {
      NatToStringDigits(-n);
      assert s[1..] == NatToString(-n);
    } else {
      NatToStringDigits(n);
      assert !IsDigit('-') && !IsDigit('+');
    }
  }

  lemma ParseSignedString(n: int)
    requires MIN_INT64 <= n <= MAX_INT64
    ensures ParseInt(SignedString(n)) == Some(n)
  {
    var s := SignedString(n);
    NatToStringDigits(if n < 0 then -n else n);
    assert s[1..] == NatToString(if n < 0 then -n else n);
  }
}
