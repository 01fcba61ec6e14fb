/**
  The scalar parsers the filters are instantiated with: Rust's `FromStr` for `u64`,
  `i32`, `bool` and `String`. The filter code treats them as black boxes
  (`value.parse()`), so every filter function here takes its parser as a parameter;
  these are the concrete instances the source's own examples use.
*/
module Scalars {
  import opened Wrappers

  const U64_LIMIT: int := 0x1_0000_0000_0000_0000
  const I32_MIN: int := -0x8000_0000
  const I32_MAX: int := 0x7FFF_FFFF

  newtype u64 = x: int | 0 <= x < 0x1_0000_0000_0000_0000

  predicate IsDecimalDigit(c: char) { '0' <= c <= '9' }

  predicate AllDigits(s: string) {
    forall j :: 0 <= j < |s| ==> IsDecimalDigit(s[j])
  }

  /** The number a string of decimal digits denotes (leading zeros allowed). */
  function DigitsValue(s: string): nat
    requires AllDigits(s)
    decreases |s|
  {
    if s == [] then 0 else 10 * DigitsValue(s[..|s| - 1]) + (s[|s| - 1] as int - '0' as int)
  }

  /** The decimal rendering of a natural number, without sign or leading zeros. */
  function Decimal(n: nat): (s: string)
    ensures |s| > 0 && AllDigits(s)
  {
    if n < 10 then ['0' + n as char] else Decimal(n / 10) + ['0' + (n % 10) as char]
  }

  /** `k` zero digits. */
  function Zeros(k: nat): (s: string)
    ensures |s| == k
  {
    if k == 0 then [] else Zeros(k - 1) + ['0']
  }

  /** `n` written in decimal after `k` leading zeros. */
  function ZeroPadded(k: nat, n: nat): string {
    Zeros(k) + Decimal(n)
  }

  /** `s` without one leading `+`. */
  function Unsigned(s: string): string {
    if |s| > 0 && s[0] == '+' then s[1..] else s
  }

  /** `s` without one leading `+` or `-`. */
  function Magnitude(s: string): string {
    if |s| > 0 && (s[0] == '+' || s[0] == '-') then s[1..] else s
  }

  /**
    `u64::from_str`: one optional `+`, then one or more digits, with a value below 2^64.
    Whatever it accepts is digits after at most one `+`, and the value is theirs.
  */
  function ParseU64(s: string): (r: Option<u64>)
    ensures r.Some? ==>
      var digits := Unsigned(s);
      |digits| > 0 && AllDigits(digits) && DigitsValue(digits) == r.value as int
  {
    var digits := Unsigned(s);
    if |digits| == 0 || !AllDigits(digits) then None
    else if DigitsValue(digits) < U64_LIMIT then Some(DigitsValue(digits) as u64)
    else None
  }

  /**
    `i32::from_str`: one optional `+` or `-`, then one or more digits, with a value in range.
    Whatever it accepts is digits after at most one sign, and the value is theirs, negated
    after `-`.
  */
  function ParseI32(s: string): (r: Option<int>)
    ensures r.Some? ==> I32_MIN <= r.value <= I32_MAX
    ensures r.Some? ==>
      var digits := Magnitude(s);
      && |digits| > 0 && AllDigits(digits)
      && r.value == if s[0] == '-' then 0 - DigitsValue(digits) else DigitsValue(digits)
  {
    var negative := |s| > 0 && s[0] == '-';
    var digits := Magnitude(s);
    if |digits| == 0 || !AllDigits(digits) then None
    else
      var n: int := if negative then 0 - DigitsValue(digits) as int else DigitsValue(digits);
      if I32_MIN <= n <= I32_MAX then Some(n) else None
  }

  /** `s` is `n` in decimal, possibly after leading zeros, and after at most one `+`. */
  ghost predicate UnsignedRendering(s: string, k: nat, n: nat) {
    Unsigned(s) == ZeroPadded(k, n)
  }

  /**
    `s` is the signed number `v` in decimal, possibly after leading zeros and at most one
    sign: `-` when `v` is negative, never `-` when it is positive, either sign for zero.
  */
  ghost predicate SignedRendering(s: string, k: nat, v: int) {
    && Magnitude(s) == ZeroPadded(k, if v < 0 then -v else v)
    && |s| > 0
    && (v < 0 ==> s[0] == '-')
    && (v > 0 ==> s[0] != '-')
  }

  /** Whatever `u64::from_str` accepts is the decimal rendering of its value, up to leading zeros and a `+`. */
  lemma ParseU64Accepts(s: string)
    requires ParseU64(s).Some?
    ensures var n: nat := ParseU64(s).value as nat; exists k: nat :: UnsignedRendering(s, k, n)
  {
    var k := PaddedDecimal(Unsigned(s));
    assert UnsignedRendering(s, k, ParseU64(s).value as nat);
  }

  /** Whatever `i32::from_str` accepts is the decimal rendering of its value, up to leading zeros and the sign. */
  lemma ParseI32Accepts(s: string)
    requires ParseI32(s).Some?
    ensures var v := ParseI32(s).value; exists k: nat :: SignedRendering(s, k, v)
  {
    var k := PaddedDecimal(Magnitude(s));
    assert SignedRendering(s, k, ParseI32(s).value);
  }

  /** A non-empty run of digits is the decimal rendering of its value after `k` leading zeros. */
  lemma {:induction false} PaddedDecimal(d: string) returns (k: nat)
    requires |d| > 0 && AllDigits(d)
    ensures d == ZeroPadded(k, DigitsValue(d))
    decreases |d|
  {
    var init, c := d[..|d| - 1], d[|d| - 1];
    assert d == init + [c];
    if |d| == 1 {
      k := 0;
      assert d == ZeroPadded(0, DigitsValue(d));
    } else {
      k := PaddedDecimal(init);
      var v := DigitsValue(init);
      assert DigitsValue(d) == 10 * v + (c as int - '0' as int);
      if v == 0 {
        AppendToZero(k, c);
        k := k + 1;
      } else {
        AppendDigit(k, v, c);
      }
    }
  }

  /** A digit after the rendering of zero: one more leading zero, then the digit. */
  lemma AppendToZero(k: nat, c: char)
    requires IsDecimalDigit(c)
    ensures ZeroPadded(k, 0) + [c] == ZeroPadded(k + 1, c as int - '0' as int)
  {
    assert Zeros(k + 1) == Zeros(k) + ['0'];
    assert Decimal(c as int - '0' as int) == [c];
  }

  /** A digit after the rendering of a positive number renders ten times it plus the digit. */
  lemma AppendDigit(k: nat, v: nat, c: char)
    requires IsDecimalDigit(c) && v > 0
    ensures ZeroPadded(k, v) + [c] == ZeroPadded(k, 10 * v + (c as int - '0' as int))
  {
    var n := 10 * v + (c as int - '0' as int);
    assert n / 10 == v && n % 10 == c as int - '0' as int;
    assert Decimal(n) == Decimal(v) + [c];
  }

  /** `bool::from_str`: exactly `true` or `false`. */
  function ParseBool(s: string): (r: Option<bool>)
    ensures r == Some(true) <==> s == "true"
    ensures r == Some(false) <==> s == "false"
    ensures r.None? <==> s != "true" && s != "false"
  {
    if s == "true" then Some(true) else if s == "false" then Some(false) else None
  }

  /** `String::from_str`: its error type is `Infallible`, and the value is the text unchanged. */
  function ParseString(s: string): (r: Option<string>)
    ensures r.Some? && r.value == s
  {
    Some(s)
  }

  // ---------------------------------------------------------------------------
  // Round trips between the parsers and the decimal rendering

  lemma {:induction false} DigitsValueOfDecimal(n: nat)
    ensures DigitsValue(Decimal(n)) == n
  {
    if n >= 10 {
      var s := Decimal(n);
      assert s[..|s| - 1] == Decimal(n / 10);
      DigitsValueOfDecimal(n / 10);
    }
  }

  /** Every `u64` parses back from its decimal rendering. */
  lemma ParseU64OfDecimal(n: u64)
    ensures ParseU64(Decimal(n as nat)) == Some(n)
  {
    DigitsValueOfDecimal(n as nat);
  }

  /** Every `i32` parses back from its decimal rendering, with `-` for negatives. */
  lemma ParseI32OfDecimal(n: int)
    requires I32_MIN <= n <= I32_MAX
    ensures n >= 0 ==> ParseI32(Decimal(n)) == Some(n)
    ensures n < 0 ==> ParseI32("-" + Decimal(-n)) == Some(n)
  {
    if n >= 0 {
      DigitsValueOfDecimal(n);
    } else {
      DigitsValueOfDecimal(-n);
      assert ("-" + Decimal(-n))[1..] == Decimal(-n);
    }
  }

  /** What `u64::from_str` refuses: the empty string, a lone sign, a minus sign, non-digits. */
  lemma ParseU64Rejects()
    ensures ParseU64("") == None
    ensures ParseU64("+") == None
    ensures ParseU64("-1") == None
    ensures ParseU64("abc") == None
  {
    assert !IsDecimalDigit("-1"[0]);
    assert !IsDecimalDigit("abc"[0]);
  }

  /** Values of 2^64 and above do not fit and are refused. */
  lemma ParseU64Overflow(n: nat)
    requires n >= U64_LIMIT
    ensures ParseU64(Decimal(n)) == None
  {
    DigitsValueOfDecimal(n);
    assert Decimal(n)[0] != '+';
  }

  /** A string starting with anything but a sign or a digit is not an `i32`. */
  lemma ParseI32Rejects(s: string)
    requires |s| > 0 && s[0] != '+' && s[0] != '-' && !IsDecimalDigit(s[0])
    ensures ParseI32(s) == None
  {
  }
}
