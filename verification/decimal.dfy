/** Python's `int(text)` restricted to unsigned decimal digit strings, and
    `str(n)` for a natural number. */
module Decimal {
  import opened Results

  predicate IsDigit(c: char)
  {
    '0' <= c <= '9'
  }

  /** A non-empty run of decimal digits: the strings `int()` accepts here. */
  predicate IsDigits(s: string)
  {
    |s| > 0 && forall i :: 0 <= i < |s| ==> IsDigit(s[i])
  }

  function DigitValue(c: char): nat
    requires IsDigit(c)
  {
    c as int - '0' as int
  }

  function DigitChar(d: nat): (c: char)
    requires d < 10
    ensures IsDigit(c) && DigitValue(c) == d
  {
    ('0' as int + d) as char
  }

  /** The number a digit string denotes, most significant digit first;
      leading zeros are allowed, as `int("05") == 5`. */
  function ValueOf(s: string): nat
    requires forall i :: 0 <= i < |s| ==> IsDigit(s[i])
  {
    if |s| == 0 then 0 else 10 * ValueOf(s[..|s| - 1]) + DigitValue(s[|s| - 1])
  }

  /** `int(s)`: the value of a digit string, otherwise ValueError. */
  function ParseNat(s: string): (r: Result<nat>)
    ensures r.Ok? <==> IsDigits(s)
    ensures r.Err? ==> r.error == ValueError
  {
    if IsDigits(s) then Ok(ValueOf(s)) else Err(ValueError)
  }

  /** `str(n)`: the shortest decimal rendering of `n`. */
  function NatToString(n: nat): (s: string)
    ensures IsDigits(s)
    ensures s[0] == '0' ==> n == 0
  {
    if n < 10 then [DigitChar(n)] else NatToString(n / 10) + [DigitChar(n % 10)]
  }

  /** `int(str(n)) == n`. */
  lemma {:induction false} ParseNatToString(n: nat)
    ensures ParseNat(NatToString(n)) == Ok(n)
  {
    var s := NatToString(n);
    if n >= 10 {
      ParseNatToString(n / 10);
      assert s[..|s| - 1] == NatToString(n / 10);
    } else {
      assert s[..0] == "";
      assert ValueOf(s) == 10 * ValueOf(s[..0]) + DigitValue(s[0]);
    }
  }

  /** `str(int(s)) == s` for digit strings without a leading zero. */
  lemma {:induction false} NatToStringParse(s: string)
    requires IsDigits(s)
    requires s[0] != '0' || |s| == 1
    ensures NatToString(ValueOf(s)) == s
    decreases |s|
  {
    if |s| > 1 {
      var init := s[..|s| - 1];
      NatToStringParse(init);
      PositiveValue(init);
      assert init + [s[|s| - 1]] == s;
    }
  }

  lemma {:induction false} PositiveValue(s: string)
    requires IsDigits(s) && s[0] != '0'
    ensures ValueOf(s) >= 1
    decreases |s|
  {
    if |s| > 1 {
      PositiveValue(s[..|s| - 1]);
    } else {
      assert s[..0] == "";
    }
  }

  /** A decimal rendering contains no character other than digits. */
  lemma NatToStringChars(n: nat, c: char)
    requires !IsDigit(c)
    ensures c !in NatToString(n)
  {
  }
}
