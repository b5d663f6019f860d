/**
 * PHP integers as they appear in the converters: 64-bit values, their decimal
 * rendering by (string) $int, and the rule by which PHP turns a string array key
 * that spells an integer into that integer key.
 */
module PhpInt {

  const MinInt64: int := -0x8000_0000_0000_0000
  const MaxInt64: int := 0x7FFF_FFFF_FFFF_FFFF

  type Int64 = i: int | MinInt64 <= i <= MaxInt64

  predicate IsDigit(c: char) {
    '0' <= c <= '9'
  }

  function DigitChar(d: nat): (c: char)
    requires d < 10
    ensures IsDigit(c) && c as int - '0' as int == d
  {
    (d + '0' as int) as char
  }

  /** The decimal digits of a natural number, without leading zeros. */
  function Digits(n: nat): (s: string)
    ensures s != [] && (forall k :: 0 <= k < |s| ==> IsDigit(s[k]))
    ensures |s| > 1 ==> s[0] != '0'
  {
    if n < 10 then [DigitChar(n)] else Digits(n / 10) + [DigitChar(n % 10)]
  }

  /** (string) $n for a PHP integer. */
  function DecimalString(n: int): string {
    if n < 0 then "-" + Digits(-n) else Digits(n)
  }

  /** The value of a run of decimal digits. */
  function DigitsValue(s: string): nat
    requires forall k :: 0 <= k < |s| ==> IsDigit(s[k])
  {
    if s == [] then 0
    else
      assert IsDigit(s[|s| - 1]);
      DigitsValue(s[..|s| - 1]) * 10 + (s[|s| - 1] as int - '0' as int)
  }

  /** Digits without a superfluous leading zero, as PHP requires of an integer key. */
  predicate IsCanonicalDigits(s: string) {
    && s != []
    && (forall k :: 0 <= k < |s| ==> IsDigit(s[k]))
    && (|s| > 1 ==> s[0] != '0')
  }

  /** The number a canonical optionally-negative digit string spells. */
  function SignedValue(s: string): int
    requires s != [] && (s[0] == '-' ==> IsCanonicalDigits(s[1..]) && s[1..] != "0")
    requires s[0] != '-' ==> IsCanonicalDigits(s)
  {
    if s[0] == '-' then -(DigitsValue(s[1..]) as int) else DigitsValue(s)
  }

  /**
   * A string that PHP turns into an integer when it is used as an array key:
   * "0", or digits with no leading zero, optionally after a minus sign (but not
   * "-0"), whose value fits in 64 bits.
   */
  predicate IsIntegerKey(s: string) {
    && s != []
    && (if s[0] == '-' then IsCanonicalDigits(s[1..]) && s[1..] != "0" else IsCanonicalDigits(s))
    && MinInt64 <= SignedValue(s) <= MaxInt64
  }

  lemma {:induction false} DigitsValueOfDigits(n: nat)
    ensures DigitsValue(Digits(n)) == n
  {
    if n >= 10 {
      var s := Digits(n);
      assert s[..|s| - 1] == Digits(n / 10);
      DigitsValueOfDigits(n / 10);
    }
  }

  lemma {:induction false} DigitsValuePositive(s: string)
    requires IsCanonicalDigits(s) && s[0] != '0'
    ensures DigitsValue(s) >= 1
  {
    if |s| > 1 {
      assert s[..|s| - 1][0] == s[0];
      DigitsValuePositive(s[..|s| - 1]);
    }
  }

  lemma {:induction false} DigitsOfDigitsValue(s: string)
    requires IsCanonicalDigits(s)
    ensures Digits(DigitsValue(s)) == s
  {
    var n := DigitsValue(s);
    if |s| == 1 {
      assert s[..0] == [];
    } else {
      var p := s[..|s| - 1];
      assert p[0] == s[0];
      DigitsValuePositive(p);
      DigitsOfDigitsValue(p);
      var d := s[|s| - 1] as int - '0' as int;
      assert n == DigitsValue(p) * 10 + d;
      assert n / 10 == DigitsValue(p) && n % 10 == d;
      assert s == p + [s[|s| - 1]];
    }
  }

  /** The decimal rendering of a 64-bit integer is an integer key spelling that integer. */
  lemma {:induction false} DecimalStringIsKey(n: Int64)
    ensures IsIntegerKey(DecimalString(n))
    ensures SignedValue(DecimalString(n)) == n
  {
    var s := DecimalString(n);
    if n < 0 {
      DigitsValueOfDigits(-(n as int));
      assert s[1..] == Digits(-(n as int));
    } else {
      DigitsValueOfDigits(n);
    }
  }

  /** An integer key string is the decimal rendering of the integer it spells. */
  lemma {:induction false} IntegerKeyIsDecimalString(s: string)
    requires IsIntegerKey(s)
    ensures DecimalString(SignedValue(s)) == s
  {
    if s[0] == '-' {
      DigitsOfDigitsValue(s[1..]);
      var v := DigitsValue(s[1..]);
      assert v != 0;
      assert s == "-" + s[1..];
    } else {
      DigitsOfDigitsValue(s);
    }
  }
}
