/** Decimal text for integers: QString::number for unsigned values and the
    checked conversions QString::toInt / QString::toUInt (leading and trailing
    white space allowed, an optional sign, 32-bit range, failure reported). */
module Decimal {
  import opened Wrappers
  import opened ByteText

  const INT32_MIN: int := -0x8000_0000
  const INT32_MAX: int := 0x7FFF_FFFF
  const UINT32_LIMIT: int := 0x1_0000_0000
  const UINT64_LIMIT: int := 0x1_0000_0000_0000_0000

  predicate IsDigit(c: char) {
    '0' <= c <= '9'
  }

  predicate AllDigits(s: string) {
    forall i :: 0 <= i < |s| ==> IsDigit(s[i])
  }

  function DigitValue(c: char): nat
    requires IsDigit(c)
  {
    (c as int) - ('0' as int)
  }

  function DigitChar(d: nat): (c: char)
    requires d < 10
    ensures IsDigit(c) && DigitValue(c) == d
  {
    (d + '0' as int) as char
  }

  /** The value of a string of digits, most significant digit first. */
  function DigitsValue(s: string): nat
    requires AllDigits(s)
  {
    if |s| == 0 then 0 else DigitsValue(s[..|s| - 1]) * 10 + DigitValue(s[|s| - 1])
  }

  /** QString::number(uint): the shortest decimal writing of `n`. */
  function NatToString(n: nat): (s: string)
    ensures |s| >= 1 && AllDigits(s)
    ensures DigitsValue(s) == n
    ensures |s| > 1 ==> s[0] != '0'
  {
    if n < 10 then [DigitChar(n)]
    else
      var prefix := NatToString(n / 10);
      assert (prefix + [DigitChar(n % 10)])[..|prefix|] == prefix;
      prefix + [DigitChar(n % 10)]
  }

  /** QString::toInt with an `ok` flag: None when the text is not a decimal
      number in the signed 32-bit range. */
  function ToInt(s: string): (r: Option<int>)
    ensures r.Some? ==> INT32_MIN <= r.value <= INT32_MAX
  {
    var t := Trimmed(s);
    if |t| == 0 then None
    else
      var digits := if t[0] == '-' || t[0] == '+' then t[1..] else t;
      if |digits| == 0 || !AllDigits(digits) then None
      else
        var v: int := if t[0] == '-' then 0 - (DigitsValue(digits) as int) else DigitsValue(digits) as int;
        if INT32_MIN <= v <= INT32_MAX then Some(v) else None
  }

  /** The unsigned decimal number a text spells, white space around it and a
      leading '+' allowed; None when it spells none.  No range is applied. */
  function UnsignedValue(s: string): Option<nat> {
    var t := Trimmed(s);
    var digits := if |t| > 0 && t[0] == '+' then t[1..] else t;
    if |digits| == 0 || !AllDigits(digits) then None
    else Some(DigitsValue(digits))
  }

  /** QString::toUInt with an `ok` flag: None when the text is not a decimal
      number in the unsigned 32-bit range. */
  function ToUInt(s: string): (r: Option<nat>)
    ensures r.Some? ==> r.value < UINT32_LIMIT
    ensures r.Some? <==> UnsignedValue(s).Some? && UnsignedValue(s).value < UINT32_LIMIT
    ensures r.Some? ==> r == UnsignedValue(s)
  {
    var v := UnsignedValue(s);
    if v.Some? && v.value < UINT32_LIMIT then v else None
  }

  /** QString::toULongLong with an `ok` flag: None when the text is not a
      decimal number in the unsigned 64-bit range. */
  function ToULongLong(s: string): (r: Option<nat>)
    ensures r.Some? ==> r.value < UINT64_LIMIT
    ensures r.Some? <==> UnsignedValue(s).Some? && UnsignedValue(s).value < UINT64_LIMIT
    ensures r.Some? ==> r == UnsignedValue(s)
  {
    var v := UnsignedValue(s);
    if v.Some? && v.value < UINT64_LIMIT then v else None
  }

  /** Digits hold no white space, so trimming leaves them alone. */
  lemma DigitsTrimmed(s: string)
    requires AllDigits(s)
    ensures Trimmed(s) == s
  {
    assert forall i :: 0 <= i < |s| ==> !IsSpace(s[i]);
  }

  /** Writing a number and reading it back gives the number. */
  lemma ToIntOfNatToString(n: nat)
    requires n <= INT32_MAX
    ensures ToInt(NatToString(n)) == Some(n)
  {
    var s := NatToString(n);
    DigitsTrimmed(s);
    assert IsDigit(s[0]);
  }

  lemma ToUIntOfNatToString(n: nat)
    requires n < UINT32_LIMIT
    ensures ToUInt(NatToString(n)) == Some(n)
  {
    var s := NatToString(n);
    DigitsTrimmed(s);
    assert IsDigit(s[0]);
  }
  /** A value below 2^32 is its own remainder. */
  lemma SmallModulo(v: nat)
    requires v < UINT32_LIMIT
    ensures v % UINT32_LIMIT == v
  {
  }

  lemma ToULongLongOfNatToString(n: nat)
    requires n < UINT64_LIMIT
    ensures ToULongLong(NatToString(n)) == Some(n)
  {
    var s := NatToString(n);
    DigitsTrimmed(s);
    assert IsDigit(s[0]);
  }

  /** Values beyond the signed maximum do not read back through toInt. */
  lemma ToIntOfLargeNatToString(n: nat)
    requires n > INT32_MAX
    ensures ToInt(NatToString(n)) == None
  {
    var s := NatToString(n);
    DigitsTrimmed(s);
    assert IsDigit(s[0]);
  }

  /** toInt reads a minus sign before digits as the negative number, and
      toUInt refuses it. */
  lemma NegativeText(n: nat)
    requires n <= -INT32_MIN
    ensures ToInt(['-'] + NatToString(n)) == Some(-(n as int))
    ensures ToUInt(['-'] + NatToString(n)) == None
  {
    var digits := NatToString(n);
    var s := ['-'] + digits;
    SignedTrimmed(digits);
    assert s[1..] == digits;
    assert !IsDigit(s[0]);
  }

  /** A sign before digits leaves nothing to trim. */
  lemma SignedTrimmed(digits: string)
    requires |digits| > 0 && AllDigits(digits)
    ensures Trimmed(['-'] + digits) == ['-'] + digits
  {
    var s := ['-'] + digits;
    assert forall i :: 0 <= i < |s| ==> !IsSpace(s[i]) by {
      forall i | 0 <= i < |s|
        ensures !IsSpace(s[i])
      {
        if i > 0 {
          assert s[i] == digits[i - 1];
        }
      }
    }
  }

  /** toInt reads "-1" as -1, and toUInt refuses it. */
  lemma MinusOne()
    ensures ToInt("-1") == Some(-1)
    ensures ToUInt("-1") == None
  {
    NegativeText(1);
    assert ['-'] + NatToString(1) == "-1";
  }
}
