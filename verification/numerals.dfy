/** What the number readers make of a numeral, and what the printers make of a number. */
module Numerals {
  import opened Bits
  import opened Text

  /** Every character is a digit, in lower or upper case. */
  predicate AllDigits(s: string, base: nat) { forall k | 0 <= k < |s| :: IsDigitOf(s[k], base) }

  predicate IsNumeral(s: string, base: nat) { s != "" && AllDigits(s, base) }

  lemma InitDigits(s: string, base: nat)
    requires IsNumeral(s, base)
    ensures AllDigits(s[..|s| - 1], base) && IsXDigit(s[|s| - 1])
  {
    assert IsDigitOf(s[|s| - 1], base);
  }

  /** The number that a numeral denotes. */
  function Value(s: string, base: nat): nat
    requires AllDigits(s, base)
    decreases |s|
  {
    if s == "" then 0
    else
      InitDigits(s, base);
      Value(s[..|s| - 1], base) * base + DigitValue(s[|s| - 1])
  }

  const LOWER_DIGITS := "0123456789abcdef"
  const UPPER_DIGITS := "0123456789ABCDEF"

  /** The digits are those of C, in both cases. */
  lemma DigitsAre(d: nat)
    requires d < 16
    ensures IsXDigit(LOWER_DIGITS[d]) && DigitValue(LOWER_DIGITS[d]) == d && DigitChar(d) == LOWER_DIGITS[d]
    ensures IsXDigit(UPPER_DIGITS[d]) && DigitValue(UPPER_DIGITS[d]) == d
  {
  }

  lemma AccumulateWraps(x: nat, base: nat, value: nat)
    ensures Accumulate(Wrap(x), base, value) == Wrap(x * base + value)
  {
    var q, r := x / WORD_LIMIT, Wrap(x);
    assert x == WORD_LIMIT * q + r;
    assert x * base + value == r * base + value + WORD_LIMIT * (q * base);
    WrapPlus(r * base + value, q * base);
  }

  /** The digits are read modulo 2^32. */
  lemma {:induction false} DigitsAreValue(s: string, base: nat)
    requires 2 <= base <= 16 && AllDigits(s, base)
    ensures Digits(s, base, 0) == Wrap(Value(s, base))
    decreases |s|
  {
    if s != "" {
      var t := s[..|s| - 1];
      InitDigits(s, base);
      DigitsAreValue(t, base);
      assert s == t + [s[|s| - 1]] && IsDigitOf(s[|s| - 1], base);
      DigitsSnoc(t, s[|s| - 1], base, 0);
      AccumulateWraps(Value(t, base), base, DigitValue(s[|s| - 1]));
    }
  }

  /** Whatever follows a numeral without being a digit is ignored. */
  lemma {:induction false} DigitsStop(s: string, tail: string, base: nat, acc: Word)
    requires 2 <= base <= 16
    requires forall k | 0 <= k < |s| :: IsDigitOf(s[k], base)
    requires tail != "" ==> !IsDigitOf(tail[0], base)
    ensures Digits(s + tail, base, acc) == Digits(s, base, acc)
    decreases |s|
  {
    if s == "" {
      assert s + tail == tail;
    } else {
      assert (s + tail)[1..] == s[1..] + tail;
      DigitsStop(s[1..], tail, base, Accumulate(acc, base, DigitValue(s[0])));
    }
  }

  lemma LeadingZero(s: string, base: nat)
    requires IsNumeral(s, base) && s[0] == '0' && 2 <= base <= 16
    ensures Digits(s[1..], base, 0) == Digits(s, base, 0)
  {
    assert Accumulate(0, base, 0) == 0;
  }

  /** What may stand behind a numeral: no digit, and no `x` that would make a zero a prefix. */
  predicate Stops(tail: string) { tail != "" ==> !IsXDigit(tail[0]) && tail[0] != 'x' && tail[0] != 'X' }

  lemma NotPrefixed(s: string, tail: string)
    requires IsNumeral(s, 16) && Stops(tail) && |s + tail| > 1
    ensures (s + tail)[1] != 'x' && (s + tail)[1] != 'X'
  {
  }

  /** simple_strtoul reads the value of the numeral in front, modulo 2^32. */
  lemma StrToUlIs(s: string, tail: string, base: nat)
    requires base == 10 || base == 16
    requires IsNumeral(s, base) && Stops(tail)
    ensures StrToUl(s + tail, base) == Wrap(Value(s, base))
  {
    DigitsAreValue(s, base);
    if s[0] == '0' {
      if |s + tail| > 1 { NotPrefixed(s, tail); }
      LeadingZero(s, base);
      assert (s + tail)[1..] == s[1..] + tail;
      DigitsStop(s[1..], tail, base, 0);
    } else {
      DigitsStop(s, tail, base, 0);
    }
  }

  /** A number as a user may write it. */
  datatype Written = Written(negative: bool, hex: bool, prefix: string, digits: string)

  predicate WrittenOk(n: Written) {
    if n.hex then (n.prefix == "0x" || n.prefix == "0X") && IsNumeral(n.digits, 16)
    else n.prefix == "" && IsNumeral(n.digits, 10)
  }

  function Spelling(n: Written): string { (if n.negative then "-" else "") + (n.prefix + n.digits) }

  function Meaning(n: Written): int
    requires WrittenOk(n)
  {
    var value: int := Value(n.digits, if n.hex then 16 else 10);
    if n.negative then -value else value
  }

  lemma MagnitudeIs(n: Written, tail: string)
    requires WrittenOk(n) && Stops(tail)
    ensures Magnitude(n.prefix + n.digits + tail) == Wrap(Value(n.digits, if n.hex then 16 else 10))
    ensures n.prefix + n.digits + tail != "" && (n.prefix + n.digits + tail)[0] != '-'
  {
    var s := n.prefix + n.digits + tail;
    if n.hex {
      assert s[0] == '0' && s[1] == n.prefix[1] && s[2..] == n.digits + tail;
      StrToUlIs(n.digits, tail, 16);
    } else {
      assert s == n.digits + tail;
      if |s| > 1 { NotPrefixed(n.digits, tail); }
      StrToUlIs(n.digits, tail, 10);
    }
  }

  lemma WrapNegated(x: int)
    ensures Wrap(WORD_LIMIT - Wrap(x)) == Wrap(-x)
  {
    var q := x / WORD_LIMIT;
    assert x == WORD_LIMIT * q + Wrap(x);
    assert WORD_LIMIT - Wrap(x) == -x + WORD_LIMIT * (q + 1);
    WrapPlus(-x, q + 1);
  }

  /** read_number: the signed number that the text starts with, in decimal or behind `0x` in
      hexadecimal, in lower or upper case, modulo 2^32. */
  lemma ReadNumberIs(n: Written, tail: string)
    requires WrittenOk(n) && Stops(tail)
    ensures ReadNumber(Spelling(n) + tail) == Wrap(Meaning(n))
  {
    var s := n.prefix + n.digits + tail;
    MagnitudeIs(n, tail);
    if n.negative {
      assert Spelling(n) + tail == "-" + s;
      assert ("-" + s)[1..] == s;
      WrapNegated(Value(n.digits, if n.hex then 16 else 10));
    } else {
      assert Spelling(n) + tail == s;
    }
  }

  /** Behind `0x` the digits are hexadecimal whatever the base. */
  lemma PrefixOverrides(s: string, tail: string, base: nat)
    requires 2 <= base <= 16 && IsNumeral(s, 16) && Stops(tail)
    ensures StrToUl("0x" + s + tail, base) == Wrap(Value(s, 16))
  {
    var text := "0x" + s + tail;
    assert text[..2] == "0x" && text[2..] == s + tail;
    DigitsAreValue(s, 16);
    DigitsStop(s, tail, 16, 0);
  }

  /** A text that starts with no digit and no minus sign is read as zero. */
  lemma NoNumber(s: string)
    requires s != "" ==> !IsDigit(s[0]) && s[0] != '-'
    ensures ReadNumber(s) == 0
  {
  }

  // ----- printed numbers -----

  lemma {:induction false} ValueOfFormat(n: nat, base: nat)
    requires 2 <= base <= 16
    ensures IsNumeral(Format(n, base), base) && Value(Format(n, base), base) == n
    decreases n
  {
    var s := Format(n, base);
    assert forall k | 0 <= k < |s| :: s[k] in s;
    InitDigits(s, base);
    if n >= base {
      QuotientFalls(n, base);
      ValueOfFormat(n / base, base);
      assert s[..|s| - 1] == Format(n / base, base);
      DivMod(n, base);
    } else {
      assert s[..|s| - 1] == "";
    }
  }

  /** A number in decimal, with its sign. */
  function SignedDecimal(n: int): string { if n < 0 then "-" + Format(-n, 10) else Format(n, 10) }

  function SignedHex(n: int): string { if n < 0 then "-" + ("0x" + Format(-n, 16)) else "0x" + Format(n, 16) }

  lemma ReadWritten(n: Written, size: nat, base: nat)
    requires base == (if n.hex then 16 else 10) && n.digits == Format(size, base)
    requires n.prefix == if n.hex then "0x" else ""
    ensures ReadNumber(Spelling(n)) == Wrap(if n.negative then -(size as int) else size)
  {
    ValueOfFormat(size, base);
    ReadNumberIs(n, "");
    assert Spelling(n) + "" == Spelling(n);
  }

  /** Signed numbers are read back modulo 2^32. */
  lemma ReadSignedDecimal(n: int)
    ensures ReadNumber(SignedDecimal(n)) == Wrap(n)
  {
    var size := if n < 0 then -n else n;
    ReadWritten(Written(n < 0, false, "", Format(size, 10)), size, 10);
    assert "" + Format(size, 10) == Format(size, 10) && "" + ("" + Format(size, 10)) == Format(size, 10);
  }

  lemma ReadSignedHex(n: int)
    ensures ReadNumber(SignedHex(n)) == Wrap(n)
  {
    var size := if n < 0 then -n else n;
    ReadWritten(Written(n < 0, true, "0x", Format(size, 16)), size, 16);
    assert "" + ("0x" + Format(size, 16)) == "0x" + Format(size, 16);
  }
}
