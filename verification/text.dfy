/** Characters, numerals and words: the C library pieces that the assembler reads with and the
    disassembler prints with. A C string is the sequence of its characters before the NUL. */
module Text {
  import opened Bits

  // ----- character classes (lib/ctype.c; isblank is isspace here) -----

  predicate IsSpace(c: char) { 9 <= c as int <= 13 || c as int == 32 || c as int == 160 }

  predicate IsDigit(c: char) { '0' <= c <= '9' }

  predicate IsXDigit(c: char) { IsDigit(c) || 'a' <= c <= 'f' || 'A' <= c <= 'F' }

  predicate IsUpper(c: char) {
    'A' <= c <= 'Z' || (192 <= c as int <= 222 && c as int != 215)
  }

  function ToLower(c: char): char {
    if IsUpper(c) then (c as int + 32) as char else c
  }

  function Lower(s: string): (r: string)
    ensures |r| == |s| && forall i | 0 <= i < |s| :: r[i] == ToLower(s[i])
  {
    if s == "" then "" else [ToLower(s[0])] + Lower(s[1..])
  }

  /** The characters before the first NUL. */
  function CStr(s: seq<char>): (r: string)
    ensures r <= s && '\0' !in r
    ensures |r| < |s| ==> s[|r|] == '\0'
  {
    if s == [] || s[0] == '\0' then "" else [s[0]] + CStr(s[1..])
  }

  /** The string that starts at `p`. */
  function StringAt(buf: seq<char>, p: nat): string
    decreases |buf| - p
  {
    if p >= |buf| || buf[p] == '\0' then "" else [buf[p]] + StringAt(buf, p + 1)
  }

  /** It depends on the characters up to its NUL only. */
  lemma {:induction false} StringAtIs(buf: seq<char>, p: nat, text: string)
    requires p + |text| < |buf| && buf[p + |text|] == '\0' && '\0' !in text
    requires forall k | 0 <= k < |text| :: buf[p + k] == text[k]
    ensures StringAt(buf, p) == text
    decreases |text|
  {
    if text != "" {
      assert buf[p + 0] == text[0] && text[0] in text;
      forall k | 0 <= k < |text| - 1 ensures buf[p + 1 + k] == text[1..][k] {
        assert buf[p + (k + 1)] == text[k + 1];
      }
      StringAtIs(buf, p + 1, text[1..]);
    }
  }

  lemma {:induction false} StringAtHas(buf: seq<char>, p: nat)
    requires p <= |buf|
    ensures '\0' !in StringAt(buf, p) && p + |StringAt(buf, p)| <= |buf|
    ensures p + |StringAt(buf, p)| < |buf| ==> buf[p + |StringAt(buf, p)|] == '\0'
    ensures forall k | 0 <= k < |StringAt(buf, p)| :: buf[p + k] == StringAt(buf, p)[k]
    decreases |buf| - p
  {
    if p < |buf| && buf[p] != '\0' {
      var rest := StringAt(buf, p + 1);
      StringAtHas(buf, p + 1);
      forall k | 0 <= k < |rest| + 1 ensures buf[p + k] == StringAt(buf, p)[k] {
        if k > 0 { assert buf[p + 1 + (k - 1)] == rest[k - 1]; }
      }
    }
  }

  /** downstring: lower the letters of a C string in place. */
  method DownString(s: array<char>)
    requires '\0' in s[..]
    modifies s
    ensures s[..] == Lower(CStr(old(s[..]))) + old(s[..])[|CStr(old(s[..]))|..]
  {
    ghost var was := s[..];
    ghost var n := |CStr(was)|;
    assert forall k | 0 <= k < n :: was[k] != '\0' by {
      assert forall k | 0 <= k < n :: CStr(was)[k] in CStr(was);
    }
    var i := 0;
    while s[i] != '\0'
      invariant 0 <= i <= n < s.Length
      invariant forall k | 0 <= k < i :: s[k] == ToLower(was[k])
      invariant forall k | i <= k < s.Length :: s[k] == was[k]
      decreases n - i
    {
      if IsUpper(s[i]) {
        s[i] := ToLower(s[i]);
      }
      i := i + 1;
    }
  }

  // ----- reading numbers -----

  function DigitValue(c: char): nat
    requires IsXDigit(c)
  {
    if IsDigit(c) then c as nat - '0' as nat
    else if 'a' <= c then c as nat - 'a' as nat + 10
    else c as nat - 'A' as nat + 10
  }

  predicate IsDigitOf(c: char, base: nat) { IsXDigit(c) && DigitValue(c) < base }

  /** Reduction of a result to 32 bits. */
  function Wrap(x: int): Word { x % WORD_LIMIT }

  /** One step of the numeral: `result = result * base + value`. */
  function Accumulate(acc: Word, base: nat, value: nat): Word { Wrap(acc * base + value) }

  lemma AccumulateExact(acc: Word, base: nat, value: nat, n: Word)
    requires acc * base + value == n
    ensures Accumulate(acc, base, value) == n
  {
  }

  /** The digits at the head of `s`, accumulated after `acc` in 32-bit arithmetic. */
  function Digits(s: string, base: nat, acc: Word): Word
    requires 2 <= base <= 16
  {
    if s != "" && IsDigitOf(s[0], base)
    then Digits(s[1..], base, Accumulate(acc, base, DigitValue(s[0])))
    else acc
  }

  /** simple_strtoul with a nonzero base. A zero is skipped, and `0x` before a hexadecimal digit
      overrides the base. */
  function StrToUl(s: string, base: nat): Word
    requires 2 <= base <= 16
  {
    if s != "" && s[0] == '0' then
      if |s| > 2 && s[1] == 'x' && IsXDigit(s[2]) then Digits(s[2..], 16, 0)
      else Digits(s[1..], base, 0)
    else Digits(s, base, 0)
  }

  lemma WrapPlus(x: int, q: int)
    ensures Wrap(x + WORD_LIMIT * q) == Wrap(x)
  {
  }

  /** Reducing an intermediate result first makes no difference. */
  lemma WrapInner(x: int, v: int)
    ensures Wrap(Wrap(x) + v) == Wrap(x + v)
    ensures Wrap(Wrap(x) * 4) == Wrap(x * 4)
  {
    var q := x / WORD_LIMIT;
    assert x == WORD_LIMIT * q + Wrap(x);
    WrapPlus(Wrap(x) + v, q);
    WrapPlus(Wrap(x) * 4, 4 * q);
  }

  /** A word read as a two's complement `long`. */
  function Signed(w: Word): int { if w < 0x8000_0000 then w else w - WORD_LIMIT }

  lemma WrapMove(a: int, base: Word, t: Word)
    ensures Wrap(a + base) == t <==> Wrap(a) == Wrap(t as int - base)
  {
    WrapShift(a + base, -(base as int));
    WrapShift(a, base);
    WrapShift(t as int - base, base);
  }

  lemma WrapShift(x: int, v: int)
    ensures Wrap(Wrap(x) + v) == Wrap(x + v)
  {
    WrapInner(x, v);
  }

  lemma SignedWrap(x: int)
    requires -0x8000_0000 <= x < 0x8000_0000
    ensures Signed(Wrap(x)) == x
  {
    if x < 0 { WrapPlus(x, 1); }
  }

  lemma WrapSigned(w: Word)
    ensures Wrap(Signed(w)) == w
  {
    WrapPlus(Signed(w), 1);
  }

  /** The magnitude after the optional minus sign of read_number. */
  function Magnitude(s: string): Word {
    if |s| >= 2 && s[0] == '0' && (s[1] == 'x' || s[1] == 'X') then StrToUl(s[2..], 16)
    else StrToUl(s, 10)
  }

  /** read_number, as the 32 bits of the `long` it returns. */
  function ReadNumber(s: string): Word {
    if s == "" then 0
    else if s[0] == '-' then Wrap(WORD_LIMIT - Magnitude(s[1..]))
    else Magnitude(s)
  }

  method SimpleStrToUl(cp: string, base: nat) returns (result: Word)
    requires 2 <= base <= 16
    ensures result == StrToUl(cp, base)
  {
    var i, b := 0, base;
    if cp != "" && cp[0] == '0' {
      i := 1;
      if |cp| > 2 && cp[1] == 'x' && IsXDigit(cp[2]) {
        b := 16;
        i := 2;
      }
    }
    result := 0;
    while i < |cp| && IsDigitOf(cp[i], b)
      invariant 0 <= i <= |cp|
      invariant Digits(cp[i..], b, result) == StrToUl(cp, base)
    {
      assert cp[i..][1..] == cp[i + 1..];
      result := Accumulate(result, b, DigitValue(cp[i]));
      i := i + 1;
    }
  }

  // ----- printing numbers -----

  function DigitChar(d: nat): (c: char)
    requires d < 16
    ensures IsXDigit(c) && DigitValue(c) == d && (c == '0' <==> d == 0)
  {
    "0123456789abcdef"[d]
  }

  lemma QuotientFalls(n: nat, d: nat)
    requires 2 <= d <= n
    ensures 0 < n / d < n
  {
  }

  /** The shortest numeral of `n`, as %o, %u and %x print it. */
  function Format(n: nat, base: nat): (s: string)
    requires 2 <= base <= 16
    ensures |s| > 0 && forall c | c in s :: IsDigitOf(c, base)
    ensures n > 0 ==> s[0] != '0'
    ensures n == 0 ==> s == "0"
  {
    if n < base then [DigitChar(n)]
    else
      QuotientFalls(n, base);
      Format(n / base, base) + [DigitChar(n % base)]
  }

  /** Appending one digit to a numeral. */
  lemma {:induction false} DigitsSnoc(s: string, c: char, base: nat, acc: Word)
    requires 2 <= base <= 16
    requires forall k | 0 <= k < |s| :: IsDigitOf(s[k], base)
    requires IsDigitOf(c, base)
    ensures Digits(s + [c], base, acc) == Accumulate(Digits(s, base, acc), base, DigitValue(c))
    decreases |s|
  {
    if s == "" {
      assert ([c])[1..] == "";
      assert s + [c] == [c];
    } else {
      assert (s + [c])[1..] == s[1..] + [c];
      DigitsSnoc(s[1..], c, base, Accumulate(acc, base, DigitValue(s[0])));
    }
  }

  lemma DivMod(n: nat, d: nat)
    requires d > 0
    ensures n / d * d + n % d == n
  {
  }

  lemma ValueOfSnoc(s: string, c: char, base: nat, n: Word)
    requires 2 <= base <= 16
    requires forall k | 0 <= k < |s| :: IsDigitOf(s[k], base)
    requires IsDigitOf(c, base) && Digits(s, base, 0) * base + DigitValue(c) == n
    ensures Digits(s + [c], base, 0) == n
  {
    DigitsSnoc(s, c, base, 0);
    AccumulateExact(Digits(s, base, 0), base, DigitValue(c), n);
  }

  lemma {:induction false} DigitsOfFormat(n: Word, base: nat)
    requires base == 10 || base == 16
    ensures Digits(Format(n, base), base, 0) == n
    decreases n
  {
    if n < base {
      assert ([DigitChar(n)])[1..] == "";
    } else {
      DigitsOfFormat(n / base, base);
      DivMod(n, base);
      ValueOfSnoc(Format(n / base, base), DigitChar(n % base), base, n);
    }
  }

  /** Reading back a printed numeral. */
  lemma StrToUlOfFormat(n: Word, base: nat)
    requires base == 10 || base == 16
    ensures StrToUl(Format(n, base), base) == n
  {
    DigitsOfFormat(n, base);
    if n == 0 {
      assert "0"[1..] == "";
    }
  }

  /** Decimal numerals and `0x` numerals are read back exactly. */
  lemma ReadNumberDecimal(n: Word)
    ensures ReadNumber(Format(n, 10)) == n
  {
    var s := Format(n, 10);
    assert s[0] in s;
    if |s| >= 2 { assert s[1] in s; }
    StrToUlOfFormat(n, 10);
  }

  lemma ReadNumberHex(n: Word)
    ensures ReadNumber("0x" + Format(n, 16)) == n
  {
    var s := "0x" + Format(n, 16);
    assert s[2..] == Format(n, 16);
    StrToUlOfFormat(n, 16);
  }

  /** An octal numeral, printed after a letter O, is read as zero. */
  lemma ReadNumberOctal(n: nat)
    ensures ReadNumber("O" + Format(n, 8)) == 0
  {
  }

  // ----- reading words -----

  predicate EndsWord(c: char) { IsSpace(c) || c == ',' }

  function SkipBlanks(s: string): (r: string)
    ensures |r| <= |s|
  {
    if s != "" && IsSpace(s[0]) then SkipBlanks(s[1..]) else s
  }

  /** The characters up to the next blank or comma. */
  function Run(s: string): (r: string)
    ensures |r| <= |s|
  {
    if s != "" && !EndsWord(s[0]) then [s[0]] + Run(s[1..]) else ""
  }

  /** The word that get_word copies; it is empty at the end of the text. */
  function FirstWord(s: string): string { Run(SkipBlanks(s)) }

  function DropComma(s: string): string { if s != "" && s[0] == ',' then s[1..] else s }

  /** The text that get_word leaves: one comma after the word is dropped too. */
  function AfterWord(s: string): (r: string)
    ensures |r| <= |s| && (FirstWord(s) != "" ==> |r| < |s|)
  {
    DropComma(SkipBlanks(s)[|FirstWord(s)|..])
  }

  lemma SkipStep(s: string, i: nat)
    requires i < |s| && IsSpace(s[i])
    ensures SkipBlanks(s[i..]) == SkipBlanks(s[i + 1..])
  {
    assert s[i..][1..] == s[i + 1..];
  }

  lemma RunStep(s: string, first: nat, i: nat)
    requires first <= i < |s| && !EndsWord(s[i])
    ensures s[first..i] + Run(s[i..]) == s[first..i + 1] + Run(s[i + 1..])
  {
    assert s[i..] == [s[i]] + s[i + 1..];
    assert s[first..i + 1] == s[first..i] + [s[i]];
  }

  /** Where get_word stops, given where the word starts and ends. */
  lemma WordEnds(s: string, start: nat, first: nat, ptr: nat)
    requires start <= first <= ptr <= |s| && SkipBlanks(s[start..]) == s[first..]
    requires Run(s[first..]) == s[first..ptr]
    ensures FirstWord(s[start..]) == s[first..ptr]
    ensures AfterWord(s[start..]) == DropComma(s[ptr..])
  {
    DropDrop(s, first, ptr);
  }

  lemma DropDrop(s: string, i: nat, j: nat)
    requires i <= j <= |s|
    ensures s[i..][j - i..] == s[j..]
  {
  }

  /** The first loop of get_word. */
  method EatBlanks(src: string, start: nat) returns (ptr: nat)
    requires start <= |src|
    ensures start <= ptr <= |src| && src[ptr..] == SkipBlanks(src[start..])
  {
    ptr := start;
    while ptr < |src| && IsSpace(src[ptr])
      invariant start <= ptr <= |src|
      invariant SkipBlanks(src[ptr..]) == SkipBlanks(src[start..])
    {
      SkipStep(src, ptr);
      ptr := ptr + 1;
    }
  }

  /** The second loop of get_word. */
  method CopyWord(src: string, start: nat, dest: array<char>) returns (ptr: nat)
    requires start <= |src| && |Run(src[start..])| < dest.Length
    modifies dest
    ensures start <= ptr <= |src| && src[start..ptr] == Run(src[start..])
    ensures forall k | 0 <= k < ptr - start :: dest[k] == src[start + k]
  {
    ptr := start;
    while ptr < |src| && !EndsWord(src[ptr])
      invariant start <= ptr <= |src|
      invariant Run(src[start..]) == src[start..ptr] + Run(src[ptr..])
      invariant forall k | 0 <= k < ptr - start :: dest[k] == src[start + k]
    {
      RunStep(src, start, ptr);
      dest[ptr - start] := src[ptr];
      ptr := ptr + 1;
    }
  }

  /** get_word: copies a word into `dest` and returns where the reading stopped. */
  method GetWord(src: string, start: nat, dest: array<char>) returns (next: nat, nchars: nat)
    requires start <= |src| && '\0' !in src
    requires |FirstWord(src[start..])| < dest.Length
    modifies dest
    ensures start <= next <= |src| && src[next..] == AfterWord(src[start..])
    ensures nchars == |FirstWord(src[start..])|
    ensures nchars > 0 ==> CStr(dest[..]) == FirstWord(src[start..]) && '\0' in dest[..]
  {
    var first := EatBlanks(src, start);
    if first == |src| {
      WordEnds(src, start, first, first);
      return first, 0;
    }
    var ptr := CopyWord(src, first, dest);
    WordEnds(src, start, first, ptr);
    nchars := ptr - first;
    dest[nchars] := '\0';
    CStrIs(dest[..], src[first..ptr]);
    next := if src[ptr..] != "" && src[ptr] == ',' then ptr + 1 else ptr;
  }

  lemma {:induction false} CStrIs(s: seq<char>, word: string)
    requires |word| < |s| && s[..|word|] == word && s[|word|] == '\0' && '\0' !in word
    ensures CStr(s) == word
  {
    if word != "" {
      assert word[0] in word;
      CStrIs(s[1..], word[1..]);
    }
  }

  // ----- how printed text splits into words -----

  predicate WordChar(c: char) { !EndsWord(c) && c != '\0' }

  predicate IsWord(w: string) { w != "" && forall c | c in w :: WordChar(c) }

  lemma {:induction false} RunPrefix(w: string, tail: string)
    requires forall c | c in w :: !EndsWord(c)
    ensures Run(w + tail) == w + Run(tail)
  {
    if w == "" {
      assert w + tail == tail;
    } else {
      assert w[0] in w && (w + tail)[1..] == w[1..] + tail;
      RunPrefix(w[1..], tail);
    }
  }

  lemma RunOfWord(w: string, tail: string)
    requires forall c | c in w :: !EndsWord(c)
    requires tail != "" ==> EndsWord(tail[0])
    ensures Run(w + tail) == w
  {
    RunPrefix(w, tail);
  }

  lemma WordThenComma(w: string, tail: string)
    requires IsWord(w)
    ensures FirstWord(w + "," + tail) == w && AfterWord(w + "," + tail) == tail
  {
    var s := w + "," + tail;
    assert s == w + ("," + tail) && s[0] in w;
    RunOfWord(w, "," + tail);
  }

  lemma WordAtEnd(w: string)
    requires IsWord(w)
    ensures FirstWord(w) == w && AfterWord(w) == ""
  {
    assert w + "" == w && w[0] in w;
    RunOfWord(w, "");
  }

  lemma WordThenBlank(w: string, tail: string)
    requires IsWord(w) && tail != "" && IsSpace(tail[0])
    ensures FirstWord(w + tail) == w && AfterWord(w + tail) == tail
  {
    assert (w + tail)[0] in w;
    RunOfWord(w, tail);
  }

  /** Leading blanks make no difference. */
  lemma {:induction false} BlanksFirst(blanks: string, tail: string)
    requires forall c | c in blanks :: IsSpace(c)
    ensures SkipBlanks(blanks + tail) == SkipBlanks(tail)
    ensures FirstWord(blanks + tail) == FirstWord(tail) && AfterWord(blanks + tail) == AfterWord(tail)
  {
    if blanks == "" {
      assert blanks + tail == tail;
    } else {
      assert blanks[0] in blanks && (blanks + tail)[1..] == blanks[1..] + tail;
      BlanksFirst(blanks[1..], tail);
    }
  }

  lemma NoWordLeft()
    ensures FirstWord("") == "" && AfterWord("") == ""
  {
  }
}
