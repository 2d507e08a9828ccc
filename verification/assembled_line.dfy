/** What a line assembles to, or why it does not, and how operands may be written. */
module AssembledLine {
  import opened Wrappers
  import opened Bits
  import opened Ppc
  import opened Text
  import opened Sprs
  import opened Assembler
  import opened RoundTrip
  import opened Decoding
  import opened Numerals
  import Reassembly

  // ----- the outcome of a line -----

  /** The operand that is read from this word is missing or wrong. */
  predicate Fails(m: seq<SprInfo>, memaddr: Word, e: Opcode, f: Operand, word: string)
    requires OperandOk(f)
  {
    !IsSilent(f) && (word == "" || OperandData(m, memaddr, e, f, word).Err?)
  }

  function FailureOf(m: seq<SprInfo>, memaddr: Word, e: Opcode, f: Operand, word: string): AsmError
    requires OperandOk(f) && Fails(m, memaddr, e, f, word)
  {
    if word == "" then NumOperands
    else match OperandData(m, memaddr, e, f, word)
      case Err(error) => error
  }

  /** One word for every operand. */
  predicate FailsAt(m: seq<SprInfo>, memaddr: Word, e: Opcode, words: seq<string>, k: nat)
    requires OperandsOk(e) && k < |e.fields| == |words|
  {
    Fails(m, memaddr, e, e.fields[k], words[k])
  }

  /** Reading one operand. */
  lemma OneField(m: seq<SprInfo>, memaddr: Word, e: Opcode, k: nat, text: string, acc: nat) returns (acc': nat)
    requires OperandsOk(e) && k < |e.fields| && !IsSilent(e.fields[k])
    ensures
      var r := AsmFields(m, memaddr, e, k, text, acc);
      if Fails(m, memaddr, e, e.fields[k], FirstWord(text))
      then r == Err(FailureOf(m, memaddr, e, e.fields[k], FirstWord(text)))
      else r == AsmFields(m, memaddr, e, k + 1, AfterWord(text), acc')
  {
    acc' := acc;
    if !Fails(m, memaddr, e, e.fields[k], FirstWord(text)) {
      acc' := Or(acc, OperandBits(m, memaddr, e, e.fields[k], FirstWord(text)).value);
    }
  }

  /** The operands from `k` to `n` are printed ones that do not fail. */
  ghost predicate PassFrom(m: seq<SprInfo>, memaddr: Word, e: Opcode, words: seq<string>, k: nat, n: nat)
    requires OperandsOk(e)
  {
    && k <= n <= |e.fields| == |words|
    && forall j | k <= j < n :: !IsSilent(e.fields[j]) && !FailsAt(m, memaddr, e, words, j)
  }

  lemma PassStep(m: seq<SprInfo>, memaddr: Word, e: Opcode, words: seq<string>, k: nat, n: nat)
    requires OperandsOk(e) && PassFrom(m, memaddr, e, words, k, n) && k < n
    ensures PassFrom(m, memaddr, e, words, k + 1, n) && !IsSilent(e.fields[k]) && !FailsAt(m, memaddr, e, words, k)
  {
  }

  /** The first of them is read. */
  lemma OnePasses(m: seq<SprInfo>, memaddr: Word, e: Opcode, words: seq<string>, k: nat, n: nat, text: string, acc: nat, r: Result<nat>)
    returns (text': string, acc': nat)
    requires OperandsOk(e) && PassFrom(m, memaddr, e, words, k, n) && k < n && WordsFrom(words, k, text)
    requires r == AsmFields(m, memaddr, e, k, text, acc)
    ensures PassFrom(m, memaddr, e, words, k + 1, n) && WordsFrom(words, k + 1, text')
    ensures r == AsmFields(m, memaddr, e, k + 1, text', acc')
  {
    PassStep(m, memaddr, e, words, k, n);
    WordsStep(words, k, text);
    acc' := OneField(m, memaddr, e, k, text, acc);
    text' := AfterWord(text);
  }

  /** They are read one after the other. */
  lemma {:induction false} FieldsPass(m: seq<SprInfo>, memaddr: Word, e: Opcode, words: seq<string>, k: nat, n: nat, text: string, acc: nat, r: Result<nat>)
    returns (text': string, acc': nat)
    requires OperandsOk(e) && PassFrom(m, memaddr, e, words, k, n) && WordsFrom(words, k, text)
    requires r == AsmFields(m, memaddr, e, k, text, acc)
    ensures WordsFrom(words, n, text') && r == AsmFields(m, memaddr, e, n, text', acc')
    decreases n - k
  {
    text', acc' := text, acc;
    if k < n {
      text', acc' := OnePasses(m, memaddr, e, words, k, n, text, acc, r);
      text', acc' := FieldsPass(m, memaddr, e, words, k + 1, n, text', acc', r);
    }
  }

  lemma {:induction false} PrintedCount(e: Opcode, k: nat) returns (n: nat)
    requires k <= |e.fields|
    ensures k <= n <= |e.fields| && !Printed(e.fields, n) && forall j | k <= j < n :: !IsSilent(e.fields[j])
    decreases |e.fields| - k
  {
    n := k;
    if Printed(e.fields, k) {
      n := PrintedCount(e, k + 1);
    }
  }

  lemma FieldsSucceed(m: seq<SprInfo>, memaddr: Word, e: Opcode, words: seq<string>, text: string, acc: nat)
    requires OperandsOk(e) && |e.fields| == |words| && FieldsOk(e.fields, e.mask) && WordsFrom(words, 0, text)
    requires forall j | 0 <= j < |words| :: !FailsAt(m, memaddr, e, words, j)
    ensures AsmFields(m, memaddr, e, 0, text, acc).Ok?
  {
    var n := PrintedCount(e, 0);
    var text', acc' := FieldsPass(m, memaddr, e, words, 0, n, text, acc, AsmFields(m, memaddr, e, 0, text, acc));
    AsmSilent(m, memaddr, e, n, text', acc');
  }

  /** The first operand that fails decides. */
  lemma FieldsFail(m: seq<SprInfo>, memaddr: Word, e: Opcode, words: seq<string>, text: string, acc: nat, j: nat)
    requires OperandsOk(e) && PassFrom(m, memaddr, e, words, 0, j) && j < |e.fields| && WordsFrom(words, 0, text)
    requires FailsAt(m, memaddr, e, words, j)
    ensures AsmFields(m, memaddr, e, 0, text, acc) == Err(FailureOf(m, memaddr, e, e.fields[j], words[j]))
  {
    var text', acc' := FieldsPass(m, memaddr, e, words, 0, j, text, acc, AsmFields(m, memaddr, e, 0, text, acc));
    WordsStep(words, j, text');
    var acc'' := OneField(m, memaddr, e, j, text', acc');
  }

  /** The operands before `j` do not fail, and operand `j` does. */
  predicate FailsFirst(m: seq<SprInfo>, memaddr: Word, e: Opcode, words: seq<string>, j: nat)
    requires OperandsOk(e) && |e.fields| == |words|
  {
    j < |words| && FailsAt(m, memaddr, e, words, j) && forall i | 0 <= i < j :: !FailsAt(m, memaddr, e, words, i)
  }

  lemma {:induction false} SomeFailsFirst(m: seq<SprInfo>, memaddr: Word, e: Opcode, words: seq<string>, n: nat) returns (j: nat)
    requires OperandsOk(e) && n <= |e.fields| == |words| && exists i | 0 <= i < n :: FailsAt(m, memaddr, e, words, i)
    ensures FailsFirst(m, memaddr, e, words, j)
    decreases n
  {
    if i :| 0 <= i < n - 1 && FailsAt(m, memaddr, e, words, i) {
      j := SomeFailsFirst(m, memaddr, e, words, n - 1);
    } else {
      j := n - 1;
    }
  }

  /** What the operands of an entry come to. */
  ghost predicate Outcome(m: seq<SprInfo>, memaddr: Word, e: Opcode, words: seq<string>, r: Result<nat>) {
    && OperandsOk(e) && |words| == |e.fields|
    && (r.Ok? <==> forall j | 0 <= j < |words| :: !FailsAt(m, memaddr, e, words, j))
    && (forall j: nat | FailsFirst(m, memaddr, e, words, j) ::
          r == Err(FailureOf(m, memaddr, e, e.fields[j], words[j])))
  }

  lemma EntryOutcome(m: seq<SprInfo>, memaddr: Word, e: Opcode, words: seq<string>, rest: string)
    requires EntryOk(e) && OperandsOk(e) && |words| == |e.fields| && WordsFrom(words, 0, rest)
    ensures Outcome(m, memaddr, e, words, AsmFields(m, memaddr, e, 0, rest, e.opcode))
  {
    forall j: nat | FailsFirst(m, memaddr, e, words, j)
      ensures AsmFields(m, memaddr, e, 0, rest, e.opcode) == Err(FailureOf(m, memaddr, e, e.fields[j], words[j]))
    {
      forall i | 0 <= i < j ensures !IsSilent(e.fields[i]) { SilentLast(e.fields, e.mask, i, j); }
      FieldsFail(m, memaddr, e, words, rest, e.opcode, j);
    }
    if forall j | 0 <= j < |words| :: !FailsAt(m, memaddr, e, words, j) {
      FieldsSucceed(m, memaddr, e, words, rest, e.opcode);
    } else {
      var j := SomeFailsFirst(m, memaddr, e, words, |words|);
    }
  }

  /** The words behind the mnemonic, one for every operand. */
  function OperandWords(text: string, n: nat): (r: seq<string>)
    ensures |r| == n && forall k | 0 <= k < n :: r[k] == Nth(text, k + 1)
  {
    seq(n, k requires 0 <= k < n => Nth(text, k + 1))
  }

  /** The outcome of every line: no word, a mnemonic that the table does not have, the first operand
      that is missing or wrong, or a word (of which AssembleDecode says what it is). What stands
      behind the last operand is ignored. */
  lemma LineOutcome(t: seq<Opcode>, m: seq<SprInfo>, memaddr: Word, text: string)
    requires WellFormed(t)
    ensures Nth(text, 0) == "" ==> Asm(t, m, memaddr, text) == Err(EmptyLine)
    ensures Nth(text, 0) != "" && (forall e | e in t :: e.name != Lower(Nth(text, 0))) ==>
              Asm(t, m, memaddr, text) == Err(BadOpcode)
    ensures Nth(text, 0) != "" ==> forall e | e in t && e.name == Lower(Nth(text, 0)) ::
              Outcome(m, memaddr, e, OperandWords(text, |e.fields|), Asm(t, m, memaddr, text))
  {
    var name := Lower(FirstWord(text));
    ByNameFinds(t, name);
    if Nth(text, 0) != "" {
      forall e | e in t && e.name == name
        ensures Outcome(m, memaddr, e, OperandWords(text, |e.fields|), Asm(t, m, memaddr, text))
      {
        var n :| 0 <= n < |t| && t[n] == e;
        Reassembly.ByNameIs(t, n);
        EntryOutcome(m, memaddr, e, OperandWords(text, |e.fields|), AfterWord(text));
      }
    }
  }

  // ----- how lines may be written -----

  const BLANKS: string := [9 as char, 10 as char, 11 as char, 12 as char, 13 as char, ' ', 160 as char]

  lemma BlanksAre(c: char)
    ensures IsSpace(c) <==> c in BLANKS
  {
    assert BLANKS[0] == 9 as char && BLANKS[1] == 10 as char && BLANKS[2] == 11 as char && BLANKS[3] == 12 as char;
    assert BLANKS[4] == 13 as char && BLANKS[5] == ' ' && BLANKS[6] == 160 as char;
  }

  /** No blank, comma or NUL. */
  predicate Solid(s: string) { s != "" && forall c | c in s :: c !in BLANKS && c != ',' && c != '\0' }

  lemma SolidIsWord(s: string)
    requires Solid(s)
    ensures IsWord(s)
  {
    forall c | c in s ensures WordChar(c) { BlanksAre(c); }
  }

  lemma BlanksAreSpaces(s: string)
    requires forall c | c in s :: c in BLANKS
    ensures forall c | c in s :: IsSpace(c)
  {
    forall c | c in s ensures IsSpace(c) { BlanksAre(c); }
  }

  lemma BehindBlanks(a: string, blanks: string, b: string)
    requires IsWord(a) && IsWord(b) && blanks != "" && forall c | c in blanks :: IsSpace(c)
    ensures Nth(a + (blanks + b), 0) == a && Nth(a + (blanks + b), 1) == b
  {
    WordAtEnd(b);
    BlanksFirst(blanks, b);
    assert blanks[0] in blanks && (blanks + b)[0] == blanks[0];
    WordThenBlank(a, blanks + b);
  }

  lemma BehindComma(a: string, blanks: string, b: string)
    requires IsWord(a) && IsWord(b) && forall c | c in blanks :: IsSpace(c)
    ensures Nth(a + "," + (blanks + b), 0) == a && Nth(a + "," + (blanks + b), 1) == b
  {
    WordAtEnd(b);
    BlanksFirst(blanks, b);
    WordThenComma(a, blanks + b);
  }

  /** Words are separated by any blanks, or by a comma behind the first word and any blanks. */
  lemma WordsSeparated(a: string, blanks: string, b: string)
    requires Solid(a) && Solid(b) && forall c | c in blanks :: c in BLANKS
    ensures blanks != "" ==> Nth(a + (blanks + b), 0) == a && Nth(a + (blanks + b), 1) == b
    ensures Nth(a + "," + (blanks + b), 0) == a && Nth(a + "," + (blanks + b), 1) == b
  {
    SolidIsWord(a);
    SolidIsWord(b);
    BlanksAreSpaces(blanks);
    BehindComma(a, blanks, b);
    if blanks != "" { BehindBlanks(a, blanks, b); }
  }

  /** A text in capital letters. */
  function Capitals(s: string): (r: string)
    ensures |r| == |s|
    ensures forall i | 0 <= i < |s| :: r[i] == if 'a' <= s[i] <= 'z' then (s[i] as int - 32) as char else s[i]
  {
    seq(|s|, i requires 0 <= i < |s| => if 'a' <= s[i] <= 'z' then (s[i] as int - 32) as char else s[i])
  }

  lemma CapitalsAreWord(name: string)
    requires NameOk(name)
    ensures IsWord(Capitals(name)) && Lower(Capitals(name)) == name
  {
    var s := Capitals(name);
    forall c | c in s ensures WordChar(c) {
      var i :| 0 <= i < |s| && s[i] == c;
      assert 'a' <= name[i] <= 'z' || name[i] == '.';
    }
    forall i | 0 <= i < |name| ensures Lower(s)[i] == name[i] {
      assert 'a' <= name[i] <= 'z' || name[i] == '.';
    }
  }

  /** A mnemonic may be written in capitals. */
  lemma CapitalsAssemble(t: seq<Opcode>, m: seq<SprInfo>, memaddr: Word, name: string, rest: string)
    requires TableOk(t) && NameOk(name)
    ensures Asm(t, m, memaddr, Capitals(name) + (" " + rest)) == Asm(t, m, memaddr, name + (" " + rest))
  {
    CapitalsAreWord(name);
    Reassembly.NameIsWord(name);
    WordThenBlank(Capitals(name), " " + rest);
    WordThenBlank(name, " " + rest);
  }

  // ----- how operands may be written -----

  /** A register may be written with `r`, `R`, `%r` or `%R` in front, or without; numbers above 31 are
      refused. */
  lemma RegisterWritten(m: seq<SprInfo>, memaddr: Word, e: Opcode, f: Operand, prefix: string, n: nat)
    requires f.hint == Reg && n < 0x8000_0000
    requires prefix == "" || prefix == "r" || prefix == "R" || prefix == "%r" || prefix == "%R"
    ensures OperandData(m, memaddr, e, f, prefix + Format(n, 10)) == if n <= 31 then Ok(n) else Err(BadRegister)
  {
    ReadNumberDecimal(n);
    RegisterPrefix(prefix, Format(n, 10));
  }

  lemma RegisterPrefix(prefix: string, s: string)
    requires prefix == "" || prefix == "r" || prefix == "R" || prefix == "%r" || prefix == "%R"
    requires s != "" && forall c | c in s :: IsDigitOf(c, 10)
    ensures RegisterDigits(prefix + s) == s
  {
    assert s[0] in s;
    var text := prefix + s;
    assert text[|prefix|..] == s;
    if prefix == "" {
      assert text == s;
    } else if |prefix| == 1 {
      assert text[0] == prefix[0];
    } else {
      assert text[0] == prefix[0] && text[1] == prefix[1];
    }
  }

  /** A number is cut to its field. */
  lemma NumberWritten(m: seq<SprInfo>, memaddr: Word, e: Opcode, f: Operand, n: int)
    requires f.hint == Plain || f.hint == Offset
    ensures OperandData(m, memaddr, e, f, SignedDecimal(n)) == Ok(Wrap(n))
    ensures OperandData(m, memaddr, e, f, SignedHex(n)) == Ok(Wrap(n))
  {
    ReadSignedDecimal(n);
    ReadSignedHex(n);
  }

  lemma WrapLow(n: int)
    ensures Wrap(n) % 0x1_0000 == n % 0x1_0000
  {
    var q := n / WORD_LIMIT;
    assert n == Wrap(n) + 0x1_0000 * (0x1_0000 * q);
    LowPlus(Wrap(n), 0x1_0000 * q);
  }

  lemma LowPlus(x: int, q: int)
    ensures (x + 0x1_0000 * q) % 0x1_0000 == x % 0x1_0000
  {
  }

  /** An immediate operand of an assembled line, written as a signed number in decimal or
      hexadecimal, is the number modulo 2^16. */
  lemma ImmediateAssembled(t: seq<Opcode>, m: seq<SprInfo>, memaddr: Word, text: string, j: nat, n: int)
    requires WellFormed(t) && Asm(t, m, memaddr, text).Ok?
    requires ByName(t, Lower(FirstWord(text))).Some? ==>
      var fields := ByName(t, Lower(FirstWord(text))).value.fields;
      j < |fields| && fields[j].hint == Plain && fields[j].bits == 16 && fields[j].shift == 0
    requires Nth(text, j + 1) == SignedDecimal(n) || Nth(text, j + 1) == SignedHex(n)
    ensures Asm(t, m, memaddr, text).value % 0x1_0000 == n % 0x1_0000
  {
    AssembleDecode(t, m, memaddr, text);
    var e := ByName(t, Lower(FirstWord(text))).value;
    var f, instr := e.fields[j], Asm(t, m, memaddr, text).value;
    NumberWritten(m, memaddr, e, f, n);
    WrapLow(n);
    LowField(f, instr);
  }

  lemma LowField(f: Operand, w: nat)
    requires f.bits == 16 && f.shift == 0
    ensures Extract(f, w) == w % 0x1_0000 && Pow2(f.bits) == 0x1_0000
  {
    PowersOfTwo();
    FieldIsModulo(w, 0, 16);
  }

  /** A special purpose register that starts with a digit is its number with the halves exchanged. */
  lemma SprWritten(m: seq<SprInfo>, n: nat)
    requires 0 < n < 1024
    ensures SprValue(m, Format(n, 10)) == n / 32 % 32 + n % 32 * 32 > 0
  {
    DecimalSprValue(m, n);
  }

  /** The time base registers by number. */
  lemma TbrNumberWritten(n: nat)
    requires n < 0x8000_0000
    ensures TbrValue(Format(n, 10)) == if n == 268 then 392 else if n == 269 then 424 else 0
  {
    DigitsStayLow(Format(n, 10));
    ReadNumberDecimal(n);
  }

  lemma DigitsStayLow(s: string)
    requires s != "" && forall c | c in s :: IsDigitOf(c, 10)
    ensures Lower(s) == s && IsDigit(s[0])
  {
    assert forall i | 0 <= i < |s| :: s[i] in s;
  }

  /** Or by name, in any case; nothing else is one. */
  lemma TbrNameWritten(name: string)
    requires name != "" && !IsDigit(name[0])
    ensures TbrValue(name) == if Lower(name) == "tbl" then 392 else if Lower(name) == "tbu" then 424 else 0
  {
    assert Lower(name)[0] == ToLower(name[0]) && !IsDigit(ToLower(name[0]));
    TbrHalves();
  }

  lemma TbrHalves()
    ensures Swap(268) == 392 && Swap(269) == 424
  {
  }
}
