/** The text of a disassembled line keeps to the limits that the assembler takes for granted: it has
    no NUL, and its words fit the scratch buffer. */
module AssemblerInput {
  import opened Bits
  import opened Ppc
  import OpcodeSearch
  import opened Text
  import opened Sprs
  import opened Assembler
  import opened Disassembler
  import opened RoundTrip
  import opened Reassembly

  lemma {:induction false} FormatShort(n: nat, base: nat, digits: nat)
    requires 8 <= base <= 16 && digits > 0 && n < Pow2(3 * digits)
    ensures |Format(n, base)| <= digits
    decreases digits
  {
    if n >= base {
      var d := 3 * digits;
      assert Pow2(d) == 2 * Pow2(d - 1) == 4 * Pow2(d - 2) == 8 * Pow2(d - 3);
      EighthBelow(n, base, Pow2(d - 3));
      assert digits > 1;
      FormatShort(n / base, base, digits - 1);
    }
  }

  lemma EighthBelow(n: nat, base: nat, p: nat)
    requires base >= 8 && n < 8 * p
    ensures n / base < p
  {
    var q, r := n / base, n % base;
    assert n == q * base + r;
    assert q * base >= 8 * q;
  }

  /** The most characters that a printed operand takes. */
  function Width(f: Operand): nat {
    match f.hint
    case Offset => 6
    case Reg => 3
    case _ => 10
  }

  lemma FieldShort(m: seq<SprInfo>, e: Opcode, f: Operand, virt: Word, w: Word, radix: Radix)
    requires OperandOk(f) && !IsSilent(f) && NamesAreWords(m)
    ensures |FieldText(m, e, f, virt, w, radix)| <= Width(f)
  {
    var operand := Extract(f, w);
    ExtractFits(f, w);
    PowersOfTwo();
    match f.hint {
      case Addr => FormatLength(TargetOf(e, f, virt, operand), 8);
      case Reg => FormatShort(operand, 10, 2);
      case Spr => NameShort(m, operand);
      case Tbr =>
      case Literal =>
      case Plain => RadixShort(radix, operand % 0x1_0000);
      case Offset => Pow2Monotone(f.bits, 15); OffsetShort(radix, operand % 0x1_0000);
      case Silent =>
    }
  }

  lemma NameShort(m: seq<SprInfo>, operand: nat)
    requires NamesAreWords(m)
    ensures |SprName(m, operand)| <= 9
  {
    NameOfFinds(m, Swap(operand));
    assert Pow2(12) == 4096 by { PowersOfTwo(); }
    FormatShort(Swap(operand), 10, 4);
  }

  lemma RadixShort(radix: Radix, n: nat)
    requires n < 0x1_0000
    ensures |RadixText(radix, n)| <= 8
  {
    assert Pow2(18) == 0x4_0000 by { assert Pow2(18) == 4 * Pow2(16); PowersOfTwo(); }
    match radix {
      case Octal => FormatShort(n, 8, 6);
      case UDecimal => FormatShort(n, 10, 6);
      case SDecimal => FormatShort(n, 10, 6);
      case Hex => FormatShort(n, 16, 6);
    }
  }

  lemma OffsetShort(radix: Radix, n: nat)
    requires n < 0x8000
    ensures |RadixText(radix, n)| <= 6
  {
    PowersOfTwo();
    match radix {
      case Octal => FormatShort(n, 8, 5);
      case UDecimal => FormatShort(n, 10, 5);
      case SDecimal => FormatShort(n, 10, 5);
      case Hex => FormatLength(n, 4);
    }
  }

  /** The printed operands are short words. */
  ghost predicate ShortTokens(fields: seq<Operand>, tokens: seq<Token>) {
    && |fields| == |tokens|
    && forall k | 0 <= k < |fields| && !IsSilent(fields[k]) ::
         IsWord(tokens[k].text) && |tokens[k].text| <= Width(fields[k])
  }

  lemma TokensAreShort(m: seq<SprInfo>, e: Opcode, virt: Word, w: Word, radix: Radix)
    requires OperandsOk(e) && SprsOk(m)
    ensures ShortTokens(e.fields, Tokens(m, e, virt, w, radix))
  {
    SprsOkNames(m);
    forall k | 0 <= k < |e.fields| && !IsSilent(e.fields[k])
      ensures var text := Tokens(m, e, virt, w, radix)[k].text; IsWord(text) && |text| <= Width(e.fields[k])
    {
      FieldIsWord(m, e, e.fields[k], virt, w, radix);
      FieldShort(m, e, e.fields[k], virt, w, radix);
    }
  }

  predicate NoNul(s: string) { '\0' !in s }

  lemma LastWordFits(word: string)
    requires IsWord(word) && |word| < 20
    ensures WordsFit(word) && NoNul(word)
  {
    WordAtEnd(word);
    NoWordLeft();
  }

  lemma MoreWordsFit(word: string, rest: string)
    requires IsWord(word) && |word| < 20 && WordsFit(rest) && NoNul(rest)
    ensures WordsFit(word + "," + rest) && NoNul(word + "," + rest)
  {
    WordThenComma(word, rest);
  }

  lemma FirstJoined(first: string, text: string, rest: string)
    ensures first + (text + "," + rest) == first + text + "," + rest
  {
  }

  /** The word that an offset and its base register make. */
  lemma OffsetFits(first: string, offset: string, base: string)
    requires IsWord(offset) && |offset| <= 6 && IsWord(base) && |base| <= 3
    requires |first| <= 8 && forall c | c in first :: WordChar(c)
    ensures var word := first + (offset + "(" + base + ")"); WordsFit(word) && NoNul(word)
  {
    var word := first + (offset + "(" + base + ")");
    assert forall c | c in word :: WordChar(c);
    LastWordFits(word);
  }

  /** A first word in front of the operands from the `k`th on, which are words themselves. */
  lemma {:induction false} BodyFits(fields: seq<Operand>, mask: nat, tokens: seq<Token>, k: nat, first: string)
    requires ShortTokens(fields, tokens) && Printed(fields, k) && FieldsOk(fields, mask)
    requires |first| <= 8 && forall c | c in first :: WordChar(c)
    ensures WordsFit(first + Body(fields, tokens, k)) && NoNul(first + Body(fields, tokens, k))
    decreases |fields| - k
  {
    var word := first + tokens[k].text;
    if !Printed(fields, k + 1) {
      LastWordFits(word);
    } else if fields[k].hint == Offset {
      OffsetFits(first, tokens[k].text, tokens[k + 1].text);
    } else {
      var rest := Body(fields, tokens, k + 1);
      BodyFits(fields, mask, tokens, k + 1, "");
      assert "" + rest == rest;
      FirstJoined(first, tokens[k].text, rest);
      MoreWordsFit(word, rest);
    }
  }

  /** The mnemonic and the operands of an opcode. */
  lemma LeadFits(op: Opcode, mask: nat, tokens: seq<Token>)
    requires ShortTokens(op.fields, tokens) && FieldsOk(op.fields, mask)
    requires IsWord(op.name) && |op.name| <= 8
    ensures var text := Lead(op, tokens) + Body(op.fields, tokens, 0); WordsFit(text) && NoNul(text)
  {
    var body := Body(op.fields, tokens, 0);
    if Glued(op, tokens) {
      BodyFits(op.fields, mask, tokens, 0, op.name);
    } else {
      if Printed(op.fields, 0) { BodyFits(op.fields, mask, tokens, 0, ""); assert "" + body == body; } else { NoWordLeft(); }
      PaddedFits(op.name, body);
    }
  }

  lemma HexIsWord(n: Word)
    ensures IsWord("0x" + PadHex(n, 8)) && |"0x" + PadHex(n, 8)| == 10
  {
    PowersOfTwo();
    FormatLength(n, 8);
    NumeralIsWord(n, 16);
  }

  lemma LongFits(n: Word)
    ensures WordsFit(LongText(n)) && NoNul(LongText(n))
  {
    HexIsWord(n);
    LongTextIs(n);
    NumberFits("0x" + PadHex(n, 8));
  }

  lemma NumberFits(number: string)
    requires IsWord(number) && |number| == 10
    ensures var text := Spaces(8) + (LONG + (" " + number)); WordsFit(text) && NoNul(text)
  {
    LastWordFits(number);
    BlanksFirst(" ", number);
    LongFirst(number);
    assert WordsFit(" " + number);
  }

  /** Every line can be given to the assembler. */
  lemma ShownFits(t: seq<Opcode>, m: seq<SprInfo>, virt: Word, w: Word, radix: Radix, simple: bool, raw: bool)
    requires WellFormed(t) && SprsOk(m)
    ensures var text := Shown(t, m, virt, w, radix, simple, raw); WordsFit(text) && NoNul(text)
  {
    OpcodeSearch.LookupFinds(t, w);
    if OpcodeSearch.Lookup(t, w).None? {
      ShownLong(t, m, virt, w, radix, simple, raw);
      LongFits(w);
    } else {
      var e := OpcodeSearch.Lookup(t, w).value;
      var k :| 0 <= k < |t| && t[k] == e;
      if ShownAsRow(t, w, simple) {
        RowFits(t, m, virt, w, radix, simple, raw, k);
      } else {
        SimpleOpcodeOk(Simplified(e, w).value);
        SimpleFits(t, m, virt, w, radix, raw, k, SimpleOpcode(Simplified(e, w).value));
      }
    }
  }

  lemma RowFits(t: seq<Opcode>, m: seq<SprInfo>, virt: Word, w: Word, radix: Radix, simple: bool, raw: bool, k: nat)
    requires WellFormed(t) && SprsOk(m) && k < |t| && Matches(t[k], w) && ShownAs(t[k], w, simple) == t[k]
    ensures var text := Shown(t, m, virt, w, radix, simple, raw); WordsFit(text) && NoNul(text)
  {
    var e := t[k];
    ShownIs(t, m, virt, w, radix, simple, raw, k);
    TokensAreShort(m, e, virt, w, radix);
    assert EntryOk(e) && NameOk(e.name);
    NameIsWord(e.name);
    LeadFits(e, e.mask, Tokens(m, e, virt, w, radix));
  }

  lemma SimpleFits(t: seq<Opcode>, m: seq<SprInfo>, virt: Word, w: Word, radix: Radix, raw: bool, k: nat, op: Opcode)
    requires WellFormed(t) && SprsOk(m) && k < |t| && Matches(t[k], w) && op == ShownAs(t[k], w, true)
    requires Pseudo(op.name) && OperandsOk(op) && FieldsOk(op.fields, 0)
    ensures var text := Shown(t, m, virt, w, radix, true, raw); WordsFit(text) && NoNul(text)
  {
    PseudoIsWord(op.name);
    ShownSimple(t, m, virt, w, radix, raw, k, op);
    TokensAreShort(m, op, virt, w, radix);
    LeadFits(op, 0, Tokens(m, op, virt, w, radix));
  }

  lemma PaddedFits(name: string, body: string)
    requires IsWord(name) && |name| <= 8 && WordsFit(body) && NoNul(body)
    ensures WordsFit(PadName(name) + body) && NoNul(PadName(name) + body)
  {
    PadNameIs(name);
    var blanks := PadName(name)[|name|..];
    assert PadName(name) + body == name + (blanks + body);
    WordThenBlank(name, blanks + body);
    BlanksFirst(blanks, body);
    assert WordsFit(blanks + body);
    assert forall c | c in blanks :: c != '\0';
  }
}
