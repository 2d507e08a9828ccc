/** The main theorem about text: which disassembled words can be assembled again. */
module Reassembly {
  import opened Wrappers
  import opened Bits
  import opened Ppc
  import opened OpcodeSearch
  import opened Text
  import opened Sprs
  import opened Assembler
  import opened Disassembler
  import OperandRoundTrip
  import opened RoundTrip

  // ----- every printed operand is a word -----

  lemma NumeralIsWord(n: nat, base: nat)
    requires 2 <= base <= 16
    ensures IsWord(Format(n, base))
  {
  }

  lemma PrefixedIsWord(prefix: string, word: string)
    requires IsWord(word) && forall c | c in prefix :: WordChar(c)
    ensures IsWord(prefix + word)
  {
  }

  lemma SprNameIsWord(m: seq<SprInfo>, operand: nat)
    requires NamesAreWords(m)
    ensures IsWord(SprName(m, operand))
  {
    NameOfFinds(m, Swap(operand));
    NumeralIsWord(Swap(operand), 10);
  }

  lemma HexadecimalIsWord(n: nat)
    ensures IsWord("0x" + Format(n, 16))
  {
    NumeralIsWord(n, 16);
    PrefixedIsWord("0x", Format(n, 16));
  }

  lemma RegisterIsWord(n: nat)
    ensures IsWord("0") && IsWord("r" + Format(n, 10))
  {
    NumeralIsWord(n, 10);
    PrefixedIsWord("r", Format(n, 10));
  }

  lemma FieldIsWord(m: seq<SprInfo>, e: Opcode, f: Operand, virt: Word, w: Word, radix: Radix)
    requires OperandOk(f) && !IsSilent(f) && NamesAreWords(m)
    ensures IsWord(FieldText(m, e, f, virt, w, radix))
  {
    var operand := Extract(f, w);
    match f.hint {
      case Addr =>
        ExtractFits(f, w);
        HexadecimalIsWord(TargetOf(e, f, virt, operand));
      case Reg => RegisterIsWord(operand);
      case Spr => SprNameIsWord(m, operand);
      case Tbr =>
      case Literal =>
      case Plain => RadixTextIsWord(radix, operand % 0x1_0000);
      case Offset => RadixTextIsWord(radix, operand % 0x1_0000);
      case Silent =>
    }
  }

  lemma RadixTextIsWord(radix: Radix, n: nat)
    ensures IsWord(RadixText(radix, n))
  {
    match radix {
      case Octal => NumeralIsWord(n, 8); PrefixedIsWord("O", Format(n, 8));
      case UDecimal => NumeralIsWord(n, 10);
      case SDecimal => NumeralIsWord(n, 10);
      case Hex => HexadecimalIsWord(n);
    }
  }

  lemma TokensReadBack(m: seq<SprInfo>, e: Opcode, virt: Word, w: Word, radix: Radix)
    requires OperandsOk(e) && SprsOk(m)
    ensures ReadsAs(m, virt, e, Tokens(m, e, virt, w, radix), ReadBacks(m, e, w, radix))
  {
    SprsOkNames(m);
    forall k | 0 <= k < |e.fields| && !IsSilent(e.fields[k])
      ensures IsWord(FieldText(m, e, e.fields[k], virt, w, radix))
      ensures OperandBits(m, virt, e, e.fields[k], FieldText(m, e, e.fields[k], virt, w, radix))
           == OperandRoundTrip.ReadBack(m, e.fields[k], w, radix)
    {
      FieldIsWord(m, e, e.fields[k], virt, w, radix);
      OperandRoundTrip.FieldReadBack(m, e, e.fields[k], virt, w, radix);
    }
  }

  // ----- the mnemonic -----

  lemma NameIsWord(name: string)
    requires NameOk(name)
    ensures IsWord(name) && Lower(name) == name
  {
    forall c | c in name ensures WordChar(c) && !IsUpper(c) {
      var i :| 0 <= i < |name| && name[i] == c;
    }
    assert forall i | 0 <= i < |name| :: name[i] in name;
  }

  lemma {:induction false} ByNameIs(t: seq<Opcode>, k: nat)
    requires k < |t| && forall i, j | 0 <= i < j < |t| :: t[i].name != t[j].name
    ensures ByName(t, t[k].name) == Some(t[k])
  {
    if k > 0 {
      ByNameIs(t[1..], k - 1);
    }
  }

  lemma AsmFieldsSkipBlanks(m: seq<SprInfo>, memaddr: Word, e: Opcode, k: nat, blanks: string, text: string, acc: nat)
    requires OperandsOk(e) && k <= |e.fields|
    requires forall c | c in blanks :: IsSpace(c)
    ensures AsmFields(m, memaddr, e, k, blanks + text, acc) == AsmFields(m, memaddr, e, k, text, acc)
    decreases |e.fields| - k
  {
    BlanksFirst(blanks, text);
    if k < |e.fields| && IsSilent(e.fields[k]) {
      AsmFieldsSkipBlanks(m, memaddr, e, k + 1, blanks, text, acc);
    }
  }

  /** After a padded mnemonic the operands are read. */
  lemma AsmPadded(t: seq<Opcode>, m: seq<SprInfo>, memaddr: Word, k: nat, body: string)
    requires WellFormed(t) && k < |t|
    ensures Asm(t, m, memaddr, PadName(t[k].name) + body)
         == AsmFields(m, memaddr, t[k], 0, body, t[k].opcode)
  {
    var name := t[k].name;
    PadNameIs(name);
    var blanks := PadName(name)[|name|..];
    assert PadName(name) + body == name + (blanks + body);
    NameIsWord(name);
    WordThenBlank(name, blanks + body);
    ByNameIs(t, k);
    AsmFieldsSkipBlanks(m, memaddr, t[k], 0, blanks, body, t[k].opcode);
  }

  /** A mnemonic that runs into its first operand is unknown. */
  lemma AsmGlued(t: seq<Opcode>, m: seq<SprInfo>, memaddr: Word, name: string, body: string)
    requires WellFormed(t) && NameOk(name) && |name| == 8
    requires body != "" && !EndsWord(body[0])
    ensures Asm(t, m, memaddr, name + body) == Err(BadOpcode)
  {
    var text := name + body;
    NameIsWord(name);
    assert text[0] in name;
    RunPrefix(name, body);
    var word := FirstWord(text);
    assert |word| > 8;
    forall e | e in t ensures |e.name| <= 8 {
      var i :| 0 <= i < |t| && t[i] == e;
      assert NameOk(t[i].name);
    }
    ByNameFinds(t, Lower(word));
  }

  // ----- a word that is printed as its row -----

  /** The text of a line from the mnemonic on. */
  function Shown(t: seq<Opcode>, m: seq<SprInfo>, virt: Word, w: Word, radix: Radix, simple: bool, raw: bool): string
    requires TableOk(t)
  {
    var line := Line(t, m, virt, w, radix, simple, raw);
    if HeaderLength(raw) <= |line| then line[HeaderLength(raw)..] else ""
  }

  predicate HasOffset(e: Opcode) { exists k | 0 <= k < |e.fields| :: e.fields[k].hint == Offset }

  /** An eight-letter mnemonic whose first operand is written over the blank behind it. */
  predicate RunsTogether(e: Opcode, w: Word) {
    |e.name| == 8 && Printed(e.fields, 0) && !Appended(e, e.fields[0], w)
  }

  /** The words that survive disassembling and assembling. */
  ghost predicate Reassembles(m: seq<SprInfo>, e: Opcode, w: Word, radix: Radix) {
    && !HasOffset(e)
    && !RunsTogether(e, w)
    && AllReadable(m, e, w, radix)
    && NoStrayBits(e, w)
  }

  lemma JoinRight(a: string, b: string, c: string)
    ensures a + b + c == a + (b + c) && (a + (b + c))[|a|..] == b + c && (a + (b + c))[..|a|] == a
  {
  }

  /** A line that is printed with the operands of an opcode. */
  lemma EntryLineIs(m: seq<SprInfo>, op: Opcode, mask: Word, tokens: seq<Token>, virt: Word, w: Word, radix: Radix, raw: bool)
    requires FieldsOk(op.fields, mask) && 1 <= |op.name| <= 8 && OperandsOk(op)
    requires tokens == Tokens(m, op, virt, w, radix)
    ensures
      var line := EntryLine(m, op, virt, w, radix, raw);
      && HeaderLength(raw) <= |line| && line[..HeaderLength(raw)] == Header(virt, w, raw)
      && line[HeaderLength(raw)..] == Lead(op, tokens) + Body(op.fields, tokens, 0)
  {
    HeaderIs(virt, w, raw);
    LineIsLead(op, mask, tokens, Header(virt, w, raw));
    JoinRight(Header(virt, w, raw), Lead(op, tokens), Body(op.fields, tokens, 0));
  }

  lemma LineOfRow(t: seq<Opcode>, m: seq<SprInfo>, virt: Word, w: Word, radix: Radix, simple: bool, raw: bool, k: nat)
    requires WellFormed(t) && k < |t| && Matches(t[k], w)
    ensures Line(t, m, virt, w, radix, simple, raw) == EntryLine(m, ShownAs(t[k], w, simple), virt, w, radix, raw)
  {
    LookupIs(t, w, k);
  }

  lemma ShownIs(t: seq<Opcode>, m: seq<SprInfo>, virt: Word, w: Word, radix: Radix, simple: bool, raw: bool, k: nat)
    requires WellFormed(t) && k < |t| && Matches(t[k], w) && ShownAs(t[k], w, simple) == t[k]
    ensures
      var tokens := Tokens(m, t[k], virt, w, radix);
      Shown(t, m, virt, w, radix, simple, raw) == Lead(t[k], tokens) + Body(t[k].fields, tokens, 0)
  {
    var e := t[k];
    LineOfRow(t, m, virt, w, radix, simple, raw, k);
    assert EntryOk(e) && NameOk(e.name);
    EntryLineIs(m, e, e.mask, Tokens(m, e, virt, w, radix), virt, w, radix, raw);
  }

  lemma BodyStartsWord(m: seq<SprInfo>, e: Opcode, virt: Word, w: Word, radix: Radix)
    requires OperandsOk(e) && SprsOk(m) && Printed(e.fields, 0)
    ensures
      var body := Body(e.fields, Tokens(m, e, virt, w, radix), 0);
      body != "" && !EndsWord(body[0])
  {
    var tokens := Tokens(m, e, virt, w, radix);
    TokensReadBack(m, e, virt, w, radix);
    assert IsWord(tokens[0].text) && tokens[0].text[0] in tokens[0].text;
    assert Body(e.fields, tokens, 0)[0] == tokens[0].text[0];
  }

  /** A word that is printed as its row comes back exactly if `Reassembles` describes it. */
  lemma RowReassembles(t: seq<Opcode>, m: seq<SprInfo>, virt: Word, w: Word, radix: Radix, simple: bool, raw: bool, k: nat)
    requires WellFormed(t) && SprsOk(m)
    requires k < |t| && Matches(t[k], w) && ShownAs(t[k], w, simple) == t[k]
    ensures Asm(t, m, virt, Shown(t, m, virt, w, radix, simple, raw)) == Ok(w) <==> Reassembles(m, t[k], w, radix)
  {
    var e := t[k];
    var tokens := Tokens(m, e, virt, w, radix);
    var body := Body(e.fields, tokens, 0);
    var results := ReadBacks(m, e, w, radix);
    ShownIs(t, m, virt, w, radix, simple, raw, k);
    TokensReadBack(m, e, virt, w, radix);
    if Glued(e, tokens) {
      BodyStartsWord(m, e, virt, w, radix);
      AsmGlued(t, m, virt, e.name, body);
    } else {
      AsmPadded(t, m, virt, k, body);
      if HasOffset(e) {
        var j :| 0 <= j < |e.fields| && e.fields[j].hint == Offset;
        AsmWithOffset(m, virt, e, tokens, results, j, 0, e.opcode);
      } else {
        AsmOfBody(m, virt, e, tokens, results, 0, e.opcode);
        JoinedIsWord(m, e, w, radix);
      }
    }
  }

  // ----- lines whose mnemonic the assembler does not know -----

  const LONG := ".long"

  /** What stands for the mnemonic of a word that is not printed as its row. */
  predicate Pseudo(name: string) { name == LONG || name == "blt" || name == "bne" || name == "bdnz" }

  /** The mnemonics that only the disassembler knows are not in the table. */
  predicate Unlisted(t: seq<Opcode>) { forall e | e in t :: !Pseudo(e.name) }

  lemma PseudoNames()
    ensures NameOk(LONG) && NameOk("blt") && NameOk("bne") && NameOk("bdnz")
  {
  }

  lemma PseudoIsWord(name: string)
    requires Pseudo(name)
    ensures IsWord(name) && Lower(name) == name && 1 <= |name| <= 5
  {
    PseudoNames();
    NameIsWord(name);
  }

  lemma PseudoUnknown(t: seq<Opcode>, m: seq<SprInfo>, memaddr: Word, text: string)
    requires TableOk(t) && Unlisted(t) && Pseudo(FirstWord(text))
    ensures Asm(t, m, memaddr, text) == Err(BadOpcode)
  {
    PseudoIsWord(FirstWord(text));
    ByNameFinds(t, FirstWord(text));
  }

  /** The line of a word that matches no entry. */
  lemma ShownLong(t: seq<Opcode>, m: seq<SprInfo>, virt: Word, w: Word, radix: Radix, simple: bool, raw: bool)
    requires TableOk(t) && Lookup(t, w).None?
    ensures Shown(t, m, virt, w, radix, simple, raw) == LongText(w)
  {
    HeaderIs(virt, w, raw);
    JoinRight(Header(virt, w, raw), LongText(w), "");
  }

  lemma LongTextIs(w: Word)
    ensures LongText(w) == Spaces(8) + (LONG + (" " + ("0x" + PadHex(w, 8))))
  {
    LongPrefix();
    FiveParts(Spaces(8), LONG, " ", "0x", PadHex(w, 8));
  }

  lemma LongPrefix()
    ensures "        .long 0x" == Spaces(8) + (LONG + (" " + "0x"))
  {
  }

  lemma FiveParts(a: string, b: string, c: string, d: string, e: string)
    ensures (a + (b + (c + d))) + e == a + (b + (c + (d + e)))
  {
  }

  lemma LongFirst(rest: string)
    ensures FirstWord(Spaces(8) + (LONG + (" " + rest))) == LONG
    ensures AfterWord(Spaces(8) + (LONG + (" " + rest))) == " " + rest
  {
    PseudoIsWord(LONG);
    BlanksFirst(Spaces(8), LONG + (" " + rest));
    WordThenBlank(LONG, " " + rest);
  }

  /** Every line starts with its header. */
  lemma LineHasHeader(t: seq<Opcode>, m: seq<SprInfo>, virt: Word, w: Word, radix: Radix, simple: bool, raw: bool)
    requires WellFormed(t)
    ensures
      var line := Line(t, m, virt, w, radix, simple, raw);
      HeaderLength(raw) <= |line| && line[..HeaderLength(raw)] == Header(virt, w, raw)
  {
    LookupFinds(t, w);
    HeaderIs(virt, w, raw);
    if Lookup(t, w).None? {
      JoinRight(Header(virt, w, raw), LongText(w), "");
    } else {
      var e := Lookup(t, w).value;
      var k :| 0 <= k < |t| && t[k] == e;
      assert EntryOk(e) && NameOk(e.name);
      RowHasHeader(m, e, virt, w, radix, simple, raw);
    }
  }

  lemma RowHasHeader(m: seq<SprInfo>, e: Opcode, virt: Word, w: Word, radix: Radix, simple: bool, raw: bool)
    requires OperandsOk(e) && EntryOk(e) && NameOk(e.name)
    ensures
      var line := EntryLine(m, ShownAs(e, w, simple), virt, w, radix, raw);
      HeaderLength(raw) <= |line| && line[..HeaderLength(raw)] == Header(virt, w, raw)
  {
    var op := ShownAs(e, w, simple);
    if op == e {
      EntryLineIs(m, e, e.mask, Tokens(m, e, virt, w, radix), virt, w, radix, raw);
    } else {
      SimpleOpcodeOk(Simplified(e, w).value);
      PseudoIsWord(op.name);
      EntryLineIs(m, op, 0, Tokens(m, op, virt, w, radix), virt, w, radix, raw);
    }
  }

  lemma SimpleOpcodeOk(s: SimpleBranch)
    ensures Pseudo(SimpleOpcode(s).name) && OperandsOk(SimpleOpcode(s)) && FieldsOk(SimpleOpcode(s).fields, 0)
  {
    forall i: nat ensures !Bit(0, i) { BitZero(i); }
  }

  /** The line of a simplified branch. */
  lemma ShownSimple(t: seq<Opcode>, m: seq<SprInfo>, virt: Word, w: Word, radix: Radix, raw: bool, k: nat, op: Opcode)
    requires WellFormed(t) && k < |t| && Matches(t[k], w) && op == ShownAs(t[k], w, true)
    requires Pseudo(op.name) && OperandsOk(op) && FieldsOk(op.fields, 0)
    ensures Shown(t, m, virt, w, radix, true, raw) == PadName(op.name) + Body(op.fields, Tokens(m, op, virt, w, radix), 0)
  {
    PseudoIsWord(op.name);
    LineOfRow(t, m, virt, w, radix, true, raw, k);
    EntryLineIs(m, op, 0, Tokens(m, op, virt, w, radix), virt, w, radix, raw);
  }

  lemma PaddedFirst(name: string, body: string)
    requires IsWord(name)
    ensures FirstWord(PadName(name) + body) == name
  {
    PadNameIs(name);
    var blanks := PadName(name)[|name|..];
    assert PadName(name) + body == name + (blanks + body);
    WordThenBlank(name, blanks + body);
  }

  // ----- the theorem -----

  /** The word is printed as the row that it matches: it is no `.long` and no simplified branch. */
  predicate ShownAsRow(t: seq<Opcode>, w: Word, simple: bool) {
    Lookup(t, w).Some? && !(simple && Lookup(t, w).value.hfunc == HandleBc && Simplified(Lookup(t, w).value, w).Some?)
  }

  /** Disassembling and assembling again, at the same address and in any radix, gives back exactly
      the words that are printed as a row and that `Reassembles` describes. */
  lemma DisassembleAssemble(t: seq<Opcode>, m: seq<SprInfo>, virt: Word, w: Word, radix: Radix, simple: bool, raw: bool)
    requires WellFormed(t) && SprsOk(m) && Unlisted(t)
    ensures Asm(t, m, virt, Shown(t, m, virt, w, radix, simple, raw)) == Ok(w) <==>
              ShownAsRow(t, w, simple) && Reassembles(m, Lookup(t, w).value, w, radix)
  {
    var text := Shown(t, m, virt, w, radix, simple, raw);
    LookupFinds(t, w);
    if Lookup(t, w).None? {
      ShownLong(t, m, virt, w, radix, simple, raw);
      LongTextIs(w);
      LongFirst("0x" + PadHex(w, 8));
      PseudoUnknown(t, m, virt, text);
    } else {
      var e := Lookup(t, w).value;
      var k :| 0 <= k < |t| && t[k] == e;
      if ShownAsRow(t, w, simple) {
        RowReassembles(t, m, virt, w, radix, simple, raw, k);
      } else {
        var op := SimpleOpcode(Simplified(e, w).value);
        SimpleOpcodeOk(Simplified(e, w).value);
        ShownSimple(t, m, virt, w, radix, raw, k, op);
        PseudoIsWord(op.name);
        PaddedFirst(op.name, Body(op.fields, Tokens(m, op, virt, w, radix), 0));
        PseudoUnknown(t, m, virt, text);
      }
    }
  }
}
