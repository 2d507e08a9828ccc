/** What the simplified mnemonics in a printed line say about the step. */
module SimplifiedText {
  import opened Wrappers
  import opened Bits
  import opened Ppc
  import OperandLists
  import opened OpcodeSearch
  import opened Text
  import opened Sprs
  import opened Disassembler
  import opened RoundTrip
  import opened Reassembly
  import Decoding
  import opened Stepper
  import StepRefinesIsa
  import SteppingText
  import Isa = PowerIsa

  /** The words of a padded mnemonic and what follows it. */
  lemma WordsOfPadded(name: string, body: string, k: nat)
    requires IsWord(name)
    ensures Decoding.Nth(PadName(name) + body, 0) == name
    ensures Decoding.Nth(PadName(name) + body, k + 1) == Decoding.Nth(body, k)
  {
    PaddedFirst(name, body);
    PadNameIs(name);
    var blanks := PadName(name)[|name|..];
    assert PadName(name) + body == name + (blanks + body);
    WordThenBlank(name, blanks + body);
    BlanksFirst(blanks, body);
  }

  /** The first word of a row's line is the mnemonic of the row, or runs past eight characters. */
  lemma RowNotPseudo(t: seq<Opcode>, m: seq<SprInfo>, pc: Word, w: Word, radix: Radix, raw: bool, k: nat)
    requires WellFormed(t) && Unlisted(t) && SprsOk(m)
    requires k < |t| && Matches(t[k], w) && ShownAs(t[k], w, true) == t[k]
    ensures !Pseudo(FirstWord(Shown(t, m, pc, w, radix, true, raw)))
  {
    var e := t[k];
    var tokens := Tokens(m, e, pc, w, radix);
    var body := Body(e.fields, tokens, 0);
    ShownIs(t, m, pc, w, radix, true, raw, k);
    assert NameOk(e.name);
    NameIsWord(e.name);
    if Glued(e, tokens) {
      assert (e.name + body)[0] in e.name;
      RunPrefix(e.name, body);
      if Pseudo(e.name + Run(body)) { PseudoIsWord(e.name + Run(body)); }
    } else {
      PaddedFirst(e.name, body);
      assert e in t;
    }
  }

  lemma HexWord(target: Word)
    ensures IsWord("0x" + Format(target, 16)) && Decoding.Nth("0x" + Format(target, 16), 0) == "0x" + Format(target, 16)
    ensures ReadNumber("0x" + Format(target, 16)) == target
  {
    HexadecimalIsWord(target);
    WordAtEnd("0x" + Format(target, 16));
    ReadNumberHex(target);
  }

  /** The operands of a simplified branch: the target, behind `cr2` for bne. */
  lemma SimpleBody(m: seq<SprInfo>, s: SimpleBranch, pc: Word, w: Word, radix: Radix)
    ensures OperandsOk(SimpleOpcode(s)) && Extract(O_BD, w) < WORD_LIMIT
    ensures
      var op := SimpleOpcode(s);
      var target := "0x" + Format(TargetOf(op, O_BD, pc, Extract(O_BD, w)), 16);
      Body(op.fields, Tokens(m, op, pc, w, radix), 0) == if s.BneCr2? then "cr2" + "," + target else target
  {
    SimpleOpcodeOk(s);
    ExtractFits(O_BD, w);
    var op := SimpleOpcode(s);
    SimpleFields(s);
    if s.BneCr2? {
      BodyOfTwo(m, op, pc, w, radix, Tokens(m, op, pc, w, radix));
    } else {
      BodyOfOne(m, op, pc, w, radix, Tokens(m, op, pc, w, radix));
    }
  }

  lemma SimpleFields(s: SimpleBranch)
    ensures SimpleOpcode(s).fields == if s.BneCr2? then [O_cr2, O_BD] else [O_BD]
  {
  }

  lemma BodyOfOne(m: seq<SprInfo>, op: Opcode, pc: Word, w: Word, radix: Radix, tokens: seq<Token>)
    requires OperandsOk(op) && op.fields == [O_BD] && tokens == Tokens(m, op, pc, w, radix) && Extract(O_BD, w) < WORD_LIMIT
    ensures Body(op.fields, tokens, 0) == "0x" + Format(TargetOf(op, O_BD, pc, Extract(O_BD, w)), 16)
  {
    assert op.fields[0] == O_BD;
  }

  lemma BodyOfTwo(m: seq<SprInfo>, op: Opcode, pc: Word, w: Word, radix: Radix, tokens: seq<Token>)
    requires OperandsOk(op) && op.fields == [O_cr2, O_BD] && tokens == Tokens(m, op, pc, w, radix) && Extract(O_BD, w) < WORD_LIMIT
    ensures Body(op.fields, tokens, 0) == "cr2" + "," + ("0x" + Format(TargetOf(op, O_BD, pc, Extract(O_BD, w)), 16))
  {
    assert op.fields[0] == O_cr2 && op.fields[1] == O_BD;
    assert tokens[0].text == "cr2";
    assert Body(op.fields, tokens, 1) == tokens[1].text;
  }

  /** Under which condition each of them branches. */
  predicate Condition(name: string, regs: PtRegs) {
    if name == "blt" then Isa.CrBit(regs.ccr, 0)
    else if name == "bne" then !Isa.CrBit(regs.ccr, 10)
    else Wrap(regs.ctr as int - 1) != 0
  }

  lemma SaysIs(s: SimpleBranch, regs: PtRegs)
    ensures SteppingText.Says(s, regs) == Condition(SimpleOpcode(s).name, regs)
    ensures SimpleOpcode(s).name == match s case Blt => "blt" case BneCr2 => "bne" case Bdnz => "bdnz"
  {
  }

  lemma SimpleWords(name: string, target: string, s: SimpleBranch)
    requires IsWord(name) && IsWord(target)
    ensures
      var text := PadName(name) + if s.BneCr2? then "cr2" + "," + target else target;
      && Decoding.Nth(text, 0) == name
      && (if s.BneCr2? then Decoding.Nth(text, 1) == "cr2" && Decoding.Nth(text, 2) == target
          else Decoding.Nth(text, 1) == target)
  {
    var body := if s.BneCr2? then "cr2" + "," + target else target;
    WordsOfPadded(name, body, 0);
    WordAtEnd(target);
    if s.BneCr2? {
      WordsOfPadded(name, body, 1);
      WordThenComma("cr2", target);
    }
  }

  /** Whenever a line starts with blt, with bne (then its first operand is cr2), or with bdnz, the branch
      is taken exactly when CR bit 0 is set, CR bit 10 is clear, or the decremented CTR is not zero,
      and it goes to the address that the line ends in. */
  lemma SimplifiedTextMeaning(t: seq<Opcode>, m: seq<SprInfo>, w: Word, pc: Word, regs: PtRegs, radix: Radix, raw: bool)
    requires WellFormed(t) && Unlisted(t) && SprsOk(m) && HasBranches(t) && SteppingText.HandlerIsBc(t)
    requires
      var name := Decoding.Nth(Shown(t, m, pc, w, radix, true, raw), 0);
      name == "blt" || name == "bne" || name == "bdnz"
    ensures
      var text := Shown(t, m, pc, w, radix, true, raw);
      var name := Decoding.Nth(text, 0);
      && (name == "bne" ==> Decoding.Nth(text, 1) == "cr2")
      && NextStop(t, w, pc, regs, false) ==
           Some(if Condition(name, regs) then ReadNumber(Decoding.Nth(text, if name == "bne" then 2 else 1))
                else Wrap(pc + 4))
  {
    var text := Shown(t, m, pc, w, radix, true, raw);
    LookupFinds(t, w);
    if Lookup(t, w).None? {
      ShownLong(t, m, pc, w, radix, true, raw);
      LongTextIs(w);
      LongFirst("0x" + PadHex(w, 8));
      assert false;
    }
    var e := Lookup(t, w).value;
    var k :| 0 <= k < |t| && t[k] == e;
    if ShownAs(e, w, true) == e {
      RowNotPseudo(t, m, pc, w, radix, raw, k);
      assert false;
    }
    SimplifiedLine(t, m, w, pc, regs, radix, raw, k, Simplified(e, w).value);
  }

  lemma SimplifiedLine(t: seq<Opcode>, m: seq<SprInfo>, w: Word, pc: Word, regs: PtRegs, radix: Radix, raw: bool, k: nat, s: SimpleBranch)
    requires WellFormed(t) && HasBranches(t) && SteppingText.HandlerIsBc(t)
    requires k < |t| && Matches(t[k], w) && t[k].hfunc == HandleBc && Simplified(t[k], w) == Some(s)
    ensures
      var text := Shown(t, m, pc, w, radix, true, raw);
      var name := Decoding.Nth(text, 0);
      && name == SimpleOpcode(s).name && (name == "bne" ==> Decoding.Nth(text, 1) == "cr2")
      && NextStop(t, w, pc, regs, false) ==
           Some(if Condition(name, regs) then ReadNumber(Decoding.Nth(text, if name == "bne" then 2 else 1))
                else Wrap(pc + 4))
  {
    var op := SimpleOpcode(s);
    LookupIs(t, w, k);
    SimpleOpcodeOk(s);
    PseudoIsWord(op.name);
    ShownSimple(t, m, pc, w, radix, raw, k, op);
    SimpleBody(m, s, pc, w, radix);
    var target := TargetOf(op, O_BD, pc, Extract(O_BD, w));
    HexWord(target);
    SimpleWords(op.name, "0x" + Format(target, 16), s);
    SaysIs(s, regs);
    SteppingText.SimplifiedMeaning(t, w, pc, regs);
  }

  /** The handler's row is shown as blt, bne or bdnz for exactly these values of BO and BI. */
  lemma SimplifiedWhen(t: seq<Opcode>, m: seq<SprInfo>, w: Word, pc: Word, radix: Radix, raw: bool)
    requires WellFormed(t) && Unlisted(t) && SprsOk(m) && HasBranches(t) && SteppingText.HandlerIsBc(t)
    requires Lookup(t, w).Some? && Lookup(t, w).value.hfunc == HandleBc
    ensures
      var name := Decoding.Nth(Shown(t, m, pc, w, radix, true, raw), 0);
      && (name == "blt" <==> Isa.BO(w) == 12 && Isa.BI(w) == 0)
      && (name == "bne" <==> Isa.BO(w) == 4 && Isa.BI(w) == 10)
      && (name == "bdnz" <==> Isa.BO(w) == 16 && Isa.BI(w) == 0)
  {
    LookupFinds(t, w);
    var e := Lookup(t, w).value;
    var k :| 0 <= k < |t| && t[k] == e;
    SteppingText.HandlerRow(t, w);
    SteppingText.SimplifiedIs(e, w);
    var s := Simplified(e, w);
    if s.Some? {
      NameShown(t, m, w, pc, radix, raw, k, s.value);
    } else {
      RowNotPseudo(t, m, pc, w, radix, raw, k);
    }
    NamesTell(Decoding.Nth(Shown(t, m, pc, w, radix, true, raw), 0), s, Isa.BO(w), Isa.BI(w));
  }

  lemma NamesTell(name: string, s: Option<SimpleBranch>, bo: nat, bi: nat)
    requires s == SimpleForm(bo, bi)
    requires if s.None? then !Pseudo(name) else name == match s.value case Blt => "blt" case BneCr2 => "bne" case Bdnz => "bdnz"
    ensures name == "blt" <==> bo == 12 && bi == 0
    ensures name == "bne" <==> bo == 4 && bi == 10
    ensures name == "bdnz" <==> bo == 16 && bi == 0
  {
    NamesDiffer();
  }

  lemma NamesDiffer()
    ensures "blt" != "bne" && "blt" != "bdnz" && "bne" != "bdnz"
  {
    assert "blt"[1] == 'l' && "bne"[1] == 'n' && "bdnz"[1] == 'd';
  }

  lemma NameShown(t: seq<Opcode>, m: seq<SprInfo>, w: Word, pc: Word, radix: Radix, raw: bool, k: nat, s: SimpleBranch)
    requires WellFormed(t) && k < |t| && Matches(t[k], w) && t[k].hfunc == HandleBc && Simplified(t[k], w) == Some(s)
    ensures Decoding.Nth(Shown(t, m, pc, w, radix, true, raw), 0) ==
              match s case Blt => "blt" case BneCr2 => "bne" case Bdnz => "bdnz"
  {
    var op := SimpleOpcode(s);
    SimpleOpcodeOk(s);
    PseudoIsWord(op.name);
    ShownSimple(t, m, pc, w, radix, raw, k, op);
    PaddedFirst(op.name, Body(op.fields, Tokens(m, op, pc, w, radix), 0));
  }
}
