/** The text of branches against the stepper: printed targets, assembled branches and simplified
    mnemonics. */
module SteppingText {
  import opened Wrappers
  import opened Bits
  import opened Ppc
  import OperandLists
  import opened OpcodeSearch
  import opened Text
  import Sprs
  import Assembler
  import opened Disassembler
  import OperandRoundTrip
  import RoundTrip
  import Decoding
  import opened Stepper
  import opened StepRefinesIsa
  import Isa = PowerIsa

  /** The address operand of a b or bc row. */
  function AddressField(e: Opcode): Operand { if IsB(e.opcode) then O_LI else O_BD }

  lemma SameSignExtension(field: nat, bits: nat)
    requires bits > 0
    ensures Isa.Exts(field, bits) == 4 * OperandRoundTrip.SignExtended(field, bits - 1)
  {
  }

  /** The printed target of a field, in the terms of the manual. */
  lemma PrintedField(e: Opcode, f: Operand, w: Word, pc: Word, field: nat)
    requires f.bits == 14 || f.bits == 24
    requires Extract(f, w) == field < Pow2(f.bits)
    ensures field < WORD_LIMIT
    ensures TargetOf(e, f, pc, field) == Wrap(Isa.Exts(field, f.bits) + if Relative(e) then pc else 0)
  {
    OperandRoundTrip.TargetIs(e, f, pc, field);
    SameSignExtension(field, f.bits);
    ExtractFits(f, w);
  }

  lemma AddressFields(w: Word)
    ensures Extract(O_LI, w) == Isa.LI(w) < Pow2(24)
    ensures Extract(O_BD, w) == Isa.BD(w) < Pow2(14)
  {
    SameFields(w);
    BranchFits(w);
  }

  /** `f` is the address field of the branch `w`, and `field` what it holds. */
  predicate IsAddressField(w: Word, f: Operand, field: nat) {
    || (Isa.KindOf(w) == Isa.Branch && f == O_LI && field == Isa.LI(w))
    || (Isa.KindOf(w) == Isa.BranchConditional && f == O_BD && field == Isa.BD(w))
  }

  lemma IsaTargetOf(w: Word, f: Operand, pc: Word, regs: PtRegs, field: nat)
    requires IsAddressField(w, f, field)
    ensures f.bits > 0 && Isa.Target(w, pc, IsaRegs(regs)) == Wrap(Isa.Exts(field, f.bits) + if Isa.AA(w) == 0 then pc else 0)
  {
  }

  lemma PrintedTarget(e: Opcode, f: Operand, w: Word, pc: Word, regs: PtRegs, field: nat)
    requires IsAddressField(w, f, field) && Extract(f, w) == field < Pow2(f.bits)
    requires Relative(e) <==> Isa.AA(w) == 0
    ensures field < WORD_LIMIT && TargetOf(e, f, pc, field) == Isa.Target(w, pc, IsaRegs(regs))
  {
    PrintedField(e, f, w, pc, field);
    IsaTargetOf(w, f, pc, regs, field);
  }

  lemma PrintedB(e: Opcode, w: Word, pc: Word, regs: PtRegs)
    requires Isa.KindOf(w) == Isa.Branch && (Relative(e) <==> Isa.AA(w) == 0)
    ensures Extract(O_LI, w) < WORD_LIMIT
    ensures TargetOf(e, O_LI, pc, Extract(O_LI, w)) == Isa.Target(w, pc, IsaRegs(regs))
  {
    AddressFields(w);
    PrintedTarget(e, O_LI, w, pc, regs, Extract(O_LI, w));
  }

  lemma PrintedBc(e: Opcode, w: Word, pc: Word, regs: PtRegs)
    requires Isa.KindOf(w) == Isa.BranchConditional && (Relative(e) <==> Isa.AA(w) == 0)
    ensures Extract(O_BD, w) < WORD_LIMIT
    ensures TargetOf(e, O_BD, pc, Extract(O_BD, w)) == Isa.Target(w, pc, IsaRegs(regs))
  {
    AddressFields(w);
    PrintedTarget(e, O_BD, w, pc, regs, Extract(O_BD, w));
  }

  /** A taken b or bc leads to the address that the disassembler prints for it. */
  lemma PrintedTargetIsStep(t: seq<Opcode>, w: Word, pc: Word, regs: PtRegs)
    requires Searchable(t) && HasBranches(t)
    requires Isa.KindOf(w) == Isa.Branch || Isa.KindOf(w) == Isa.BranchConditional
    ensures Lookup(t, w).Some?
    ensures
      var e := Lookup(t, w).value;
      var f := AddressField(e);
      && Extract(f, w) < WORD_LIMIT
      && NextStop(t, w, pc, regs, false) ==
           Some(if CodeTakes(w, regs) then TargetOf(e, f, pc, Extract(f, w)) else Wrap(pc + 4))
  {
    if Isa.KindOf(w) == Isa.Branch {
      LookupB(t, w);
      PrintedB(Lookup(t, w).value, w, pc, regs);
    } else {
      LookupBc(t, w);
      PrintedBc(Lookup(t, w).value, w, pc, regs);
    }
    StopsAre(t, w, pc, regs);
  }

  // ----- simplified mnemonics -----

  /** Only the relative bc without link has a handler. */
  ghost predicate HandlerIsBc(t: seq<Opcode>) {
    forall i | 0 <= i < |t| && t[i].hfunc == HandleBc ::
      t[i].opcode == BOpcode(16, 0, 0) && t[i].mask == B_MASK && t[i].fields == OperandLists.BC_FIELDS && Relative(t[i])
  }

  /** What the simplified mnemonics say. */
  predicate Says(s: SimpleBranch, regs: PtRegs) {
    match s
    case Blt => Isa.CrBit(regs.ccr, 0)
    case BneCr2 => !Isa.CrBit(regs.ccr, 10)
    case Bdnz => Wrap(regs.ctr as int - 1) != 0
  }

  lemma SimpleBo(w: Word)
    ensures Isa.BO(w) == 12 ==> Isa.BO2(w) && !Isa.BO0(w) && Isa.BO1(w)
    ensures Isa.BO(w) == 4 ==> Isa.BO2(w) && !Isa.BO0(w) && !Isa.BO1(w)
    ensures Isa.BO(w) == 16 ==> !Isa.BO2(w) && !Isa.BO3(w) && Isa.BO0(w)
  {
  }

  lemma SimpleConditions(w: Word, regs: PtRegs)
    requires Isa.KindOf(w) == Isa.BranchConditional && SimpleForm(Isa.BO(w), Isa.BI(w)).Some?
    ensures CodeTakes(w, regs) == Says(SimpleForm(Isa.BO(w), Isa.BI(w)).value, regs)
  {
    SimpleBo(w);
  }

  lemma SimplifiedIs(e: Opcode, w: Word)
    requires e.fields == OperandLists.BC_FIELDS
    ensures Simplified(e, w) == SimpleForm(Isa.BO(w), Isa.BI(w))
  {
    SameFields(w);
    assert e.fields[0] == O_BO && e.fields[1] == O_BI;
  }

  lemma HandlerRow(t: seq<Opcode>, w: Word)
    requires Searchable(t) && HandlerIsBc(t)
    requires Lookup(t, w).Some? && Lookup(t, w).value.hfunc == HandleBc
    ensures Lookup(t, w).value.fields == OperandLists.BC_FIELDS && Isa.KindOf(w) == Isa.BranchConditional
    ensures Relative(Lookup(t, w).value) && Isa.AA(w) == 0
  {
    LookupFinds(t, w);
    var e := Lookup(t, w).value;
    var i :| 0 <= i < |t| && t[i] == e;
    BMasked(w);
  }

  lemma SimplePrinted(s: SimpleBranch, w: Word, pc: Word, regs: PtRegs)
    requires Isa.KindOf(w) == Isa.BranchConditional && Isa.AA(w) == 0
    ensures Extract(O_BD, w) < WORD_LIMIT
    ensures TargetOf(SimpleOpcode(s), O_BD, pc, Extract(O_BD, w)) == Isa.Target(w, pc, IsaRegs(regs))
  {
    PrintedBc(SimpleOpcode(s), w, pc, regs);
  }

  /** Whenever the disassembler prints blt, bne cr2 or bdnz, stepping takes the branch exactly when
      CR bit 0 is set, CR bit 10 is clear, or the decremented CTR is not zero, and then it goes to
      the printed address. */
  lemma SimplifiedMeaning(t: seq<Opcode>, w: Word, pc: Word, regs: PtRegs)
    requires Searchable(t) && HasBranches(t) && HandlerIsBc(t)
    requires Lookup(t, w).Some? && Lookup(t, w).value.hfunc == HandleBc && Simplified(Lookup(t, w).value, w).Some?
    ensures
      var s := Simplified(Lookup(t, w).value, w).value;
      && Extract(O_BD, w) < WORD_LIMIT
      && NextStop(t, w, pc, regs, false) ==
           Some(if Says(s, regs) then TargetOf(SimpleOpcode(s), O_BD, pc, Extract(O_BD, w))
                else Wrap(pc + 4))
  {
    var e := Lookup(t, w).value;
    var s := Simplified(e, w).value;
    HandlerRow(t, w);
    SimplifiedIs(e, w);
    SimpleConditions(w, regs);
    SimplePrinted(s, w, pc, regs);
    StopsAre(t, w, pc, regs);
  }

  // ----- assembled branches -----

  lemma KindOfRow(t: seq<Opcode>, w: Word)
    requires Searchable(t) && Lookup(t, w).Some?
    ensures IsB(Lookup(t, w).value.opcode) ==> Isa.KindOf(w) == Isa.Branch
    ensures IsBc(Lookup(t, w).value.opcode) ==> Isa.KindOf(w) == Isa.BranchConditional
  {
    LookupFinds(t, w);
    var e := Lookup(t, w).value;
    var i :| 0 <= i < |t| && t[i] == e;
    PrimaryOfMasked(w, e.mask);
    PrimaryOfBranch(e.opcode);
  }

  /** Where an address field parsed from a target leads. */
  lemma ParsedTarget(e: Opcode, f: Operand, pc: Word, txt: string, field: nat)
    requires f.bits == 14 || f.bits == 24
    requires field == Assembler.AddressData(pc, e, f, txt) % Pow2(f.bits)
    ensures field < WORD_LIMIT
    ensures TargetOf(e, f, pc, field) == ReadNumber(txt) <==>
              OperandRoundTrip.FitsField(f, OperandRoundTrip.Distance(pc, e, ReadNumber(txt)))
  {
    OperandRoundTrip.AddressDataFits(pc, e, f, txt);
    SmallMod(Assembler.AddressData(pc, e, f, txt), Pow2(f.bits));
    assert field == Assembler.AddressData(pc, e, f, txt);
    OperandRoundTrip.AddressParsePrint(e, f, pc, txt);
  }

  /** The line assembled, and the word that came out. */
  ghost predicate Assembled(t: seq<Opcode>, m: seq<Sprs.SprInfo>, pc: Word, text: string, w: Word) {
    RoundTrip.WellFormed(t) && Assembler.Asm(t, m, pc, text) == Assembler.Ok(w)
  }

  lemma DecodedOperand(t: seq<Opcode>, m: seq<Sprs.SprInfo>, pc: Word, text: string, w: Word, j: nat)
    requires Assembled(t, m, pc, text, w)
    ensures Lookup(t, w).Some? && OperandsOk(Lookup(t, w).value)
    ensures
      var e := Lookup(t, w).value;
      j < |e.fields| && !IsSilent(e.fields[j]) ==>
        var data := Assembler.OperandData(m, pc, e, e.fields[j], Decoding.Nth(text, j + 1));
        data.Ok? && Extract(e.fields[j], w) == data.value % Pow2(e.fields[j].bits)
  {
    Decoding.AssembleDecode(t, m, pc, text);
  }

  lemma DecodedNumber(t: seq<Opcode>, m: seq<Sprs.SprInfo>, pc: Word, text: string, w: Word, j: nat, f: Operand)
    requires Assembled(t, m, pc, text, w) && Lookup(t, w).Some?
    requires j < |Lookup(t, w).value.fields| && Lookup(t, w).value.fields[j] == f && f.hint == Plain
    ensures Extract(f, w) == ReadNumber(Decoding.Nth(text, j + 1)) % Pow2(f.bits)
  {
    DecodedOperand(t, m, pc, text, w, j);
  }

  lemma DecodedAddress(t: seq<Opcode>, m: seq<Sprs.SprInfo>, pc: Word, text: string, w: Word, j: nat, f: Operand)
    requires Assembled(t, m, pc, text, w) && Lookup(t, w).Some?
    requires j < |Lookup(t, w).value.fields| && Lookup(t, w).value.fields[j] == f && f.hint == Addr && f.bits > 0
    ensures Extract(f, w) == Assembler.AddressData(pc, Lookup(t, w).value, f, Decoding.Nth(text, j + 1)) % Pow2(f.bits)
  {
    DecodedOperand(t, m, pc, text, w, j);
  }

  lemma BRow(t: seq<Opcode>, w: Word)
    requires Searchable(t) && HasBranches(t) && Lookup(t, w).Some? && IsB(Lookup(t, w).value.opcode)
    ensures Isa.KindOf(w) == Isa.Branch
    ensures var fields := Lookup(t, w).value.fields; |fields| == 3 && fields[0] == O_LI
  {
    KindOfRow(t, w);
    LookupB(t, w);
  }

  lemma BcRow(t: seq<Opcode>, w: Word)
    requires Searchable(t) && HasBranches(t) && Lookup(t, w).Some? && IsBc(Lookup(t, w).value.opcode)
    ensures Isa.KindOf(w) == Isa.BranchConditional
    ensures
      var fields := Lookup(t, w).value.fields;
      |fields| == 5 && fields[0] == O_BO && fields[1] == O_BI && fields[2] == O_BD
  {
    KindOfRow(t, w);
    LookupBc(t, w);
  }

  lemma BOperand(t: seq<Opcode>, m: seq<Sprs.SprInfo>, pc: Word, text: string, w: Word)
    requires HasBranches(t) && Assembled(t, m, pc, text, w)
    requires Lookup(t, w).Some? && IsB(Lookup(t, w).value.opcode)
    ensures Isa.KindOf(w) == Isa.Branch
    ensures Extract(O_LI, w) == Assembler.AddressData(pc, Lookup(t, w).value, O_LI, Decoding.Nth(text, 1)) % Pow2(24)
  {
    BRow(t, w);
    DecodedAddress(t, m, pc, text, w, 0, O_LI);
  }

  lemma BcOperands(t: seq<Opcode>, m: seq<Sprs.SprInfo>, pc: Word, text: string, w: Word)
    requires HasBranches(t) && Assembled(t, m, pc, text, w)
    requires Lookup(t, w).Some? && IsBc(Lookup(t, w).value.opcode)
    ensures Isa.KindOf(w) == Isa.BranchConditional
    ensures Isa.BO(w) == ReadNumber(Decoding.Nth(text, 1)) % 32 && Isa.BI(w) == ReadNumber(Decoding.Nth(text, 2)) % 32
    ensures Extract(O_BD, w) == Assembler.AddressData(pc, Lookup(t, w).value, O_BD, Decoding.Nth(text, 3)) % Pow2(14)
  {
    BcRow(t, w);
    DecodedNumber(t, m, pc, text, w, 0, O_BO);
    DecodedNumber(t, m, pc, text, w, 1, O_BI);
    DecodedAddress(t, m, pc, text, w, 2, O_BD);
    assert Pow2(5) == 32 by { PowersOfTwo(); }
    SameFields(w);
  }

  /** Stepping at an assembled b, bl, ba or bla goes to the target in its text exactly when the
      target is an aligned address that the field can reach. */
  lemma AssembleThenStepB(t: seq<Opcode>, m: seq<Sprs.SprInfo>, text: string, w: Word, pc: Word, regs: PtRegs)
    requires HasBranches(t) && Assembled(t, m, pc, text, w)
    requires Lookup(t, w).Some? && IsB(Lookup(t, w).value.opcode)
    ensures
      var target := ReadNumber(Decoding.Nth(text, 1));
      NextStop(t, w, pc, regs, false) == Some(target) <==>
        OperandRoundTrip.FitsField(O_LI, OperandRoundTrip.Distance(pc, Lookup(t, w).value, target))
  {
    BOperand(t, m, pc, text, w);
    ParsedTarget(Lookup(t, w).value, O_LI, pc, Decoding.Nth(text, 1), Extract(O_LI, w));
    PrintedTargetIsStep(t, w, pc, regs);
  }

  /** The same for bc, bcl, bca and bcla: when the conditions hold for the BO and BI of the text. */
  lemma AssembleThenStepBc(t: seq<Opcode>, m: seq<Sprs.SprInfo>, text: string, w: Word, pc: Word, regs: PtRegs)
    requires HasBranches(t) && Assembled(t, m, pc, text, w)
    requires Lookup(t, w).Some? && IsBc(Lookup(t, w).value.opcode)
    ensures
      var bo, bi := ReadNumber(Decoding.Nth(text, 1)) % 32, ReadNumber(Decoding.Nth(text, 2)) % 32;
      var target := ReadNumber(Decoding.Nth(text, 3));
      if SwitchTaken(bo, bi, regs.ctr, regs.ccr) then
        NextStop(t, w, pc, regs, false) == Some(target) <==>
          OperandRoundTrip.FitsField(O_BD, OperandRoundTrip.Distance(pc, Lookup(t, w).value, target))
      else NextStop(t, w, pc, regs, false) == Some(Wrap(pc + 4))
  {
    BcOperands(t, m, pc, text, w);
    ParsedTarget(Lookup(t, w).value, O_BD, pc, Decoding.Nth(text, 3), Extract(O_BD, w));
    SameConditions(w, regs.ctr, regs.ccr);
    PrintedTargetIsStep(t, w, pc, regs);
  }
}
