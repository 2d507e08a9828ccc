/** The shipped tables: the theorems apply to them, and where the round trip fails on them. */
module Shipped {
  import opened Bits
  import opened Ppc
  import OperandLists
  import OpcodeSearch
  import opened Sprs
  import SprMap
  import opened OpcodeTable
  import OpcodeTableChecks
  import Assembler
  import opened Disassembler
  import OperandRoundTrip
  import RoundTrip
  import Reassembly
  import opened Stepper
  import Isa = PowerIsa
  import StepRefinesIsa
  import DForm
  import SteppingText

  // ----- the branch rows -----

  lemma PartsInTable(e: Opcode)
    ensures e in PART1 || e in PART2 || e in PART3 ==> e in OPCODES
  {
  }

  lemma RowIn(t: seq<Opcode>, e: Opcode, opcode: Word, mask: Word, fields: seq<Operand>, name: string, relative: bool)
    requires e in t && IsRow(e, opcode, mask, fields, name, relative)
    ensures HasRow(t, opcode, mask, fields, name, relative)
  {
  }

  lemma BcRowIs(aa: nat, lk: nat)
    requires aa < 2 && lk < 2
    ensures IsRow(PART1[2 * aa + lk], BOpcode(16, aa, lk), B_MASK, OperandLists.BC_FIELDS, BranchName("bc", aa, lk), aa == 0)
  {
  }

  lemma BRowIs(aa: nat, lk: nat)
    requires aa < 2 && lk < 2
    ensures IsRow(PART1[5 + 2 * aa + lk], IOpcode(18, aa, lk), I_MASK, OperandLists.B_FIELDS, BranchName("b", aa, lk), aa == 0)
  {
  }

  lemma BclrRowIs(lk: nat)
    requires lk < 2
    ensures IsRow(PART2[1 + lk], XlOpcode(19, 16, lk), XL_MASK, OperandLists.BCXR_FIELDS, BranchName("bclr", 0, lk), false)
  {
  }

  lemma BcctrRowIs(lk: nat)
    requires lk < 2
    ensures IsRow(PART3[4 + lk], XlOpcode(19, 528, lk), XL_MASK, OperandLists.BCXR_FIELDS, BranchName("bcctr", 0, lk), false)
  {
  }

  lemma DirectRows(t: seq<Opcode>, aa: nat, lk: nat)
    requires aa < 2 && lk < 2
    requires PART1[2 * aa + lk] in t && PART1[5 + 2 * aa + lk] in t
    ensures HasDirect(t, aa, lk)
  {
    BcRowIs(aa, lk);
    BRowIs(aa, lk);
    RowIn(t, PART1[2 * aa + lk], BOpcode(16, aa, lk), B_MASK, OperandLists.BC_FIELDS, BranchName("bc", aa, lk), aa == 0);
    RowIn(t, PART1[5 + 2 * aa + lk], IOpcode(18, aa, lk), I_MASK, OperandLists.B_FIELDS, BranchName("b", aa, lk), aa == 0);
  }

  lemma IndirectRows(t: seq<Opcode>, lk: nat)
    requires lk < 2
    requires PART2[1 + lk] in t && PART3[4 + lk] in t
    ensures HasIndirect(t, lk)
  {
    BclrRowIs(lk);
    BcctrRowIs(lk);
    RowIn(t, PART2[1 + lk], XlOpcode(19, 16, lk), XL_MASK, OperandLists.BCXR_FIELDS, BranchName("bclr", 0, lk), false);
    RowIn(t, PART3[4 + lk], XlOpcode(19, 528, lk), XL_MASK, OperandLists.BCXR_FIELDS, BranchName("bcctr", 0, lk), false);
  }

  lemma BranchRows(t: seq<Opcode>)
    requires forall e | e in PART1 || e in PART2 || e in PART3 :: e in t
    ensures HasBranches(t)
  {
    forall aa: nat, lk: nat | aa < 2 && lk < 2 ensures HasDirect(t, aa, lk) {
      DirectRows(t, aa, lk);
    }
    forall lk: nat | lk < 2 ensures HasIndirect(t, lk) {
      IndirectRows(t, lk);
    }
  }

  lemma HandlerRows(t: seq<Opcode>)
    requires OpcodeTableChecks.RowsOk(t)
    ensures SteppingText.HandlerIsBc(t)
  {
    PowersOfTwo();
    forall i | 0 <= i < |t| && t[i].hfunc == HandleBc ensures t[i].mask == B_MASK {
      assert OpcodeTableChecks.RowOk(t[i]) && OpcodeTableChecks.HandlerOk(t[i]);
    }
  }

  /** Everything that the theorems about the assembler, the disassembler and the stepper require of
      their tables holds of the shipped ones. */
  lemma ShippedTables()
    ensures RoundTrip.WellFormed(OPCODES) && Reassembly.Unlisted(OPCODES) && HasBranches(OPCODES) && SteppingText.HandlerIsBc(OPCODES)
    ensures SprsOk(SprMap.SPR_MAP)
  {
    OpcodeTableChecks.ShippedTableWellFormed();
    HandlerRows(OPCODES);
    SprMap.SprMapOk();
    forall e | e in PART1 || e in PART2 || e in PART3 ensures e in OPCODES {
      PartsInTable(e);
    }
    BranchRows(OPCODES);
  }

  /** The rows of addi and lwz. */
  lemma DFormRows()
    ensures DForm.ADDI in OPCODES && DForm.LWZ in OPCODES
  {
    AddiIsRow(PART0[7]);
    LwzIsRow(PART21[1]);
    InTable21(PART0[7]);
    InTable21(PART21[1]);
  }

  lemma AddiIsRow(e: Opcode)
    requires e == PART0[7]
    ensures e == DForm.ADDI
  {
  }

  lemma LwzIsRow(e: Opcode)
    requires e == PART21[1]
    ensures e == DForm.LWZ
  {
  }

  lemma InTable21(e: Opcode)
    requires e in PART0 || e in PART21
    ensures e in OPCODES
  {
  }

  // ----- words that survive, and words that do not -----

  /** What the round trip needs of the tables. */
  ghost predicate Applicable(t: seq<Opcode>, m: seq<SprInfo>) { RoundTrip.WellFormed(t) && Reassembly.Unlisted(t) && SprsOk(m) }

  ghost predicate Survives(t: seq<Opcode>, m: seq<SprInfo>, w: Word, virt: Word, radix: Radix, simple: bool, raw: bool)
    requires TableOk(t)
  {
    Assembler.Asm(t, m, virt, Reassembly.Shown(t, m, virt, w, radix, simple, raw)) == Assembler.Ok(w)
  }

  lemma SurvivesIff(t: seq<Opcode>, m: seq<SprInfo>, e: Opcode, w: Word, virt: Word, radix: Radix, simple: bool, raw: bool)
    requires Applicable(t, m) && e in t && Matches(e, w)
    ensures Survives(t, m, w, virt, radix, simple, raw) <==>
              Reassembly.ShownAsRow(t, w, simple) && Reassembly.Reassembles(m, e, w, radix)
    ensures Reassembly.ShownAsRow(t, w, simple) <==> !(simple && e.hfunc == HandleBc && Simplified(e, w).Some?)
  {
    var k :| 0 <= k < |t| && t[k] == e;
    OpcodeSearch.LookupIs(t, w, k);
    Reassembly.DisassembleAssemble(t, m, virt, w, radix, simple, raw);
  }

  lemma BranchReassembles(m: seq<SprInfo>, e: Opcode, w: Word, radix: Radix)
    requires e.fields == OperandLists.B_FIELDS && e.mask == I_MASK && |e.name| <= 3
    ensures Reassembly.Reassembles(m, e, w, radix) && Simplified(e, w).None?
  {
    PowersOfTwo();
    assert GetOperandValue(e, w, O_BO).None?;
    forall i: nat | Bit(w, i) ensures RoundTrip.Covered(e, i) {
      MaskBits(2, i);
      if i >= 32 { HighBitsClear(w, 32, i); }
      assert !IsSilent(e.fields[0]) && (2 <= i < 26 ==> InField(e.fields[0], i));
    }
  }

  /** Every branch with primary opcode 18 survives, with every option: all its bits are printed. */
  lemma BranchSurvives(t: seq<Opcode>, m: seq<SprInfo>, w: Word, virt: Word, radix: Radix, simple: bool, raw: bool)
    requires Applicable(t, m) && HasBranches(t) && Isa.KindOf(w) == Isa.Branch
    ensures Survives(t, m, w, virt, radix, simple, raw)
  {
    StepRefinesIsa.LookupB(t, w);
    OpcodeSearch.LookupFinds(t, w);
    BranchReassembles(m, OpcodeSearch.Lookup(t, w).value, w, radix);
    SurvivesIff(t, m, OpcodeSearch.Lookup(t, w).value, w, virt, radix, simple, raw);
  }

  // The four ways to be lost.

  /** The word is not what its text is assembled to. */
  ghost predicate Lost(t: seq<Opcode>, m: seq<SprInfo>, w: Word, virt: Word, radix: Radix, simple: bool, raw: bool) {
    TableOk(t) && !Survives(t, m, w, virt, radix, simple, raw)
  }

  ghost predicate InTable(t: seq<Opcode>, m: seq<SprInfo>, e: Opcode, w: Word) {
    Applicable(t, m) && e in t && Matches(e, w)
  }

  lemma UnreadableLost(t: seq<Opcode>, m: seq<SprInfo>, e: Opcode, w: Word, virt: Word, radix: Radix, simple: bool, raw: bool)
    requires InTable(t, m, e, w) && !RoundTrip.AllReadable(m, e, w, radix)
    ensures Lost(t, m, w, virt, radix, simple, raw)
  {
    SurvivesIff(t, m, e, w, virt, radix, simple, raw);
  }

  lemma StrayBitLost(t: seq<Opcode>, m: seq<SprInfo>, e: Opcode, w: Word, virt: Word, radix: Radix, simple: bool, raw: bool, i: nat)
    requires InTable(t, m, e, w) && Bit(w, i) && !RoundTrip.Covered(e, i)
    ensures Lost(t, m, w, virt, radix, simple, raw)
  {
    SurvivesIff(t, m, e, w, virt, radix, simple, raw);
  }

  lemma RunTogetherLost(t: seq<Opcode>, m: seq<SprInfo>, e: Opcode, w: Word, virt: Word, radix: Radix, simple: bool, raw: bool)
    requires InTable(t, m, e, w) && Reassembly.RunsTogether(e, w)
    ensures Lost(t, m, w, virt, radix, simple, raw)
  {
    SurvivesIff(t, m, e, w, virt, radix, simple, raw);
  }

  lemma OffsetLost(t: seq<Opcode>, m: seq<SprInfo>, e: Opcode, w: Word, virt: Word, radix: Radix, simple: bool, raw: bool)
    requires InTable(t, m, e, w) && Reassembly.HasOffset(e)
    ensures Lost(t, m, w, virt, radix, simple, raw)
  {
    SurvivesIff(t, m, e, w, virt, radix, simple, raw);
  }

  // One word of the shipped table for each way, and one in octal.

  const MFSPR_R3_LR: Word := 0x7c68_02a6
  const LWZ_R3_8_R4: Word := 0x8064_0008
  const SUBFZEO_R3_R4: Word := 0x7c64_0591
  const MULLI_R3_R4_8: Word := 0x1c64_0008
  const ISYNC_BIT_11: Word := 0x4c00_092c

  lemma MatchesForm(e: Opcode, w: Word, primary: nat, low: nat, k: nat)
    requires e.opcode == 0x400_0000 * primary + low && e.mask == 0xfc00_0000 + Ones(k) && k <= 26
    requires Primary(w) == primary && w % Pow2(k) == low
    ensures Matches(e, w)
  {
    StepRefinesIsa.AndFormMask(w, k);
  }

  /** Some row with these operands matches the word, and the field holds the value. */
  ghost predicate Has(t: seq<Opcode>, w: Word, fields: seq<Operand>, field: int, value: int) {
    exists e | e in t :: Matches(e, w) && e.fields == fields && field == value
  }

  lemma HasRowFor(t: seq<Opcode>, e: Opcode, w: Word, fields: seq<Operand>, field: int, value: int)
    requires e in t && Matches(e, w) && e.fields == fields && field == value
    ensures Has(t, w, fields, field, value)
  {
  }

  lemma MfsprMatches(e: Opcode)
    requires e == PART12[6]
    ensures Matches(e, MFSPR_R3_LR) && e.fields == [O_rD, O_spr]
  {
    PowersOfTwo();
    MatchesForm(e, MFSPR_R3_LR, 31, 678, 11);
  }

  lemma MfsprRow(t: seq<Opcode>, e: Opcode)
    requires e in t && Matches(e, MFSPR_R3_LR) && e.fields == [O_rD, O_spr]
    ensures Has(t, MFSPR_R3_LR, [O_rD, O_spr], MFSPR_R3_LR / 2048 % 1024, 256)
  {
    HasRowFor(t, e, MFSPR_R3_LR, [O_rD, O_spr], MFSPR_R3_LR / 2048 % 1024, 256);
  }

  /** The register number 8 is named LR: it is printed in capitals and looked up in lower case. */
  lemma LinkRegisterUnreadable(m: seq<SprInfo>, e: Opcode, w: Word, radix: Radix)
    requires SprMap.SPRS0[1] in m && e.fields == [O_rD, O_spr] && w / 2048 % 1024 == 256
    ensures !RoundTrip.AllReadable(m, e, w, radix)
  {
    SprField(w);
    LinkRegister();
    NamedUnreadable(m, SprMap.SPRS0[1], e, 1, O_spr, w, 256, radix);
  }

  lemma LinkRegister()
    ensures Swap(256) == SprMap.SPRS0[1].val && O_spr.hint == Spr
  {
  }

  lemma SprField(w: Word)
    ensures Extract(O_spr, w) == w / 2048 % 1024
  {
    PowersOfTwo();
    FieldIsModulo(w, 11, 10);
  }

  lemma NamedUnreadable(m: seq<SprInfo>, info: SprInfo, e: Opcode, k: nat, f: Operand, w: Word, operand: nat, radix: Radix)
    requires info in m && k < |e.fields| && e.fields[k] == f && f.hint == Spr
    requires Extract(f, w) == operand && Swap(operand) == info.val
    ensures !RoundTrip.AllReadable(m, e, w, radix)
  {
    var i :| 0 <= i < |m| && m[i] == info;
    assert m[i].val == Swap(operand);
    assert !OperandRoundTrip.Readable(m, f, operand, radix);
  }

  lemma LwzRow(e: Opcode)
    requires e == PART21[1]
    ensures Reassembly.HasOffset(e) && Matches(e, LWZ_R3_8_R4)
  {
    MatchesForm(e, LWZ_R3_8_R4, 32, 0, 0);
    assert e.fields[1] == O_d;
  }

  lemma SubfzeoRow(e: Opcode)
    requires e == PART17[6]
    ensures Reassembly.RunsTogether(e, SUBFZEO_R3_R4) && Matches(e, SUBFZEO_R3_R4)
  {
    PowersOfTwo();
    MatchesForm(e, SUBFZEO_R3_R4, 31, 0x591, 11);
  }

  lemma MulliMatches(e: Opcode)
    requires e == PART0[1]
    ensures Matches(e, MULLI_R3_R4_8) && e.fields == [O_rD, O_rA, O_SIMM]
  {
    MatchesForm(e, MULLI_R3_R4_8, 7, 0, 0);
  }

  lemma MulliRow(t: seq<Opcode>, e: Opcode)
    requires e in t && Matches(e, MULLI_R3_R4_8) && e.fields == [O_rD, O_rA, O_SIMM]
    ensures Has(t, MULLI_R3_R4_8, [O_rD, O_rA, O_SIMM], MULLI_R3_R4_8 % 0x1_0000, 8)
  {
    HasRowFor(t, e, MULLI_R3_R4_8, [O_rD, O_rA, O_SIMM], MULLI_R3_R4_8 % 0x1_0000, 8);
  }

  lemma OctalUnreadable(m: seq<SprInfo>, e: Opcode, w: Word)
    requires e.fields == [O_rD, O_rA, O_SIMM] && w % 0x1_0000 != 0
    ensures !RoundTrip.AllReadable(m, e, w, Octal)
  {
    PowersOfTwo();
    FieldIsModulo(w, 0, 16);
    assert e.fields[2] == O_SIMM && !OperandRoundTrip.Readable(m, O_SIMM, Extract(O_SIMM, w), Octal);
  }

  lemma IsyncRow(e: Opcode)
    requires e == PART2[6]
    ensures Bit(ISYNC_BIT_11, 11) && !RoundTrip.Covered(e, 11) && Matches(e, ISYNC_BIT_11)
  {
    PowersOfTwo();
    MatchesForm(e, ISYNC_BIT_11, 19, 300, 11);
    MaskBits(11, 11);
  }

  /** A negative displacement is shown without its sign bit. */
  lemma ShippedMinusEight(virt: Word, simple: bool, raw: bool)
    ensures Shows(OPCODES, SprMap.SPR_MAP, virt, DForm.LWZ_R3_MINUS_8_R1, simple, raw, "lwz     r3,0x7ff8(r1)")
  {
    ShippedTables();
    DFormRows();
    MinusEightShown(OPCODES, SprMap.SPR_MAP, virt, DForm.LWZ_R3_MINUS_8_R1, simple, raw);
  }

  ghost predicate Shows(t: seq<Opcode>, m: seq<SprInfo>, virt: Word, w: Word, simple: bool, raw: bool, text: string) {
    TableOk(t) && Reassembly.Shown(t, m, virt, w, Hex, simple, raw) == text
  }

  lemma MinusEightShown(t: seq<Opcode>, m: seq<SprInfo>, virt: Word, w: Word, simple: bool, raw: bool)
    requires RoundTrip.WellFormed(t) && DForm.LWZ in t && w == DForm.LWZ_R3_MINUS_8_R1
    ensures Shows(t, m, virt, w, simple, raw, "lwz     r3,0x7ff8(r1)")
  {
    MatchesForm(DForm.LWZ, w, 32, 0, 0);
    DForm.LwzMinusEight(t, m, virt, w, simple, raw);
  }

  lemma LosesNamedSpr(t: seq<Opcode>, m: seq<SprInfo>, w: Word, virt: Word, radix: Radix, simple: bool, raw: bool)
    requires Applicable(t, m) && SprMap.SPRS0[1] in m
    requires Has(t, w, [O_rD, O_spr], w / 2048 % 1024, 256)
    ensures Lost(t, m, w, virt, radix, simple, raw)
  {
    var e :| e in t && Matches(e, w) && e.fields == [O_rD, O_spr];
    LinkRegisterUnreadable(m, e, w, radix);
    UnreadableLost(t, m, e, w, virt, radix, simple, raw);
  }

  lemma LosesOffset(t: seq<Opcode>, m: seq<SprInfo>, virt: Word, radix: Radix, simple: bool, raw: bool)
    requires Applicable(t, m) && PART21[1] in t
    ensures Lost(t, m, LWZ_R3_8_R4, virt, radix, simple, raw)
  {
    LwzRow(PART21[1]);
    OffsetLost(t, m, PART21[1], LWZ_R3_8_R4, virt, radix, simple, raw);
  }

  lemma LosesEightLetters(t: seq<Opcode>, m: seq<SprInfo>, virt: Word, radix: Radix, simple: bool, raw: bool)
    requires Applicable(t, m) && PART17[6] in t
    ensures Lost(t, m, SUBFZEO_R3_R4, virt, radix, simple, raw)
  {
    SubfzeoRow(PART17[6]);
    RunTogetherLost(t, m, PART17[6], SUBFZEO_R3_R4, virt, radix, simple, raw);
  }

  lemma LosesStrayBit(t: seq<Opcode>, m: seq<SprInfo>, virt: Word, radix: Radix, simple: bool, raw: bool)
    requires Applicable(t, m) && PART2[6] in t
    ensures Lost(t, m, ISYNC_BIT_11, virt, radix, simple, raw)
  {
    IsyncRow(PART2[6]);
    StrayBitLost(t, m, PART2[6], ISYNC_BIT_11, virt, radix, simple, raw, 11);
  }

  lemma LosesOctal(t: seq<Opcode>, m: seq<SprInfo>, w: Word, virt: Word, simple: bool, raw: bool)
    requires Applicable(t, m)
    requires Has(t, w, [O_rD, O_rA, O_SIMM], w % 0x1_0000, 8)
    ensures Lost(t, m, w, virt, Octal, simple, raw)
  {
    var e :| e in t && Matches(e, w) && e.fields == [O_rD, O_rA, O_SIMM];
    OctalUnreadable(m, e, w);
    UnreadableLost(t, m, e, w, virt, Octal, simple, raw);
  }

  lemma NumberRows(t: seq<Opcode>, mfspr: Opcode, mulli: Opcode)
    requires mfspr == PART12[6] && mfspr in t && mulli == PART0[1] && mulli in t
    ensures Has(t, MFSPR_R3_LR, [O_rD, O_spr], MFSPR_R3_LR / 2048 % 1024, 256)
    ensures Has(t, MULLI_R3_R4_8, [O_rD, O_rA, O_SIMM], MULLI_R3_R4_8 % 0x1_0000, 8)
  {
    MfsprMatches(mfspr);
    MfsprRow(t, mfspr);
    MulliMatches(mulli);
    MulliRow(t, mulli);
  }

  lemma LossesOf(t: seq<Opcode>, m: seq<SprInfo>, virt: Word, radix: Radix, simple: bool, raw: bool)
    requires Applicable(t, m) && SprMap.SPRS0[1] in m
    requires PART0[1] in t && PART2[6] in t && PART12[6] in t && PART17[6] in t && PART21[1] in t
    ensures Lost(t, m, MFSPR_R3_LR, virt, radix, simple, raw)
    ensures Lost(t, m, LWZ_R3_8_R4, virt, radix, simple, raw)
    ensures Lost(t, m, SUBFZEO_R3_R4, virt, radix, simple, raw)
    ensures Lost(t, m, ISYNC_BIT_11, virt, radix, simple, raw)
    ensures Lost(t, m, MULLI_R3_R4_8, virt, Octal, simple, raw)
  {
    NumberRows(t, PART12[6], PART0[1]);
    LosesNamedSpr(t, m, MFSPR_R3_LR, virt, radix, simple, raw);
    LosesOffset(t, m, virt, radix, simple, raw);
    LosesEightLetters(t, m, virt, radix, simple, raw);
    LosesStrayBit(t, m, virt, radix, simple, raw);
    LosesOctal(t, m, MULLI_R3_R4_8, virt, simple, raw);
  }

  lemma RowsInTable()
    ensures PART0[1] in OPCODES && PART2[6] in OPCODES && PART12[6] in OPCODES && PART17[6] in OPCODES && PART21[1] in OPCODES
  {
  }

  lemma RegisterInMap()
    ensures SprMap.SPRS0[1] in SprMap.SPR_MAP
  {
  }

  lemma LossesIn(t: seq<Opcode>, m: seq<SprInfo>, virt: Word, radix: Radix, simple: bool, raw: bool)
    requires t == OPCODES && m == SprMap.SPR_MAP
    ensures Lost(t, m, MFSPR_R3_LR, virt, radix, simple, raw)
    ensures Lost(t, m, LWZ_R3_8_R4, virt, radix, simple, raw)
    ensures Lost(t, m, SUBFZEO_R3_R4, virt, radix, simple, raw)
    ensures Lost(t, m, ISYNC_BIT_11, virt, radix, simple, raw)
    ensures Lost(t, m, MULLI_R3_R4_8, virt, Octal, simple, raw)
  {
    ShippedTables();
    RowsInTable();
    RegisterInMap();
    LossesOf(t, m, virt, radix, simple, raw);
  }

  /** On the shipped tables, at every address and with every option. */
  lemma ShippedLosses(virt: Word, radix: Radix, simple: bool, raw: bool)
    ensures Lost(OPCODES, SprMap.SPR_MAP, MFSPR_R3_LR, virt, radix, simple, raw)
    ensures Lost(OPCODES, SprMap.SPR_MAP, LWZ_R3_8_R4, virt, radix, simple, raw)
    ensures Lost(OPCODES, SprMap.SPR_MAP, SUBFZEO_R3_R4, virt, radix, simple, raw)
    ensures Lost(OPCODES, SprMap.SPR_MAP, ISYNC_BIT_11, virt, radix, simple, raw)
    ensures Lost(OPCODES, SprMap.SPR_MAP, MULLI_R3_R4_8, virt, Octal, simple, raw)
  {
    LossesIn(OPCODES, SprMap.SPR_MAP, virt, radix, simple, raw);
  }
}
