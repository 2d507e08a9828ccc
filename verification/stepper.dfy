/** Single stepping: the address of the instruction that is executed next, and the address to stop
    at when subroutine calls are stepped over. */
module Stepper {
  import opened Wrappers
  import opened Bits
  import opened Ppc
  import opened OperandLists
  import OpcodeSearch
  import opened Text
  import Disassembler

  datatype PtRegs = PtRegs(nip: Word, ctr: Word, link: Word, ccr: Word)

  predicate IsRow(e: Opcode, opcode: Word, mask: Word, fields: seq<Operand>, name: string, relative: bool) {
    e.opcode == opcode && e.mask == mask && e.fields == fields && e.name == name && Relative(e) == relative
  }

  ghost predicate HasRow(t: seq<Opcode>, opcode: Word, mask: Word, fields: seq<Operand>, name: string, relative: bool) {
    exists e | e in t :: IsRow(e, opcode, mask, fields, name, relative)
  }

  /** `b`, `bl`, `ba`, `bla` and so on. */
  function BranchName(stem: string, aa: nat, lk: nat): string {
    stem + (if lk == 1 then "l" else "") + (if aa == 1 then "a" else "")
  }

  ghost predicate HasDirect(t: seq<Opcode>, aa: nat, lk: nat)
    requires aa < 2 && lk < 2
  {
    && HasRow(t, BOpcode(16, aa, lk), B_MASK, BC_FIELDS, BranchName("bc", aa, lk), aa == 0)
    && HasRow(t, IOpcode(18, aa, lk), I_MASK, B_FIELDS, BranchName("b", aa, lk), aa == 0)
  }

  ghost predicate HasIndirect(t: seq<Opcode>, lk: nat)
    requires lk < 2
  {
    && HasRow(t, XlOpcode(19, 16, lk), XL_MASK, BCXR_FIELDS, BranchName("bclr", 0, lk), false)
    && HasRow(t, XlOpcode(19, 528, lk), XL_MASK, BCXR_FIELDS, BranchName("bcctr", 0, lk), false)
  }

  /** The table has the branch rows that find_next_address names. */
  ghost predicate HasBranches(t: seq<Opcode>) {
    && (forall aa: nat, lk: nat | aa < 2 && lk < 2 :: HasDirect(t, aa, lk))
    && (forall lk: nat | lk < 2 :: HasIndirect(t, lk))
  }

  // ----- specification -----

  /** The operands of a branch; `Missing` when get_operand_value does not find one of them. */
  datatype Decoded =
    | Missing
    | NotBranch
    | Branch(addr: Word, aa: nat, lk: nat, conditional: bool, bo: nat, bi: nat)

  predicate IsBc(opcode: Word) {
    opcode in {BOpcode(16, 0, 0), BOpcode(16, 0, 1), BOpcode(16, 1, 0), BOpcode(16, 1, 1)}
  }

  predicate IsB(opcode: Word) {
    opcode in {IOpcode(18, 0, 0), IOpcode(18, 0, 1), IOpcode(18, 1, 0), IOpcode(18, 1, 1)}
  }

  predicate IsBcctr(opcode: Word) { opcode in {XlOpcode(19, 528, 0), XlOpcode(19, 528, 1)} }

  predicate IsBclr(opcode: Word) { opcode in {XlOpcode(19, 16, 0), XlOpcode(19, 16, 1)} }

  /** `if (addr & (1 << (bits - 1))) addr -= 1 << bits; addr <<= 2;` */
  function Displacement(field: nat, bits: nat): Word
    requires bits > 0 && field < WORD_LIMIT
  {
    Wrap(Disassembler.Extended(field, bits) * 4)
  }

  predicate HasAll(e: Opcode, operands: seq<Operand>) {
    forall f | f in operands :: f in e.fields
  }

  function BcDecoded(e: Opcode, w: Word): Decoded {
    ExtractFits(O_BD, w);
    if HasAll(e, BC_FIELDS)
    then Branch(Displacement(Extract(O_BD, w), 14), Extract(O_AA, w), Extract(O_LK, w), true, Extract(O_BO, w), Extract(O_BI, w))
    else Missing
  }

  function BDecoded(e: Opcode, w: Word): Decoded {
    ExtractFits(O_LI, w);
    if HasAll(e, B_FIELDS)
    then Branch(Displacement(Extract(O_LI, w), 24), Extract(O_AA, w), Extract(O_LK, w), false, 0, 0)
    else Missing
  }

  function RegisterDecoded(e: Opcode, w: Word, addr: Word): Decoded {
    if HasAll(e, BCXR_FIELDS) then Branch(addr, 1, Extract(O_LK, w), true, Extract(O_BO, w), Extract(O_BI, w))
    else Missing
  }

  function Decode(e: Opcode, w: Word, ctr: Word, lr: Word): Decoded {
    if IsBc(e.opcode) then BcDecoded(e, w)
    else if IsB(e.opcode) then BDecoded(e, w)
    else if IsBcctr(e.opcode) then RegisterDecoded(e, w, ctr)
    else if IsBclr(e.opcode) then RegisterDecoded(e, w, lr)
    else NotBranch
  }

  /** The condition register bit that BI selects. */
  predicate CrSet(cr: Word, bi: nat)
    requires bi < 32
  {
    And(cr, Pow2(31 - bi)) != 0
  }

  /** Whether the switch over `(bo & 0x1e) >> 1` lets the branch be taken. */
  predicate SwitchTaken(bo: nat, bi: nat, ctr: Word, cr: Word)
    requires bi < 32
  {
    SwitchOn(Shr(And(bo, 0x1e), 1), bi, ctr, cr)
  }

  predicate SwitchOn(which: nat, bi: nat, ctr: Word, cr: Word)
    requires bi < 32
  {
    var left := Wrap(ctr as int - 1);
    match which
    case 0 => left != 0 && !CrSet(cr, bi)
    case 1 => left == 0 && !CrSet(cr, bi)
    case 2 => !CrSet(cr, bi)
    case 4 => left != 0 && CrSet(cr, bi)
    case 5 => left == 0 && CrSet(cr, bi)
    case 6 => CrSet(cr, bi)
    case 8 => left != 0
    case 9 => left == 0
    case 10 => true
    case _ => false
  }

  predicate BranchTaken(d: Decoded, ctr: Word, cr: Word)
    requires d.Branch? ==> d.bi < 32
  {
    d.Branch? && (!d.conditional || SwitchTaken(d.bo, d.bi, ctr, cr))
  }

  function StepAddress(d: Decoded, pc: Word, ctr: Word, cr: Word): Word
    requires d.Branch? ==> d.bi < 32
  {
    if BranchTaken(d, ctr, cr) then (if d.aa != 0 then d.addr else Wrap(d.addr + pc))
    else Wrap(pc + 4)
  }

  function NextAddress(d: Decoded, pc: Word, ctr: Word, cr: Word): Word
    requires d.Branch? ==> d.bi < 32
  {
    if BranchTaken(d, ctr, cr) && d.lk != 0 then Wrap(pc + 4) else StepAddress(d, pc, ctr, cr)
  }

  lemma DecodedBiFits(e: Opcode, w: Word, ctr: Word, lr: Word)
    ensures Decode(e, w, ctr, lr).Branch? ==> Decode(e, w, ctr, lr).bi < 32
  {
    BiFits(w);
  }

  lemma BiFits(w: Word)
    ensures Extract(O_BI, w) < 32
  {
    ExtractFits(O_BI, w);
    PowersOfTwo();
  }

  /** find_next_address for the instruction at `pc`: none when it or one of its operands is not
      known. */
  function NextStop(t: seq<Opcode>, instr: Word, pc: Word, regs: PtRegs, stepOver: bool): Option<Word> {
    match OpcodeSearch.Lookup(t, instr)
    case None => None
    case Some(e) =>
      DecodedBiFits(e, instr, regs.ctr, regs.link);
      var d := Decode(e, instr, regs.ctr, regs.link);
      if d.Missing? then None
      else if stepOver then Some(NextAddress(d, pc, regs.ctr, regs.ccr))
      else Some(StepAddress(d, pc, regs.ctr, regs.ccr))
  }

  // ----- implementation -----

  method Operands(e: Opcode, w: Word, operands: seq<Operand>) returns (ok: bool)
    ensures ok == HasAll(e, operands)
  {
    for i := 0 to |operands|
      invariant forall k | 0 <= k < i :: operands[k] in e.fields
    {
      var v := Disassembler.OperandValue(e, w, operands[i]);
      if v.None? {
        assert operands[i] in operands && operands[i] !in e.fields;
        return false;
      }
    }
    return true;
  }

  lemma WordBelow(nip: Word, cia: Word)
    requires cia % 4 == 0 && cia <= nip < cia + 4
    ensures nip / 4 * 4 == cia
  {
  }

  /** The instruction is the one that `nip` points into. */
  method FindNextAddress(t: seq<Opcode>, memory: Word -> Word, regs: PtRegs, stepOver: bool) returns (nextaddr: Option<Word>)
    requires OpcodeSearch.Searchable(t)
    ensures forall cia: Word | cia % 4 == 0 && cia <= regs.nip < cia + 4 ::
              nextaddr == NextStop(t, memory(cia), cia, regs, stepOver)
  {
    // nip & 0xfffffffc
    var pc: Word := regs.nip / 4 * 4;
    nextaddr := StopBehind(t, memory(pc), pc, regs, stepOver);
    forall cia: Word | cia % 4 == 0 && cia <= regs.nip < cia + 4 ensures cia == pc {
      WordBelow(regs.nip, cia);
    }
  }

  method StopBehind(t: seq<Opcode>, instr: Word, pc: Word, regs: PtRegs, stepOver: bool) returns (nextaddr: Option<Word>)
    requires OpcodeSearch.Searchable(t)
    ensures nextaddr == NextStop(t, instr, pc, regs, stepOver)
  {
    var op := OpcodeSearch.FindOpcode(t, instr);
    if op.None? {
      return None;
    }
    var e := op.value;
    var d := DecodeBranch(e, instr, regs);
    if d.Missing? {
      return None;
    }
    DecodedBiFits(e, instr, regs.ctr, regs.link);
    var next, step := Destinations(d, pc, regs);
    return Some(if stepOver then next else step);
  }

  /** The end of find_next_address: where a decoded instruction leads. */
  method Destinations(d: Decoded, pc: Word, regs: PtRegs) returns (next: Word, step: Word)
    requires d.Branch? ==> d.bi < 32
    ensures step == StepAddress(d, pc, regs.ctr, regs.ccr)
    ensures next == NextAddress(d, pc, regs.ctr, regs.ccr)
  {
    var taken := d.Branch?;
    if d.Branch? && d.conditional {
      taken := Conditions(d.bo, d.bi, regs.ctr, regs.ccr);
    }
    if taken {
      step := if d.aa != 0 then d.addr else Wrap(d.addr as int + pc);
      next := if d.lk != 0 then Wrap(pc as int + 4) else step;
    } else {
      step := Wrap(pc as int + 4);
      next := step;
    }
  }

  method DecodeBc(e: Opcode, w: Word) returns (d: Decoded)
    ensures d == BcDecoded(e, w)
  {
    var ok := Operands(e, w, BC_FIELDS);
    if !ok {
      return Missing;
    }
    ExtractFits(O_BD, w);
    var addr := ShiftedField(Extract(O_BD, w), 14);
    return Branch(addr, Extract(O_AA, w), Extract(O_LK, w), true, Extract(O_BO, w), Extract(O_BI, w));
  }

  method DecodeB(e: Opcode, w: Word) returns (d: Decoded)
    ensures d == BDecoded(e, w)
  {
    var ok := Operands(e, w, B_FIELDS);
    if !ok {
      return Missing;
    }
    ExtractFits(O_LI, w);
    var addr := ShiftedField(Extract(O_LI, w), 24);
    return Branch(addr, Extract(O_AA, w), Extract(O_LK, w), false, 0, 0);
  }

  method DecodeRegister(e: Opcode, w: Word, addr: Word) returns (d: Decoded)
    ensures d == RegisterDecoded(e, w, addr)
  {
    var ok := Operands(e, w, BCXR_FIELDS);
    if !ok {
      return Missing;
    }
    return Branch(addr, 1, Extract(O_LK, w), true, Extract(O_BO, w), Extract(O_BI, w));
  }

  /** The first switch of find_next_address. */
  method DecodeBranch(e: Opcode, w: Word, regs: PtRegs) returns (d: Decoded)
    ensures d == Decode(e, w, regs.ctr, regs.link)
  {
    if IsBc(e.opcode) {
      d := DecodeBc(e, w);
    } else if IsB(e.opcode) {
      d := DecodeB(e, w);
    } else if IsBcctr(e.opcode) {
      d := DecodeRegister(e, w, regs.ctr);
    } else if IsBclr(e.opcode) {
      d := DecodeRegister(e, w, regs.link);
    } else {
      d := NotBranch;
    }
  }

  method ShiftedField(field: nat, bits: nat) returns (addr: Word)
    requires bits > 0 && field < WORD_LIMIT
    ensures addr == Displacement(field, bits)
  {
    addr := field;
    if And(addr, Pow2(bits - 1)) != 0 {
      addr := Wrap(addr as int - Pow2(bits));
    }
    addr := Wrap(addr as int * 4);
  }

  /** The second switch of find_next_address. */
  method Conditions(bo: nat, bi: nat, ctrReg: Word, cr: Word) returns (ok: bool)
    requires bi < 32
    ensures ok == SwitchTaken(bo, bi, ctrReg, cr)
  {
    var ctr := ctrReg;
    var ctrOk, condOk := false, false;
    var crBit := And(cr, Pow2(31 - bi)) != 0;
    var which := Shr(And(bo, 0x1e), 1);
    if which == 0 || which == 4 {
      ctr := Wrap(ctr as int - 1);
      ctrOk := ctr != 0;
      condOk := if which == 0 then !crBit else crBit;
    } else if which == 1 || which == 5 {
      ctr := Wrap(ctr as int - 1);
      ctrOk := ctr == 0;
      condOk := if which == 1 then !crBit else crBit;
    } else if which == 2 || which == 6 {
      ctrOk := true;
      condOk := if which == 2 then !crBit else crBit;
    } else if which == 8 || which == 9 {
      ctr := Wrap(ctr as int - 1);
      if (ctr != 0) == (which == 8) {
        ctrOk, condOk := true, true;
      }
    } else if which == 10 {
      ctrOk, condOk := true, true;
    }
    return ctrOk && condOk;
  }
}
