/** The stepper against the branch semantics of the ISA. */
module StepRefinesIsa {
  import opened Wrappers
  import opened Bits
  import opened Ppc
  import opened OperandLists
  import opened OpcodeSearch
  import opened Text
  import OperandRoundTrip
  import opened Stepper
  import Isa = PowerIsa

  // ----- the bits of a masked word as numbers -----

  lemma LowBit(w: nat, k: nat, i: nat)
    ensures Bit(w % Pow2(k), i) == (Bit(w, i) && i < k)
  {
    AndOnes(w, k);
    BitAnd(w, Ones(k), i);
    BitOnes(k, i);
  }

  /** A number put below the primary opcode of a word. */
  lemma LowReplaced(w: nat, low: nat, i: nat)
    requires low < 0x400_0000
    ensures Bit(Primary(w) * 0x400_0000 + low, i) == if i < 26 then Bit(low, i) else Bit(w, i)
  {
    PowersOfTwo();
    BitJoin(Primary(w), low, 26, i);
    BitJoin(Primary(w), w % 0x400_0000, 26, i);
  }

  lemma AndFormBit(w: Word, k: nat, i: nat)
    requires k <= 26 && w % Pow2(k) < 0x400_0000
    ensures Bit(And(w, 0xfc00_0000 + Ones(k)), i) == Bit(Primary(w) * 0x400_0000 + w % Pow2(k), i)
  {
    BitAnd(w, 0xfc00_0000 + Ones(k), i);
    MaskBits(k, i);
    LowBit(w, k, i);
    LowReplaced(w, w % Pow2(k), i);
    if i >= 32 {
      PowersOfTwo();
      HighBitsClear(w, 32, i);
    }
  }

  /** Masking with the primary opcode and the lowest `k` bits. */
  lemma AndFormMask(w: Word, k: nat)
    requires k <= 26
    ensures Ones(k) < 0x400_0000
    ensures And(w, 0xfc00_0000 + Ones(k)) == Primary(w) * 0x400_0000 + w % Pow2(k)
  {
    PowersOfTwo();
    Pow2Monotone(k, 26);
    var masked, r := And(w, 0xfc00_0000 + Ones(k)), Primary(w) * 0x400_0000 + w % Pow2(k);
    forall i: nat ensures Bit(masked, i) == Bit(r, i) {
      AndFormBit(w, k, i);
    }
    SameBits(masked, r);
  }

  /** The operands of the branches are the fields of the manual. */
  lemma SameFields(w: Word)
    ensures Extract(O_BO, w) == Isa.BO(w) && Extract(O_BI, w) == Isa.BI(w) && Extract(O_BD, w) == Isa.BD(w)
    ensures Extract(O_LI, w) == Isa.LI(w) && Extract(O_AA, w) == Isa.AA(w) && Extract(O_LK, w) == Isa.LK(w)
  {
    PowersOfTwo();
    FieldIsModulo(w, 21, 5);
    FieldIsModulo(w, 16, 5);
    FieldIsModulo(w, 2, 14);
    FieldIsModulo(w, 2, 24);
    FieldIsModulo(w, 1, 1);
    FieldIsModulo(w, 0, 1);
  }

  // ----- which row a branch matches -----

  lemma LookupRow(t: seq<Opcode>, w: Word, opcode: Word, mask: Word, fields: seq<Operand>, name: string, relative: bool)
    requires Searchable(t) && HasRow(t, opcode, mask, fields, name, relative) && And(w, mask) == opcode
    ensures Lookup(t, w).Some?
    ensures IsRow(Lookup(t, w).value, opcode, mask, fields, name, relative)
  {
    var e :| e in t && IsRow(e, opcode, mask, fields, name, relative);
    var i :| 0 <= i < |t| && t[i] == e;
    LookupIs(t, w, i);
  }

  lemma BMasked(w: Word)
    ensures And(w, B_MASK) == 0x400_0000 * Isa.OPCD(w) + 2 * Isa.AA(w) + Isa.LK(w)
  {
    PowersOfTwo();
    AndFormMask(w, 2);
    assert w % 4 == 2 * (w / 2 % 2) + w % 2;
  }

  lemma XlMasked(w: Word)
    ensures And(w, XL_MASK) == 0x400_0000 * Isa.OPCD(w) + 2 * Isa.XO(w) + Isa.LK(w)
  {
    PowersOfTwo();
    AndFormMask(w, 11);
    ModDouble(w, 1024);
  }

  lemma LookupB(t: seq<Opcode>, w: Word)
    requires Searchable(t) && HasBranches(t) && Isa.OPCD(w) == 18
    ensures Lookup(t, w).Some? && IsB(Lookup(t, w).value.opcode)
    ensures Lookup(t, w).value.fields == B_FIELDS && (Relative(Lookup(t, w).value) <==> Isa.AA(w) == 0)
    ensures Lookup(t, w).value.mask == I_MASK && |Lookup(t, w).value.name| <= 3
  {
    BMasked(w);
    var aa, lk := Isa.AA(w), Isa.LK(w);
    assert HasDirect(t, aa, lk);
    LookupRow(t, w, IOpcode(18, aa, lk), I_MASK, B_FIELDS, BranchName("b", aa, lk), aa == 0);
  }

  lemma LookupBc(t: seq<Opcode>, w: Word)
    requires Searchable(t) && HasBranches(t) && Isa.OPCD(w) == 16
    ensures Lookup(t, w).Some? && IsBc(Lookup(t, w).value.opcode)
    ensures Lookup(t, w).value.fields == BC_FIELDS && (Relative(Lookup(t, w).value) <==> Isa.AA(w) == 0)
  {
    BMasked(w);
    var aa, lk := Isa.AA(w), Isa.LK(w);
    assert HasDirect(t, aa, lk);
    LookupRow(t, w, BOpcode(16, aa, lk), B_MASK, BC_FIELDS, BranchName("bc", aa, lk), aa == 0);
  }

  lemma LookupXl(t: seq<Opcode>, w: Word)
    requires Searchable(t) && HasBranches(t) && Isa.OPCD(w) == 19 && (Isa.XO(w) == 16 || Isa.XO(w) == 528)
    ensures Lookup(t, w).Some? && Lookup(t, w).value.fields == BCXR_FIELDS
    ensures if Isa.XO(w) == 16 then IsBclr(Lookup(t, w).value.opcode) else IsBcctr(Lookup(t, w).value.opcode)
  {
    XlMasked(w);
    var stem := if Isa.XO(w) == 16 then "bclr" else "bcctr";
    assert HasIndirect(t, Isa.LK(w));
    LookupRow(t, w, XlOpcode(19, Isa.XO(w), Isa.LK(w)), XL_MASK, BCXR_FIELDS, BranchName(stem, 0, Isa.LK(w)), false);
  }

  lemma XlMaskOf(t: seq<Opcode>, i: nat)
    requires Searchable(t) && HasBranches(t) && i < |t| && Primary(t[i].opcode) == 19
    ensures t[i].mask == XL_MASK
  {
    assert HasIndirect(t, 0);
    var e :| e in t && IsRow(e, XlOpcode(19, 16, 0), XL_MASK, BCXR_FIELDS, BranchName("bclr", 0, 0), false);
    var j :| 0 <= j < |t| && t[j] == e;
    assert Primary(t[j].opcode) == 19;
  }

  lemma PrimaryOfBranch(opcode: Word)
    ensures IsBc(opcode) ==> Primary(opcode) == 16
    ensures IsB(opcode) ==> Primary(opcode) == 18
    ensures IsBcctr(opcode) ==> opcode == 0x400_0000 * 19 + 2 * 528 + opcode % 2
    ensures IsBclr(opcode) ==> opcode == 0x400_0000 * 19 + 2 * 16 + opcode % 2
  {
  }

  lemma XlKind(w: Word, xo: nat, lk: nat)
    requires xo < 1024 && lk < 2 && And(w, XL_MASK) == 0x400_0000 * 19 + 2 * xo + lk
    ensures Isa.OPCD(w) == 19 && Isa.XO(w) == xo
  {
    XlMasked(w);
  }

  /** The branches that find_next_address names. */
  predicate IsCodeBranch(w: Word) {
    Isa.KindOf(w) in {Isa.Branch, Isa.BranchConditional, Isa.BranchToLink, Isa.BranchToCount}
  }

  /** A word that is none of them matches no branch row. */
  lemma LookupOther(t: seq<Opcode>, w: Word)
    requires Searchable(t) && HasBranches(t) && !IsCodeBranch(w) && Lookup(t, w).Some?
    ensures
      var opcode := Lookup(t, w).value.opcode;
      !IsBc(opcode) && !IsB(opcode) && !IsBcctr(opcode) && !IsBclr(opcode)
  {
    LookupFinds(t, w);
    var e := Lookup(t, w).value;
    var i :| 0 <= i < |t| && t[i] == e;
    NoBranchRow(t, w, i);
  }

  lemma NoBranchRow(t: seq<Opcode>, w: Word, i: nat)
    requires Searchable(t) && HasBranches(t) && !IsCodeBranch(w) && i < |t| && Matches(t[i], w)
    ensures !IsBc(t[i].opcode) && !IsB(t[i].opcode) && !IsBcctr(t[i].opcode) && !IsBclr(t[i].opcode)
  {
    var opcode := t[i].opcode;
    PrimaryOfMasked(w, t[i].mask);
    PrimaryOfBranch(opcode);
    if IsBcctr(opcode) {
      XlMaskOf(t, i);
      XlKind(w, 528, opcode % 2);
    } else if IsBclr(opcode) {
      XlMaskOf(t, i);
      XlKind(w, 16, opcode % 2);
    }
  }

  // ----- conditions and displacements -----

  lemma AndPow2(x: nat, n: nat)
    ensures And(x, Pow2(n)) != 0 <==> x / Pow2(n) % 2 == 1
  {
    BitShr(x, n, 0);
    ShrIsDiv(x, n);
    BitAnd(x, Pow2(n), n);
    OperandRoundTrip.BitPow2(n, n);
    if Bit(x, n) {
      BitZero(n);
    } else {
      forall i: nat ensures Bit(And(x, Pow2(n)), i) == Bit(0, i) {
        BitAnd(x, Pow2(n), i);
        OperandRoundTrip.BitPow2(n, i);
        BitZero(i);
      }
      SameBits(And(x, Pow2(n)), 0);
    }
  }

  lemma SameCrBit(cr: Word, bi: nat)
    requires bi < 32
    ensures CrSet(cr, bi) == Isa.CrBit(cr, bi)
  {
    AndPow2(cr, 31 - bi);
    PowersOfTwo();
  }

  /** `(bo & 0x1e) >> 1` drops the last bit of BO. */
  lemma SwitchValue(bo: nat)
    requires bo < 32
    ensures Shr(And(bo, 0x1e), 1) == bo / 2
  {
    assert Pow2(4) == 16;
    MaskHalved(bo, 0x1e, 4);
  }

  lemma MaskHalved(x: nat, mask: nat, n: nat)
    requires mask / 2 == Ones(n)
    ensures Shr(And(x, mask), 1) == x / 2 % Pow2(n)
  {
    AndOnes(x / 2, n);
    assert And(x, mask) / 2 == And(x / 2, mask / 2);
    ShrIsDiv(And(x, mask), 1);
    assert Pow2(1) == 2;
  }

  /** The nine values of BO without its last bit that the switch handles. */
  predicate Handled(bo: nat) { bo / 2 in {0, 1, 2, 4, 5, 6, 8, 9, 10} }

  lemma BoDigits(w: Word)
    ensures
      var v := Isa.BO(w) / 2;
      && Isa.BO0(w) == (v / 8 == 1) && Isa.BO1(w) == (v / 4 % 2 == 1)
      && Isa.BO2(w) == (v / 2 % 2 == 1) && Isa.BO3(w) == (v % 2 == 1)
  {
  }

  /** The cases of the switch, by the four digits of its value. */
  lemma SwitchDigits(v: nat, bi: nat, ctr: Word, cr: Word)
    requires v < 16 && bi < 32
    ensures SwitchOn(v, bi, ctr, cr) ==
              (v in {0, 1, 2, 4, 5, 6, 8, 9, 10}
               && (v / 2 % 2 == 1 || (Wrap(ctr as int - 1) != 0) != (v % 2 == 1))
               && (v / 8 == 1 || CrSet(cr, bi) == (v / 4 % 2 == 1)))
  {
    if v < 4 {
      assert v / 8 == 0 && v / 4 == 0;
    } else if v < 8 {
      assert v / 8 == 0 && v / 4 == 1;
    } else if v < 12 {
      assert v / 8 == 1 && v / 4 == 2;
    }
  }

  lemma SwitchConditions(w: Word, ctr: Word, cr: Word)
    ensures SwitchOn(Isa.BO(w) / 2, Isa.BI(w), ctr, cr) ==
              (Handled(Isa.BO(w)) && Isa.CtrOk(w, ctr) && Isa.CondOk(w, cr))
  {
    SwitchDigits(Isa.BO(w) / 2, Isa.BI(w), ctr, cr);
    SameCrBit(cr, Isa.BI(w));
    BoDigits(w);
  }

  lemma SameConditions(w: Word, ctr: Word, cr: Word)
    ensures SwitchTaken(Isa.BO(w), Isa.BI(w), ctr, cr) ==
              (Handled(Isa.BO(w)) && Isa.CtrOk(w, ctr) && Isa.CondOk(w, cr))
  {
    SwitchValue(Isa.BO(w));
    SwitchConditions(w, ctr, cr);
  }

  lemma SameDisplacement(field: nat, bits: nat)
    requires bits == 14 || bits == 24
    requires field < Pow2(bits)
    ensures field < WORD_LIMIT && Displacement(field, bits) == Wrap(Isa.Exts(field, bits))
  {
    PowersOfTwo();
    OperandRoundTrip.SignBit(field, bits - 1);
    var s := if field < Pow2(bits - 1) then field else field - Pow2(bits);
    WrapInner(s, 0);
  }

  // ----- the stepper and the ISA -----

  function IsaRegs(regs: PtRegs): Isa.Regs { Isa.Regs(regs.ctr, regs.link, regs.ccr) }

  /** What find_next_address decodes, in the terms of the manual. */
  function Expected(w: Word, ctr: Word, lr: Word): Decoded {
    BranchFits(w);
    match Isa.KindOf(w)
    case Branch => Decoded.Branch(Wrap(Isa.Exts(Isa.LI(w), 24)), Isa.AA(w), Isa.LK(w), false, 0, 0)
    case BranchConditional =>
      Decoded.Branch(Wrap(Isa.Exts(Isa.BD(w), 14)), Isa.AA(w), Isa.LK(w), true, Isa.BO(w), Isa.BI(w))
    case BranchToLink => Decoded.Branch(lr, 1, Isa.LK(w), true, Isa.BO(w), Isa.BI(w))
    case BranchToCount => Decoded.Branch(ctr, 1, Isa.LK(w), true, Isa.BO(w), Isa.BI(w))
    case _ => NotBranch
  }

  lemma BranchFits(w: Word)
    ensures Isa.LI(w) < Pow2(24) && Isa.BD(w) < Pow2(14)
  {
    PowersOfTwo();
  }

  lemma DecodeB(e: Opcode, w: Word, ctr: Word, lr: Word)
    requires IsB(e.opcode) && e.fields == B_FIELDS && Isa.KindOf(w) == Isa.Branch
    ensures Decode(e, w, ctr, lr) == Expected(w, ctr, lr)
  {
    BranchFits(w);
    SameFields(w);
    SameDisplacement(Isa.LI(w), 24);
  }

  lemma DecodeBc(e: Opcode, w: Word, ctr: Word, lr: Word)
    requires IsBc(e.opcode) && e.fields == BC_FIELDS && Isa.KindOf(w) == Isa.BranchConditional
    ensures Decode(e, w, ctr, lr) == Expected(w, ctr, lr)
  {
    BranchFits(w);
    SameFields(w);
    SameDisplacement(Isa.BD(w), 14);
  }

  lemma DecodeXl(e: Opcode, w: Word, ctr: Word, lr: Word)
    requires e.fields == BCXR_FIELDS
    requires (Isa.KindOf(w) == Isa.BranchToLink && IsBclr(e.opcode))
          || (Isa.KindOf(w) == Isa.BranchToCount && IsBcctr(e.opcode))
    ensures Decode(e, w, ctr, lr) == Expected(w, ctr, lr)
  {
    SameFields(w);
  }

  lemma DecodeIsExpected(t: seq<Opcode>, w: Word, ctr: Word, lr: Word)
    requires Searchable(t) && HasBranches(t) && Lookup(t, w).Some?
    ensures Decode(Lookup(t, w).value, w, ctr, lr) == Expected(w, ctr, lr)
  {
    var e := Lookup(t, w).value;
    match Isa.KindOf(w) {
      case Branch => LookupB(t, w); DecodeB(e, w, ctr, lr);
      case BranchConditional => LookupBc(t, w); DecodeBc(e, w, ctr, lr);
      case BranchToLink => LookupXl(t, w); DecodeXl(e, w, ctr, lr);
      case BranchToCount => LookupXl(t, w); DecodeXl(e, w, ctr, lr);
      case _ => LookupOther(t, w);
    }
  }

  /** What find_next_address takes: an unconditional branch, or one whose BO value it handles and
      whose conditions hold. */
  predicate CodeTakes(w: Word, regs: PtRegs) {
    match Isa.KindOf(w)
    case Branch => true
    case _ => IsCodeBranch(w) && Handled(Isa.BO(w)) && Isa.CtrOk(w, regs.ctr) && Isa.CondOk(w, regs.ccr)
  }

  /** Where it then goes: the CTR and LR targets keep their two lowest bits. */
  function CodeTarget(w: Word, pc: Word, regs: PtRegs): Word {
    match Isa.KindOf(w)
    case BranchToLink => regs.link
    case BranchToCount => regs.ctr
    case _ => Isa.Target(w, pc, IsaRegs(regs))
  }

  lemma RelativeOrNot(x: int, aa: nat, pc: Word)
    requires aa < 2
    ensures (if aa != 0 then Wrap(x) else Wrap(Wrap(x) + pc)) == Wrap(x + if aa == 1 then 0 else pc)
  {
    WrapInner(x, pc);
  }

  lemma ExpectedTaken(w: Word, regs: PtRegs)
    ensures
      var d := Expected(w, regs.ctr, regs.link);
      (d.Branch? ==> d.bi < 32) && BranchTaken(d, regs.ctr, regs.ccr) == CodeTakes(w, regs)
  {
    SameConditions(w, regs.ctr, regs.ccr);
  }

  /** Where a decoded branch leads. */
  function Destination(d: Decoded, pc: Word): Word
    requires d.Branch?
  {
    if d.aa != 0 then d.addr else Wrap(d.addr + pc)
  }

  /** The displacement of a relative or absolute branch, as decoded and as the manual has it. */
  lemma SameAddress(x: int, aa: nat, pc: Word, d: Decoded)
    requires aa < 2 && d.Branch? && d.addr == Wrap(x) && d.aa == aa
    ensures Destination(d, pc) == Wrap(x + if aa == 1 then 0 else pc)
  {
    RelativeOrNot(x, aa, pc);
  }

  lemma ExpectedDirect(w: Word, pc: Word, regs: PtRegs, d: Decoded)
    requires Isa.KindOf(w) == Isa.Branch || Isa.KindOf(w) == Isa.BranchConditional
    requires d == Expected(w, regs.ctr, regs.link) && d.Branch?
    ensures Destination(d, pc) == Isa.Target(w, pc, IsaRegs(regs))
  {
    var x := if Isa.KindOf(w) == Isa.Branch then Isa.Exts(Isa.LI(w), 24) else Isa.Exts(Isa.BD(w), 14);
    SameAddress(x, Isa.AA(w), pc, d);
  }

  lemma ExpectedTarget(w: Word, pc: Word, regs: PtRegs)
    requires IsCodeBranch(w)
    ensures Expected(w, regs.ctr, regs.link).Branch?
    ensures Destination(Expected(w, regs.ctr, regs.link), pc) == CodeTarget(w, pc, regs)
  {
    if Isa.KindOf(w) == Isa.Branch || Isa.KindOf(w) == Isa.BranchConditional {
      ExpectedDirect(w, pc, regs, Expected(w, regs.ctr, regs.link));
    }
  }

  lemma ExpectedStep(w: Word, pc: Word, regs: PtRegs)
    ensures
      var d := Expected(w, regs.ctr, regs.link);
      && (d.Branch? ==> d.bi < 32)
      && StepAddress(d, pc, regs.ctr, regs.ccr) ==
           (if CodeTakes(w, regs) then CodeTarget(w, pc, regs) else Wrap(pc + 4))
  {
    ExpectedTaken(w, regs);
    if CodeTakes(w, regs) { ExpectedTarget(w, pc, regs); }
  }

  /** Both addresses that find_next_address computes, for every word that it can parse. */
  lemma StopsAre(t: seq<Opcode>, w: Word, pc: Word, regs: PtRegs)
    requires Searchable(t) && HasBranches(t) && Lookup(t, w).Some?
    ensures
      var step := if CodeTakes(w, regs) then CodeTarget(w, pc, regs) else Wrap(pc + 4);
      && NextStop(t, w, pc, regs, false) == Some(step)
      && NextStop(t, w, pc, regs, true) ==
           Some(if CodeTakes(w, regs) && Isa.LK(w) == 1 then Wrap(pc + 4) else step)
  {
    DecodeIsExpected(t, w, regs.ctr, regs.link);
    ExpectedTaken(w, regs);
    ExpectedStep(w, pc, regs);
  }

  /** There is no address exactly for the words that no row matches. */
  lemma StopsAtUnknown(t: seq<Opcode>, w: Word, pc: Word, regs: PtRegs, stepOver: bool)
    requires Searchable(t) && HasBranches(t)
    ensures NextStop(t, w, pc, regs, stepOver).None? <==> forall e | e in t :: And(w, e.mask) != e.opcode
  {
    LookupFinds(t, w);
    if Lookup(t, w).Some? {
      assert Matches(Lookup(t, w).value, w);
      StopsAre(t, w, pc, regs);
    } else {
      assert forall e | e in t :: !Matches(e, w);
    }
  }

  /** When the step is the one of the ISA. A BO value with a hint bit that the switch does not know
      is treated as not taken, unaligned CTR and LR targets are not rounded down, and every other
      instruction is stepped past. */
  predicate StepsAsIsa(w: Word, pc: Word, regs: PtRegs, sys: Isa.System) {
    var behind := Wrap(pc as int + 4);
    match Isa.KindOf(w)
    case Branch => true
    case BranchToTar => Isa.Taken(w, IsaRegs(regs)) ==> sys.tar / 4 * 4 == behind
    case SystemCall => sys.systemCall == behind
    case Trap => Isa.Traps(w, sys) ==> sys.program == behind
    case TrapImmediate => Isa.Traps(w, sys) ==> sys.program == behind
    case ReturnFromInterrupt => sys.srr0 / 4 * 4 == behind
    case Other => true
    case _ => Isa.Taken(w, IsaRegs(regs)) ==> FollowsTaken(w, pc, regs)
  }

  /** When a conditional branch that the ISA takes is followed to its target. */
  predicate FollowsTaken(w: Word, pc: Word, regs: PtRegs) {
    if !Handled(Isa.BO(w)) then Isa.Target(w, pc, IsaRegs(regs)) == Wrap(pc + 4)
    else if Isa.KindOf(w) == Isa.BranchToLink then regs.link % 4 == 0
    else if Isa.KindOf(w) == Isa.BranchToCount then regs.ctr % 4 == 0
    else true
  }

  lemma Aligned(a: Word)
    ensures a / 4 * 4 == a <==> a % 4 == 0
  {
  }

  /** The address that single stepping computes. */
  function CodeNext(w: Word, pc: Word, regs: PtRegs): Word {
    if CodeTakes(w, regs) then CodeTarget(w, pc, regs) else Wrap(pc + 4)
  }

  /** The same condition, on the addresses alone. */
  lemma SameDestination(w: Word, pc: Word, regs: PtRegs, sys: Isa.System)
    requires Isa.ValidForm(w)
    ensures CodeNext(w, pc, regs) == Isa.Next(w, pc, IsaRegs(regs), sys) <==>
              StepsAsIsa(w, pc, regs, sys)
  {
    if IsCodeBranch(w) && Isa.KindOf(w) != Isa.Branch {
      Aligned(regs.link);
      Aligned(regs.ctr);
      assert CodeTakes(w, regs) == (Handled(Isa.BO(w)) && Isa.Taken(w, IsaRegs(regs)));
    }
  }

  /** Single stepping follows the ISA exactly under that condition. */
  lemma StepIsIsaNext(t: seq<Opcode>, w: Word, pc: Word, regs: PtRegs, sys: Isa.System)
    requires Searchable(t) && HasBranches(t) && Lookup(t, w).Some? && Isa.ValidForm(w)
    ensures NextStop(t, w, pc, regs, false) == Some(Isa.Next(w, pc, IsaRegs(regs), sys)) <==>
              StepsAsIsa(w, pc, regs, sys)
  {
    StopsAre(t, w, pc, regs);
    SameDestination(w, pc, regs, sys);
  }

  /** sc and rfi are stepped past, wherever they lead. */
  lemma InterruptsAreSteppedPast(t: seq<Opcode>, w: Word, pc: Word, regs: PtRegs, sys: Isa.System)
    requires Searchable(t) && HasBranches(t) && Lookup(t, w).Some?
    requires Isa.KindOf(w) == Isa.SystemCall || Isa.KindOf(w) == Isa.ReturnFromInterrupt
    ensures NextStop(t, w, pc, regs, false) == NextStop(t, w, pc, regs, true) == Some(Wrap(pc + 4))
    ensures Isa.Next(w, pc, IsaRegs(regs), sys) ==
              if Isa.KindOf(w) == Isa.SystemCall then sys.systemCall else sys.srr0 / 4 * 4
  {
    StopsAre(t, w, pc, regs);
  }

  const RFI: Word := 0x4c00_0064
  const SC: Word := 0x4400_0002

  lemma InterruptWords()
    ensures Isa.KindOf(RFI) == Isa.ReturnFromInterrupt && Isa.KindOf(SC) == Isa.SystemCall
  {
    assert Isa.OPCD(RFI) == 19 && Isa.XO(RFI) == 50;
    assert Isa.OPCD(SC) == 17 && Isa.AA(SC) == 1;
  }

  /** A taken bclr or bcctr whose register is not aligned is stepped into between two instructions. */
  lemma UnalignedTarget(t: seq<Opcode>, w: Word, pc: Word, regs: PtRegs, sys: Isa.System)
    requires Searchable(t) && HasBranches(t) && Isa.ValidForm(w) && CodeTakes(w, regs)
    requires (Isa.KindOf(w) == Isa.BranchToLink && regs.link % 4 != 0)
          || (Isa.KindOf(w) == Isa.BranchToCount && regs.ctr % 4 != 0)
    ensures NextStop(t, w, pc, regs, false) == Some(CodeTarget(w, pc, regs))
    ensures CodeTarget(w, pc, regs) != Isa.Next(w, pc, IsaRegs(regs), sys)
  {
    LookupXl(t, w);
    StopsAre(t, w, pc, regs);
    Aligned(regs.link);
    Aligned(regs.ctr);
  }

  /** `blr` */
  const BLR: Word := 0x4e80_0020

  lemma UnalignedBlr(t: seq<Opcode>, w: Word, pc: Word, regs: PtRegs, sys: Isa.System)
    requires Searchable(t) && HasBranches(t) && w == BLR && regs.link == 0x102
    ensures NextStop(t, w, pc, regs, false) == Some(0x102)
    ensures Isa.Next(w, pc, IsaRegs(regs), sys) == 0x100
  {
    BlrTakes(regs);
    UnalignedTarget(t, w, pc, regs, sys);
  }

  lemma BlrTakes(regs: PtRegs)
    ensures Isa.KindOf(BLR) == Isa.BranchToLink && Isa.BO(BLR) == 20 && CodeTakes(BLR, regs)
    ensures Isa.Taken(BLR, IsaRegs(regs))
  {
  }

  lemma HintConditions(w: Word, regs: PtRegs)
    requires Isa.KindOf(w) == Isa.BranchConditional
    requires (Isa.BO(w) == 14 || Isa.BO(w) == 15) && Isa.CrBit(regs.ccr, Isa.BI(w))
    ensures !CodeTakes(w, regs) && Isa.Taken(w, IsaRegs(regs))
  {
  }

  /** A bc with the hint of BO 14 or 15, "branch if the bit is set": the ISA takes it when the bit is
      set, the code steps to the next instruction. */
  lemma HintIsIgnored(t: seq<Opcode>, w: Word, pc: Word, regs: PtRegs, sys: Isa.System)
    requires Searchable(t) && HasBranches(t) && Isa.KindOf(w) == Isa.BranchConditional
    requires (Isa.BO(w) == 14 || Isa.BO(w) == 15) && Isa.CrBit(regs.ccr, Isa.BI(w))
    ensures NextStop(t, w, pc, regs, false) == Some(Wrap(pc + 4))
    ensures Isa.Next(w, pc, IsaRegs(regs), sys) == Isa.Target(w, pc, IsaRegs(regs))
  {
    HintConditions(w, regs);
    LookupBc(t, w);
    StopsAre(t, w, pc, regs);
  }

  /** `bc 14,0,.+8` */
  const BC_WITH_HINT: Word := 0x41c0_0008

  lemma BcWithHint(pc: Word, regs: Isa.Regs)
    ensures Isa.KindOf(BC_WITH_HINT) == Isa.BranchConditional && Isa.BO(BC_WITH_HINT) == 14 && Isa.BI(BC_WITH_HINT) == 0
    ensures Isa.Target(BC_WITH_HINT, pc, regs) == Wrap(pc + 8) != Wrap(pc + 4)
  {
    PowersOfTwo();
  }
}
