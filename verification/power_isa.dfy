/** Which instruction is executed next, in 32-bit mode: the branch instructions of section 2.4 of
    Power ISA 2.07 Book I, sc of section 2.6, the traps of section 3.3.11, and rfi of Book III. Bits
    are numbered from the most significant one here. */
module PowerIsa {
  import opened Bits
  import opened Text

  /** What the branch instructions depend on. */
  datatype Regs = Regs(ctr: Word, lr: Word, cr: Word)

  /** What the others depend on besides: the target address register, the return address of an
      interrupt, the general registers, and where a system call and a trap lead. */
  datatype System = System(tar: Word, srr0: Word, gpr: nat -> Word, systemCall: Word, program: Word)

  // The instruction fields, with their bit positions in the manual.

  function OPCD(w: Word): nat { w / 0x400_0000 }        // 0 to 5
  function BO(w: Word): nat { w / 0x20_0000 % 32 }      // 6 to 10
  function BI(w: Word): nat { w / 0x1_0000 % 32 }       // 11 to 15
  function BD(w: Word): nat { w / 4 % 0x4000 }          // 16 to 29
  function LI(w: Word): nat { w / 4 % 0x100_0000 }      // 6 to 29
  function XO(w: Word): nat { w / 2 % 1024 }            // 21 to 30
  function AA(w: Word): nat { w / 2 % 2 }               // 30
  function LK(w: Word): nat { w % 2 }                   // 31

  function TO(w: Word): nat { w / 0x20_0000 % 32 }      // 6 to 10
  function RA(w: Word): nat { w / 0x1_0000 % 32 }       // 11 to 15
  function RB(w: Word): nat { w / 0x800 % 32 }          // 16 to 20
  function SI(w: Word): nat { w % 0x1_0000 }            // 16 to 31

  datatype Kind =
    | Branch | BranchConditional | BranchToLink | BranchToCount | BranchToTar
    | SystemCall | Trap | TrapImmediate | ReturnFromInterrupt
    | Other

  function KindOf(w: Word): Kind {
    if OPCD(w) == 18 then Branch
    else if OPCD(w) == 16 then BranchConditional
    else if OPCD(w) == 19 && XO(w) == 16 then BranchToLink
    else if OPCD(w) == 19 && XO(w) == 528 then BranchToCount
    else if OPCD(w) == 19 && XO(w) == 560 then BranchToTar
    else if OPCD(w) == 19 && XO(w) == 50 then ReturnFromInterrupt
    else if OPCD(w) == 17 && AA(w) == 1 then SystemCall
    else if OPCD(w) == 3 then TrapImmediate
    else if OPCD(w) == 31 && XO(w) == 4 then Trap
    else Other
  }

  // The bits of the BO field.

  predicate BO0(w: Word) { BO(w) / 16 % 2 == 1 }
  predicate BO1(w: Word) { BO(w) / 8 % 2 == 1 }
  predicate BO2(w: Word) { BO(w) / 4 % 2 == 1 }
  predicate BO3(w: Word) { BO(w) / 2 % 2 == 1 }

  /** Bit `k` of the condition register. */
  predicate CrBit(cr: Word, k: nat)
    requires k < 32
  {
    cr / Pow2(31 - k) % 2 == 1
  }

  /** `ctr_ok`: the counter is decremented and compared unless BO_2 is set. */
  predicate CtrOk(w: Word, ctr: Word) {
    BO2(w) || ((Wrap(ctr as int - 1) != 0) != BO3(w))
  }

  /** `cond_ok`: the condition register bit agrees with BO_1 unless BO_0 is set. */
  predicate CondOk(w: Word, cr: Word) {
    BO0(w) || CrBit(cr, BI(w)) == BO1(w)
  }

  /** For the branches. */
  predicate Taken(w: Word, regs: Regs) {
    match KindOf(w)
    case Branch => true
    case BranchConditional => CtrOk(w, regs.ctr) && CondOk(w, regs.cr)
    case BranchToLink => CtrOk(w, regs.ctr) && CondOk(w, regs.cr)
    case BranchToCount => CondOk(w, regs.cr)
    case BranchToTar => CtrOk(w, regs.ctr) && CondOk(w, regs.cr)
    case _ => false
  }

  /** EXTS of a field of `bits` bits followed by two zero bits. */
  function Exts(field: nat, bits: nat): int
    requires bits > 0
  {
    4 * (if field < Pow2(bits - 1) then field else field - Pow2(bits))
  }

  /** Where a branch without the target address register leads. */
  function Target(w: Word, cia: Word, regs: Regs): Word {
    match KindOf(w)
    case Branch => Wrap(Exts(LI(w), 24) + if AA(w) == 1 then 0 else cia)
    case BranchConditional => Wrap(Exts(BD(w), 14) + if AA(w) == 1 then 0 else cia)
    case BranchToLink => regs.lr / 4 * 4
    case BranchToCount => regs.ctr / 4 * 4
    case _ => Wrap(cia + 4)
  }

  /** The five comparisons that the bits of TO select. */
  predicate Compares(to: nat, a: Word, b: Word) {
    || (to / 16 % 2 == 1 && Signed(a) < Signed(b))
    || (to / 8 % 2 == 1 && Signed(a) > Signed(b))
    || (to / 4 % 2 == 1 && a == b)
    || (to / 2 % 2 == 1 && a < b)
    || (to % 2 == 1 && a > b)
  }

  /** The trap instruction traps. */
  predicate Traps(w: Word, sys: System) {
    match KindOf(w)
    case Trap => Compares(TO(w), sys.gpr(RA(w)), sys.gpr(RB(w)))
    case TrapImmediate =>
      Compares(TO(w), sys.gpr(RA(w)), Wrap(if SI(w) < 0x8000 then SI(w) else SI(w) - 0x1_0000))
    case _ => false
  }

  /** The address of the instruction executed after the one at `cia`. */
  function Next(w: Word, cia: Word, regs: Regs, sys: System): Word {
    match KindOf(w)
    case BranchToTar => if Taken(w, regs) then sys.tar / 4 * 4 else Wrap(cia + 4)
    case SystemCall => sys.systemCall
    case Trap => if Traps(w, sys) then sys.program else Wrap(cia + 4)
    case TrapImmediate => if Traps(w, sys) then sys.program else Wrap(cia + 4)
    case ReturnFromInterrupt => sys.srr0 / 4 * 4
    case Other => Wrap(cia + 4)
    case _ => if Taken(w, regs) then Target(w, cia, regs) else Wrap(cia + 4)
  }

  /** bcctr with the decrement option is an invalid form. */
  predicate ValidForm(w: Word) { KindOf(w) == BranchToCount ==> BO2(w) }
}
