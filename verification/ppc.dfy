/** The PowerPC operand and opcode descriptors that the BedBug assembler, disassembler and stepper
    share (include/bedbug/ppc.h and the operand table of include/bedbug/tables.h). */
module Ppc {
  import opened Bits

  /** How an operand is printed and parsed. The table never combines two hints. */
  datatype Hint = Plain | Silent | Addr | Reg | Spr | Tbr | Offset | Literal

  /** An operand descriptor; `field` is its identifier. */
  datatype Operand = Operand(field: nat, bits: nat, shift: nat, hint: Hint)

  const O_AA := Operand(1, 1, 1, Silent)
  const O_BD := Operand(2, 14, 2, Addr)
  const O_BI := Operand(3, 5, 16, Plain)
  const O_BO := Operand(4, 5, 21, Plain)
  const O_crbD := Operand(5, 5, 21, Plain)
  const O_crbA := Operand(6, 5, 16, Plain)
  const O_crbB := Operand(7, 5, 11, Plain)
  const O_CRM := Operand(8, 8, 12, Plain)
  const O_d := Operand(9, 15, 0, Offset)
  const O_frC := Operand(10, 5, 6, Plain)
  const O_frD := Operand(11, 5, 21, Plain)
  const O_frS := Operand(12, 5, 21, Plain)
  const O_IMM := Operand(13, 4, 12, Plain)
  const O_LI := Operand(14, 24, 2, Addr)
  const O_LK := Operand(15, 1, 0, Silent)
  const O_MB := Operand(16, 5, 6, Plain)
  const O_ME := Operand(17, 5, 1, Plain)
  const O_NB := Operand(18, 5, 11, Plain)
  const O_OE := Operand(19, 1, 10, Silent)
  const O_rA := Operand(20, 5, 16, Reg)
  const O_rB := Operand(21, 5, 11, Reg)
  const O_Rc := Operand(22, 1, 0, Silent)
  const O_rD := Operand(23, 5, 21, Reg)
  const O_rS := Operand(24, 5, 21, Reg)
  const O_SH := Operand(25, 5, 11, Plain)
  const O_SIMM := Operand(26, 16, 0, Plain)
  const O_SR := Operand(27, 4, 16, Plain)
  const O_TO := Operand(28, 5, 21, Plain)
  const O_UIMM := Operand(29, 16, 0, Plain)
  const O_crfD := Operand(30, 3, 23, Plain)
  const O_crfS := Operand(31, 3, 18, Plain)
  const O_L := Operand(32, 1, 21, Plain)
  const O_spr := Operand(33, 10, 11, Spr)
  const O_tbr := Operand(34, 10, 11, Tbr)
  const O_cr2 := Operand(35, 0, 0, Literal)

  predicate IsSilent(f: Operand) { f.hint == Silent }

  /** What the widths in the operand table have in common. */
  predicate OperandOk(f: Operand) {
    && f.bits + f.shift <= 26
    && (f.hint == Addr ==> f.bits == 14 || f.bits == 24)
    && (f.hint == Reg ==> f.bits == 5)
    && (f.hint == Spr || f.hint == Tbr ==> f.bits == 10)
    && (f.hint == Plain ==> f.bits <= 16)
    && (f.hint == Offset ==> f.bits <= 15)
    && (f.hint == Literal ==> f.bits == 0 && f.field == O_cr2.field)
  }

  datatype OpHint = H_RELATIVE | H_IMM_HIGH | H_RA0_IS_0

  datatype Handler = NoHandler | HandleBc

  datatype Opcode = Opcode(
    opcode: Word, mask: Word, fields: seq<Operand>, hfunc: Handler, name: string, hint: set<OpHint>)

  predicate Relative(e: Opcode) { H_RELATIVE in e.hint }

  /** The value of a field of an instruction word. */
  function Extract(f: Operand, w: nat): nat {
    Field(w, f.shift, f.bits)
  }

  lemma ExtractFits(f: Operand, w: nat)
    requires f.bits <= 32
    ensures Extract(f, w) < Pow2(f.bits) <= WORD_LIMIT
  {
    FieldIsModulo(w, f.shift, f.bits);
    PowersOfTwo();
    Pow2Monotone(f.bits, 32);
  }

  /** A value cut to the width of a field and moved into place. */
  function Insert(f: Operand, data: nat): nat {
    Place(data, f.shift, f.bits)
  }

  /** Bit `i` of an instruction word belongs to field `f`. */
  predicate InField(f: Operand, i: nat) {
    f.shift <= i < f.shift + f.bits
  }

  ghost predicate Disjoint(f: Operand, g: Operand) {
    forall i: nat :: !(InField(f, i) && InField(g, i))
  }

  // ----- the instruction forms -----

  function MakeOpcode(i: nat): Word
    requires i < 64
  {
    0x400_0000 * i
  }

  function DOpcode(i: nat): Word
    requires i < 64
  {
    MakeOpcode(i)
  }

  function ScOpcode(i: nat): Word
    requires i < 64
  {
    MakeOpcode(i) + 2
  }

  function BOpcode(i: nat, aa: nat, lk: nat): Word
    requires i < 64 && aa < 2 && lk < 2
  {
    MakeOpcode(i) + 2 * aa + lk
  }

  function IOpcode(i: nat, aa: nat, lk: nat): Word
    requires i < 64 && aa < 2 && lk < 2
  {
    MakeOpcode(i) + 2 * aa + lk
  }

  function XOpcode(i: nat, xo: nat, rc: nat): Word
    requires i < 64 && xo < 0x400 && rc < 2
  {
    MakeOpcode(i) + 2 * xo + rc
  }

  function XlOpcode(i: nat, xo: nat, lk: nat): Word
    requires i < 64 && xo < 0x400 && lk < 2
  {
    MakeOpcode(i) + 2 * xo + lk
  }

  function XfxOpcode(i: nat, xo: nat, rc: nat): Word
    requires i < 64 && xo < 0x400 && rc < 2
  {
    MakeOpcode(i) + 2 * xo + rc
  }

  function XoOpcode(i: nat, xo: nat, oe: nat, rc: nat): Word
    requires i < 64 && xo < 0x200 && oe < 2 && rc < 2
  {
    MakeOpcode(i) + 0x400 * oe + 2 * xo + rc
  }

  function MOpcode(i: nat, rc: nat): Word
    requires i < 64 && rc < 2
  {
    MakeOpcode(i) + rc
  }

  const D_MASK: Word := DOpcode(0x3f)
  const SC_MASK: Word := ScOpcode(0x3f)
  const B_MASK: Word := BOpcode(0x3f, 1, 1)
  const I_MASK: Word := IOpcode(0x3f, 1, 1)
  const X_MASK: Word := XOpcode(0x3f, 0x3ff, 1)
  const XL_MASK: Word := XlOpcode(0x3f, 0x3ff, 1)
  const XFX_MASK: Word := XfxOpcode(0x3f, 0x3ff, 1)
  const XO_MASK: Word := XoOpcode(0x3f, 0x1ff, 1, 1)
  const M_MASK: Word := MOpcode(0x3f, 1)

  predicate OperandsOk(e: Opcode) { forall k | 0 <= k < |e.fields| :: OperandOk(e.fields[k]) }

  predicate TableOk(t: seq<Opcode>) { forall k | 0 <= k < |t| :: OperandsOk(t[k]) }

  // ----- well-formed table entries -----

  predicate Matches(e: Opcode, w: Word) { And(w, e.mask) == e.opcode }

  /** The primary opcode: the top six bits. */
  function Primary(w: nat): nat { w / 0x400_0000 }

  /** Every bit of the field is a bit of the mask (`inside`), or none is. */
  ghost predicate FieldVersusMask(f: Operand, mask: nat, inside: bool) {
    forall i: nat | InField(f, i) :: Bit(mask, i) == inside
  }

  /** Silent fields come last and lie inside the mask; the printed ones lie outside it and apart
      from each other; only the base register follows an offset. */
  ghost predicate FieldsOk(fields: seq<Operand>, mask: nat) {
    && |fields| < 8
    && (forall k | 0 <= k < |fields| :: OperandOk(fields[k]))
    && (forall k | 0 <= k < |fields| - 1 && IsSilent(fields[k]) :: IsSilent(fields[k + 1]))
    && (forall k | 0 <= k < |fields| :: FieldVersusMask(fields[k], mask, IsSilent(fields[k])))
    && (forall j, k | 0 <= j < k < |fields| && !IsSilent(fields[k]) :: Disjoint(fields[j], fields[k]))
    && (forall k | 0 <= k < |fields| && fields[k].hint == Offset ::
          k + 2 == |fields| && fields[k + 1].hint == Reg)
  }

  ghost predicate EntryOk(e: Opcode) {
    && And(e.opcode, e.mask) == e.opcode
    && Primary(e.mask) == 63
    && FieldsOk(e.fields, e.mask)
  }

  /** A mnemonic: at most eight lower case letters and dots. */
  predicate NameOk(s: string) {
    1 <= |s| <= 8 && forall i | 0 <= i < |s| :: 'a' <= s[i] <= 'z' || s[i] == '.'
  }

  // ----- a decidable check that implies it -----

  function Low(f: Operand): nat { f.shift }

  function High(f: Operand): nat { f.shift + f.bits }

  predicate Apart(f: Operand, g: Operand) { High(f) <= Low(g) || High(g) <= Low(f) }

  /** The fields fit a mask that holds the primary opcode and the lowest `k` bits. */
  predicate FieldsFit(fields: seq<Operand>, k: nat) {
    && |fields| < 8
    && (forall i | 0 <= i < |fields| :: OperandOk(fields[i]))
    && (forall i | 0 <= i < |fields| :: if IsSilent(fields[i]) then High(fields[i]) <= k else k <= Low(fields[i]))
    && (forall i | 0 <= i < |fields| - 1 && IsSilent(fields[i]) :: IsSilent(fields[i + 1]))
    && (forall i, j | 0 <= i < j < |fields| && !IsSilent(fields[j]) :: Apart(fields[i], fields[j]))
    && (forall i | 0 <= i < |fields| && fields[i].hint == Offset ::
          i + 2 == |fields| && fields[i + 1].hint == Reg)
  }

  predicate HasForm(e: Opcode, k: nat) {
    && k <= 11
    && e.mask == 0xfc00_0000 + Ones(k)
    && e.opcode % 0x400_0000 <= Ones(k)
    && FieldsFit(e.fields, k)
  }

  lemma MaskBits(k: nat, i: nat)
    requires k <= 26
    ensures Bit(0xfc00_0000 + Ones(k), i) == (i < k || 26 <= i < 32)
  {
    PowersOfTwo();
    Pow2Monotone(k, 26);
    assert Ones(6) == 63 by { assert Pow2(6) == 64; }
    BitJoin(63, Ones(k), 26, i);
    BitOnes(k, i);
    if i >= 26 { BitOnes(6, i - 26); }
  }

  lemma HasFormOk(e: Opcode, k: nat)
    requires HasForm(e, k)
    ensures EntryOk(e)
  {
    PowersOfTwo();
    Pow2Monotone(k, 11);
    var low := e.opcode % 0x400_0000;
    forall i: nat | Bit(e.opcode, i) ensures Bit(e.mask, i) {
      MaskBits(k, i);
      BitJoin(Primary(e.opcode), low, 26, i);
      if i < 26 {
        if i >= k { HighBitsClear(low, k, i); }
      } else if i >= 32 {
        HighBitsClear(e.opcode, 32, i);
      }
    }
    AndSubset(e.opcode, e.mask);
    forall j | 0 <= j < |e.fields|
      ensures FieldVersusMask(e.fields[j], e.mask, IsSilent(e.fields[j]))
    {
      forall i: nat | InField(e.fields[j], i) ensures Bit(e.mask, i) == IsSilent(e.fields[j]) {
        MaskBits(k, i);
      }
    }
  }
}
