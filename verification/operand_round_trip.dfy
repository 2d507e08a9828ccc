/** What parse_operand makes of the text that print_operands writes for one operand. */
module OperandRoundTrip {
  import opened Bits
  import opened Ppc
  import opened Text
  import opened Sprs
  import opened Assembler
  import opened Disassembler

  // ----- addresses -----

  /** `n` is the number of value bits of the address field below its sign. */
  lemma SignBit(operand: nat, n: nat)
    requires operand < Pow2(n + 1)
    ensures And(operand, Pow2(n)) != 0 <==> operand >= Pow2(n)
  {
    if operand >= Pow2(n) {
      assert operand == Pow2(n) * 1 + (operand - Pow2(n));
      BitJoin(1, operand - Pow2(n), n, n);
      BitPow2(n, n);
      BitAnd(operand, Pow2(n), n);
      BitZero(n);
    } else {
      forall i: nat ensures Bit(And(operand, Pow2(n)), i) == Bit(0, i) {
        BitAnd(operand, Pow2(n), i);
        BitPow2(n, i);
        BitZero(i);
        if i == n { HighBitsClear(operand, n, n); }
      }
      SameBits(And(operand, Pow2(n)), 0);
    }
  }

  lemma BitPow2(n: nat, i: nat)
    ensures Bit(Pow2(n), i) == (i == n)
  {
    BitJoin(1, 0, n, i);
    BitZero(i);
    if i > n { BitZero(i - n - 1); }
  }

  /** The top bit of a field is set by joining it. */
  lemma JoinTopBit(low: nat, n: nat)
    requires low < Pow2(n)
    ensures Or(low, Pow2(n)) == low + Pow2(n)
  {
    forall i: nat ensures !(Bit(low, i) && Bit(Pow2(n), i)) {
      BitPow2(n, i);
      if i == n { HighBitsClear(low, n, n); }
    }
    OrOfDisjoint(low, Pow2(n));
  }

  /** A field of `n + 1` bits as a signed number. */
  function SignExtended(operand: nat, n: nat): int {
    if operand < Pow2(n) then operand else operand - 2 * Pow2(n)
  }

  lemma SignExtendedFits(operand: nat, n: nat)
    requires n == 13 || n == 23
    requires operand < Pow2(n + 1)
    ensures operand < 0x100_0000 && -0x80_0000 <= SignExtended(operand, n) < 0x80_0000
  {
    PowersOfTwo();
  }

  lemma ExtendedByTop(operand: Word, bits: nat, p: nat)
    requires bits > 0 && p == Pow2(bits - 1) && operand < 2 * p
    ensures Extended(operand, bits) == if operand < p then operand else Wrap(operand - 2 * p)
  {
    SignBit(operand, bits - 1);
  }

  lemma TopWraps(operand: Word, n: nat, p: nat)
    requires p == Pow2(n)
    ensures (if operand < p then operand else Wrap(operand - 2 * p)) == Wrap(SignExtended(operand, n))
  {
  }

  lemma ExtendedWraps(operand: Word, bits: nat)
    requires bits > 0 && operand < Pow2(bits)
    ensures Extended(operand, bits) == Wrap(SignExtended(operand, bits - 1))
  {
    ExtendedByTop(operand, bits, Pow2(bits - 1));
    TopWraps(operand, bits - 1, Pow2(bits - 1));
  }

  lemma ExtendedIs(operand: nat, bits: nat)
    requires bits == 14 || bits == 24
    requires operand < Pow2(bits)
    ensures operand < WORD_LIMIT && Extended(operand, bits) == Wrap(SignExtended(operand, bits - 1))
  {
    SignExtendedFits(operand, bits - 1);
    ExtendedWraps(operand, bits);
  }

  lemma TargetWraps(x: int, relative: bool, virt: Word)
    ensures (if relative then Wrap(Wrap(Wrap(x) * 4) + virt) else Wrap(Wrap(x) * 4))
         == Wrap(4 * x + if relative then virt else 0)
  {
    WrapInner(x, 0);
    WrapInner(x * 4, virt);
  }

  lemma TargetIs(e: Opcode, f: Operand, virt: Word, operand: nat)
    requires f.bits == 14 || f.bits == 24
    requires operand < Pow2(f.bits)
    ensures operand < WORD_LIMIT
    ensures TargetOf(e, f, virt, operand)
         == Wrap(4 * SignExtended(operand, f.bits - 1) + if Relative(e) then virt else 0)
  {
    ExtendedIs(operand, f.bits);
    TargetWraps(SignExtended(operand, f.bits - 1), Relative(e), virt);
  }

  lemma AddressDataIs(memaddr: Word, e: Opcode, f: Operand, txt: string)
    requires f.bits == 14 || f.bits == 24
    ensures
      var data := Signed(if Relative(e) then Wrap(ReadNumber(txt) - memaddr) else ReadNumber(txt));
      var low := Wrap(data / 4) % Pow2(f.bits - 1);
      AddressData(memaddr, e, f, txt) == if data < 0 then low + Pow2(f.bits - 1) else low
  {
    var data := Signed(if Relative(e) then Wrap(ReadNumber(txt) - memaddr) else ReadNumber(txt));
    AndOnes(Wrap(data / 4), f.bits - 1);
    JoinTopBit(Wrap(data / 4) % Pow2(f.bits - 1), f.bits - 1);
  }

  /** The distance that parse_operand takes from the text, in bytes. */
  function Distance(memaddr: Word, e: Opcode, target: Word): int {
    Signed(if Relative(e) then Wrap(target as int - memaddr) else target)
  }

  lemma LowBitsOfMultiple(s: int, p: nat, k: nat)
    requires p > 0 && k > 0 && p * k == WORD_LIMIT && 0 <= s + p < p
    ensures Wrap(s) % p == s + p
  {
    WrapPlus(s, 1);
    assert WORD_LIMIT + s == p * (k - 1) + (s + p);
    QuotientIs(WORD_LIMIT + s, p, k - 1, s + p);
  }

  lemma LowBitsOfNegative(s: int, n: nat)
    requires n == 13 || n == 23
    requires 0 <= s + Pow2(n) < Pow2(n)
    ensures Wrap(s) % Pow2(n) == s + Pow2(n)
  {
    PowersOfTwo();
    LowBitsOfMultiple(s, Pow2(n), if n == 13 then 0x8_0000 else 0x200);
  }

  lemma LowBits(operand: nat, n: nat)
    requires n == 13 || n == 23
    requires operand < Pow2(n + 1)
    ensures var s := SignExtended(operand, n);
            Wrap(s) % Pow2(n) == if s < 0 then operand - Pow2(n) else operand
    ensures SignExtended(operand, n) < 0 ==> operand >= Pow2(n)
  {
    PowersOfTwo();
    var s := SignExtended(operand, n);
    if s < 0 {
      LowBitsOfNegative(s, n);
    }
  }

  /** A distance of `s` words is encoded as the field whose signed value is `s`. */
  lemma AddressOfDistance(memaddr: Word, e: Opcode, f: Operand, txt: string, operand: nat)
    requires f.bits == 14 || f.bits == 24
    requires operand < Pow2(f.bits)
    requires Distance(memaddr, e, ReadNumber(txt)) / 4 == SignExtended(operand, f.bits - 1)
    ensures AddressData(memaddr, e, f, txt) == operand
  {
    AddressDataIs(memaddr, e, f, txt);
    LowBits(operand, f.bits - 1);
  }

  /** The distance of the target that a field prints. */
  lemma PrintedDistance(e: Opcode, f: Operand, virt: Word, operand: nat, target: Word)
    requires f.bits == 14 || f.bits == 24
    requires operand < Pow2(f.bits) <= WORD_LIMIT && target == TargetOf(e, f, virt, operand)
    ensures Distance(virt, e, target) / 4 == SignExtended(operand, f.bits - 1)
  {
    var s := SignExtended(operand, f.bits - 1);
    SignExtendedFits(operand, f.bits - 1);
    assert target == Wrap(4 * s + if Relative(e) then virt else 0) by { TargetIs(e, f, virt, operand); }
    DistanceOfTarget(e, virt, s);
  }

  /** Printing then parsing: the target of a field, read back at the same address, gives the
      field again. */
  lemma AddressPrintParse(e: Opcode, f: Operand, virt: Word, operand: nat, txt: string)
    requires f.bits == 14 || f.bits == 24
    requires operand < Pow2(f.bits) <= WORD_LIMIT
    requires ReadNumber(txt) == TargetOf(e, f, virt, operand)
    ensures AddressData(virt, e, f, txt) == operand
  {
    PrintedDistance(e, f, virt, operand, ReadNumber(txt));
    AddressOfDistance(virt, e, f, txt, operand);
  }

  lemma DistanceOfTarget(e: Opcode, virt: Word, s: int)
    requires -0x80_0000 <= s < 0x80_0000
    ensures Distance(virt, e, Wrap(4 * s + if Relative(e) then virt else 0)) / 4 == s
  {
    if Relative(e) {
      WrapInner(4 * s + virt, -(virt as int));
    }
    SignedWrap(4 * s);
  }

  lemma AddressDataFits(memaddr: Word, e: Opcode, f: Operand, txt: string)
    requires f.bits == 14 || f.bits == 24
    ensures AddressData(memaddr, e, f, txt) < Pow2(f.bits) < WORD_LIMIT
    ensures Distance(memaddr, e, ReadNumber(txt)) < 0 <==>
              SignExtended(AddressData(memaddr, e, f, txt), f.bits - 1) < 0
  {
    PowersOfTwo();
    AddressDataIs(memaddr, e, f, txt);
  }

  /** Equal targets come from equal distances. */
  lemma TargetDistance(e: Opcode, memaddr: Word, target: Word, x: int)
    requires -0x8000_0000 <= 4 * x < 0x8000_0000
    ensures Wrap(4 * x + if Relative(e) then memaddr else 0) == target <==>
              Distance(memaddr, e, target) == 4 * x
  {
    var base: Word := if Relative(e) then memaddr else 0;
    var w := Wrap(target as int - base);
    WrapMove(4 * x, base, target);
    SignedWrap(4 * x);
    WrapSigned(w);
  }

  /** Parsing then printing: a target is printed back exactly when its distance is a multiple of
      four that fits the field. */
  lemma AddressParsePrint(e: Opcode, f: Operand, memaddr: Word, txt: string)
    requires f.bits == 14 || f.bits == 24
    ensures AddressData(memaddr, e, f, txt) < WORD_LIMIT
    ensures TargetOf(e, f, memaddr, AddressData(memaddr, e, f, txt)) == ReadNumber(txt) <==>
              FitsField(f, Distance(memaddr, e, ReadNumber(txt)))
  {
    AddressDataFits(memaddr, e, f, txt);
    var d := Distance(memaddr, e, ReadNumber(txt));
    if FitsField(f, d) {
      DistanceInRange(memaddr, e, f, txt, d / 4);
    }
    TargetMatches(e, f, memaddr, ReadNumber(txt), AddressData(memaddr, e, f, txt));
  }

  lemma TargetMatches(e: Opcode, f: Operand, memaddr: Word, target: Word, operand: nat)
    requires f.bits == 14 || f.bits == 24
    requires operand < Pow2(f.bits)
    requires FitsField(f, Distance(memaddr, e, target)) ==>
               SignExtended(operand, f.bits - 1) == Distance(memaddr, e, target) / 4
    ensures operand < WORD_LIMIT
    ensures TargetOf(e, f, memaddr, operand) == target <==> FitsField(f, Distance(memaddr, e, target))
  {
    TargetIs(e, f, memaddr, operand);
    SignExtendedRange(operand, f);
    DistanceMatches(e, f, memaddr, target, SignExtended(operand, f.bits - 1));
  }

  lemma DistanceMatches(e: Opcode, f: Operand, memaddr: Word, target: Word, s: int)
    requires FitsField(f, 4 * s) && -0x8000_0000 <= 4 * s < 0x8000_0000
    requires FitsField(f, Distance(memaddr, e, target)) ==> s == Distance(memaddr, e, target) / 4
    ensures Wrap(4 * s + if Relative(e) then memaddr else 0) == target <==> FitsField(f, Distance(memaddr, e, target))
  {
    TargetDistance(e, memaddr, target, s);
  }

  /** A distance in bytes that an address field can hold. */
  predicate FitsField(f: Operand, d: int) {
    d % 4 == 0 && -(2 * Pow2(f.bits) as int) <= d < 2 * Pow2(f.bits)
  }

  lemma SignExtendedRange(operand: nat, f: Operand)
    requires f.bits == 14 || f.bits == 24
    requires operand < Pow2(f.bits)
    ensures var x := SignExtended(operand, f.bits - 1);
            FitsField(f, 4 * x) && -0x8000_0000 <= 4 * x < 0x8000_0000
  {
    PowersOfTwo();
  }

  lemma DistanceInRange(memaddr: Word, e: Opcode, f: Operand, txt: string, s: int)
    requires f.bits == 14 || f.bits == 24
    requires Distance(memaddr, e, ReadNumber(txt)) == 4 * s
    requires -(Pow2(f.bits) as int) <= 2 * s < Pow2(f.bits)
    ensures SignExtended(AddressData(memaddr, e, f, txt), f.bits - 1) == s
  {
    PowersOfTwo();
    var operand := if s < 0 then s + Pow2(f.bits) else s;
    AddressOfDistance(memaddr, e, f, txt, operand);
  }

  // ----- every operand -----

  /** The text of the field is read back as the value it was printed from. */
  predicate Readable(m: seq<SprInfo>, f: Operand, operand: nat, radix: Radix) {
    match f.hint
    case Spr => operand != 0 && !Named(m, Swap(operand))
    case Tbr => Swap(operand) == 268 || Swap(operand) == 269
    case Plain => radix == Octal ==> operand == 0
    case Offset => radix == Octal ==> operand == 0
    case _ => true
  }

  /** What the assembler makes of the text of the field. */
  function ReadBack(m: seq<SprInfo>, f: Operand, w: Word, radix: Radix): Result<nat> {
    if Readable(m, f, Extract(f, w), radix) then Ok(Insert(f, Extract(f, w)))
    else match f.hint
      case Spr => Err(BadSpr)
      case Tbr => Err(BadTbr)
      case _ => Ok(Insert(f, 0))
  }

  lemma RegisterReadBack(operand: nat, name: string)
    requires operand < 32
    requires name == "r" + Format(operand, 10) || (operand == 0 && name == "0")
    ensures ReadNumber(RegisterDigits(name)) == operand
  {
    ReadNumberDecimal(operand);
    if name == "0" {
      assert "0"[1..] == "";
    } else {
      assert name[1..] == Format(operand, 10);
    }
  }

  lemma SprReadBack(m: seq<SprInfo>, operand: nat)
    requires Capitalised(m) && operand < 1024
    ensures SprValue(m, SprName(m, operand)) == if operand != 0 && !Named(m, Swap(operand)) then operand else 0
  {
    if operand != 0 {
      SprRoundTripIff(m, operand);
    } else {
      NameOfFinds(m, 0);
      if Named(m, 0) {
        LoweredNotFound(m, SprName(m, 0));
      } else {
        DecimalSprValue(m, 0);
      }
    }
  }

  lemma TbrReadBack(operand: nat)
    requires operand < 1024
    ensures TbrValue(TbrName(operand)) == if Swap(operand) in {268, 269} then operand else 0
    ensures Swap(operand) in {268, 269} ==> operand != 0
  {
    if operand != 0 {
      TbrRoundTripIff(operand);
    } else {
      assert Lower("???")[0] == '?';
    }
  }

  lemma NumberReadBack(operand: nat, radix: Radix)
    requires operand < 0x1_0000
    ensures ReadNumber(RadixText(radix, operand)) == if radix == Octal then 0 else operand
  {
    match radix {
      case Octal => ReadNumberOctal(operand);
      case UDecimal => ReadNumberDecimal(operand);
      case SDecimal => ReadNumberDecimal(operand);
      case Hex => ReadNumberHex(operand);
    }
  }

  lemma AddressFieldReadBack(m: seq<SprInfo>, e: Opcode, f: Operand, virt: Word, w: Word, radix: Radix)
    requires OperandOk(f) && f.hint == Addr
    ensures OperandBits(m, virt, e, f, FieldText(m, e, f, virt, w, radix)) == ReadBack(m, f, w, radix)
  {
    ExtractFits(f, w);
    var target := TargetOf(e, f, virt, Extract(f, w));
    ReadNumberHex(target);
    AddressPrintParse(e, f, virt, Extract(f, w), "0x" + Format(target, 16));
  }

  lemma RegisterFieldReadBack(m: seq<SprInfo>, e: Opcode, f: Operand, virt: Word, w: Word, radix: Radix)
    requires OperandOk(f) && f.hint == Reg
    ensures OperandBits(m, virt, e, f, FieldText(m, e, f, virt, w, radix)) == ReadBack(m, f, w, radix)
  {
    ExtractFits(f, w);
    PowersOfTwo();
    RegisterReadBack(Extract(f, w), FieldText(m, e, f, virt, w, radix));
  }

  lemma SprFieldReadBack(m: seq<SprInfo>, e: Opcode, f: Operand, virt: Word, w: Word, radix: Radix)
    requires OperandOk(f) && f.hint == Spr && Capitalised(m)
    ensures OperandBits(m, virt, e, f, FieldText(m, e, f, virt, w, radix)) == ReadBack(m, f, w, radix)
  {
    ExtractFits(f, w);
    PowersOfTwo();
    SprReadBack(m, Extract(f, w));
  }

  lemma TbrFieldReadBack(m: seq<SprInfo>, e: Opcode, f: Operand, virt: Word, w: Word, radix: Radix)
    requires OperandOk(f) && f.hint == Tbr
    ensures OperandBits(m, virt, e, f, FieldText(m, e, f, virt, w, radix)) == ReadBack(m, f, w, radix)
  {
    ExtractFits(f, w);
    PowersOfTwo();
    TbrReadBack(Extract(f, w));
  }

  lemma LiteralFieldReadBack(m: seq<SprInfo>, e: Opcode, f: Operand, virt: Word, w: Word, radix: Radix)
    requires OperandOk(f) && f.hint == Literal
    ensures OperandBits(m, virt, e, f, FieldText(m, e, f, virt, w, radix)) == ReadBack(m, f, w, radix)
  {
    ExtractFits(f, w);
    PowersOfTwo();
  }

  lemma NumberBits(m: seq<SprInfo>, e: Opcode, f: Operand, virt: Word, w: Word, radix: Radix, text: string)
    requires f.hint == Plain || f.hint == Offset
    requires ReadNumber(text) == if radix == Octal then 0 else Extract(f, w)
    ensures OperandBits(m, virt, e, f, text) == ReadBack(m, f, w, radix)
  {
  }

  lemma NumberFieldReadBack(m: seq<SprInfo>, e: Opcode, f: Operand, virt: Word, w: Word, radix: Radix)
    requires OperandOk(f) && (f.hint == Plain || f.hint == Offset)
    ensures OperandBits(m, virt, e, f, FieldText(m, e, f, virt, w, radix)) == ReadBack(m, f, w, radix)
  {
    var operand := Extract(f, w);
    assert operand % 0x1_0000 == operand by {
      ExtractFits(f, w);
      PowersOfTwo();
      Pow2Monotone(f.bits, 16);
    }
    NumberReadBack(operand, radix);
    NumberBits(m, e, f, virt, w, radix, RadixText(radix, operand));
  }

  lemma FieldReadBack(m: seq<SprInfo>, e: Opcode, f: Operand, virt: Word, w: Word, radix: Radix)
    requires OperandOk(f) && !IsSilent(f) && Capitalised(m)
    ensures OperandBits(m, virt, e, f, FieldText(m, e, f, virt, w, radix)) == ReadBack(m, f, w, radix)
  {
    match f.hint {
      case Addr => AddressFieldReadBack(m, e, f, virt, w, radix);
      case Reg => RegisterFieldReadBack(m, e, f, virt, w, radix);
      case Spr => SprFieldReadBack(m, e, f, virt, w, radix);
      case Tbr => TbrFieldReadBack(m, e, f, virt, w, radix);
      case Literal => LiteralFieldReadBack(m, e, f, virt, w, radix);
      case _ => NumberFieldReadBack(m, e, f, virt, w, radix);
    }
  }
}
