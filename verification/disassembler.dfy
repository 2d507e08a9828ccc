/** The disassembler: one instruction word to one line of text. */
module Disassembler {
  import opened Wrappers
  import opened Bits
  import opened Ppc
  import OpcodeSearch
  import opened Text
  import opened Sprs

  datatype Radix = Octal | UDecimal | SDecimal | Hex

  // ----- specification -----

  function RadixText(radix: Radix, n: nat): string {
    match radix
    case Octal => "O" + Format(n, 8)
    case UDecimal => Format(n, 10)
    case SDecimal => Format(n, 10)
    case Hex => "0x" + Format(n, 16)
  }

  /** The target that an address field denotes at `virt`: the sign-extended field times four, added
      to `virt` when the opcode is relative. */
  function TargetOf(e: Opcode, f: Operand, virt: Word, operand: nat): Word
    requires f.bits > 0 && operand < WORD_LIMIT
  {
    var distance := Wrap(Extended(operand, f.bits) * 4);
    if Relative(e) then Wrap(distance + virt) else distance
  }

  /** `if (operand & (1 << (bits - 1))) operand = operand - (1 << bits);` */
  function Extended(operand: Word, bits: nat): Word
    requires bits > 0
  {
    if And(operand, Pow2(bits - 1)) != 0 then Wrap(operand - Pow2(bits)) else operand
  }

  /** The text of one operand, without the punctuation around it. */
  function FieldText(m: seq<SprInfo>, e: Opcode, f: Operand, virt: Word, w: Word, radix: Radix): string
    requires OperandOk(f)
  {
    var operand := Extract(f, w);
    match f.hint
    case Addr => ExtractFits(f, w); "0x" + Format(TargetOf(e, f, virt, operand), 16)
    case Reg =>
      if operand == 0 && f.field == O_rA.field && H_RA0_IS_0 in e.hint then "0" else "r" + Format(operand, 10)
    case Spr => SprName(m, operand)
    case Tbr => TbrName(operand)
    case Literal => if f.field == O_cr2.field then "cr2" else ""
    case _ => RadixText(radix, operand % 0x1_0000)
  }

  /** The operand is appended with strcat rather than written with sprintf at `datalen`. */
  predicate Appended(e: Opcode, f: Operand, w: Word) {
    match f.hint
    case Reg => Extract(f, w) == 0 && f.field == O_rA.field && H_RA0_IS_0 in e.hint
    case Spr => true
    case Tbr => true
    case Literal => true
    case _ => false
  }

  /** The text buffer and the position `datalen`, which need not be the end of the text. */
  datatype Out = Out(data: string, len: nat)

  function Append(o: Out, s: string): Out { o.(data := o.data + s) }

  /** sprintf at `datalen`: what stood there is lost. Behind the NUL it would not be seen. */
  function Overwrite(o: Out, s: string): Out {
    if o.len <= |o.data| then o.(data := o.data[..o.len] + s) else o
  }

  predicate Closes(f: Operand, parens: nat) {
    parens > 0 && f.hint !in {Addr, Spr, Tbr, Literal}
  }

  function ParensAfter(f: Operand, parens: nat): nat {
    if Closes(f, parens) then parens - 1
    else if f.hint == Offset then parens + 1
    else parens
  }

  /** The text of an operand and whether it is appended. */
  datatype Token = Token(text: string, append: bool)

  function Tokens(m: seq<SprInfo>, e: Opcode, virt: Word, w: Word, radix: Radix): (r: seq<Token>)
    requires OperandsOk(e)
    ensures |r| == |e.fields|
  {
    seq(|e.fields|, k requires 0 <= k < |e.fields| =>
      Token(FieldText(m, e, e.fields[k], virt, w, radix), Appended(e, e.fields[k], w)))
  }

  /** One round of the loop of print_operands. */
  function PrintField(fields: seq<Operand>, tokens: seq<Token>, k: nat, o: Out, parens: nat): Out
    requires k < |fields| == |tokens|
  {
    var f := fields[k];
    var o1 := if k > 0 && parens == 0 then Out(o.data + ",", o.len + 1) else o;
    var o2 := if tokens[k].append then Append(o1, tokens[k].text) else Overwrite(o1, tokens[k].text);
    var o3 := if Closes(f, parens) then Append(o2, ")") else if f.hint == Offset then Append(o2, "(") else o2;
    Out(o3.data, |o3.data|)
  }

  function PrintFrom(fields: seq<Operand>, tokens: seq<Token>, k: nat, o: Out, parens: nat): Out
    requires k <= |fields| == |tokens|
    decreases |fields| - k
  {
    if k == |fields| then o
    else if IsSilent(fields[k]) then PrintFrom(fields, tokens, k + 1, o, parens)
    else PrintFrom(fields, tokens, k + 1, PrintField(fields, tokens, k, o, parens), ParensAfter(fields[k], parens))
  }

  /** get_operand_value */
  function GetOperandValue(e: Opcode, w: Word, f: Operand): Option<nat> {
    if exists i | 0 <= i < |e.fields| :: e.fields[i] == f then Some(Extract(f, w)) else None
  }

  /** The branches that handle_bc prints under a simplified mnemonic. */
  datatype SimpleBranch = Blt | BneCr2 | Bdnz

  const BLT := Opcode(BOpcode(16, 0, 0), B_MASK, [O_BD], NoHandler, "blt", {H_RELATIVE})
  const BNE := Opcode(BOpcode(16, 0, 0), B_MASK, [O_cr2, O_BD], NoHandler, "bne", {H_RELATIVE})
  const BDNZ := Opcode(BOpcode(16, 0, 0), B_MASK, [O_BD], NoHandler, "bdnz", {H_RELATIVE})

  function SimpleOpcode(s: SimpleBranch): Opcode {
    match s
    case Blt => BLT
    case BneCr2 => BNE
    case Bdnz => BDNZ
  }

  function SimpleForm(bo: nat, bi: nat): Option<SimpleBranch> {
    if bo == 12 && bi == 0 then Some(Blt)
    else if bo == 4 && bi == 10 then Some(BneCr2)
    else if bo == 16 && bi == 0 then Some(Bdnz)
    else None
  }

  /** The simplified form that handle_bc chooses, if any. */
  function Simplified(e: Opcode, w: Word): Option<SimpleBranch> {
    var bo, bi := GetOperandValue(e, w, O_BO), GetOperandValue(e, w, O_BI);
    if bo.None? || bi.None? then None else SimpleForm(bo.value, bi.value)
  }

  function Spaces(n: nat): string { seq(n, _ => ' ') }

  /** `%-7s ` */
  function PadName(name: string): string {
    name + (if |name| < 7 then Spaces(7 - |name|) else "") + " "
  }

  /** `%0<width>x` */
  function PadHex(n: nat, width: nat): string {
    var s := Format(n, 16);
    (if |s| < width then seq(width - |s|, _ => '0') else "") + s
  }

  function Header(virt: Word, w: Word, raw: bool): string {
    PadHex(virt, 8) + ": "
    + (if raw then
         "   " + PadHex(w / 0x100_0000 % 0x100, 2) + " " + PadHex(w / 0x1_0000 % 0x100, 2) + " "
         + PadHex(w / 0x100 % 0x100, 2) + " " + PadHex(w % 0x100, 2) + "    "
       else "   ")
  }

  function HeaderLength(raw: bool): nat { if raw then 28 else 13 }

  /** The opcode that disppc prints a word under: with `simple`, its handler may replace it. */
  function ShownAs(e: Opcode, w: Word, simple: bool): Opcode {
    if simple && e.hfunc == HandleBc && Simplified(e, w).Some? then SimpleOpcode(Simplified(e, w).value) else e
  }

  function EntryLine(m: seq<SprInfo>, op: Opcode, virt: Word, w: Word, radix: Radix, raw: bool): string
    requires OperandsOk(op)
  {
    PrintFrom(op.fields, Tokens(m, op, virt, w, radix), 0,
              Out(Header(virt, w, raw) + PadName(op.name), HeaderLength(raw) + 8), 0).data
  }

  /** What is printed of a word that matches no entry. */
  function LongText(w: Word): string { "        .long 0x" + PadHex(w, 8) }

  /** One line of disppc. */
  function Line(t: seq<Opcode>, m: seq<SprInfo>, virt: Word, w: Word, radix: Radix, simple: bool, raw: bool): string
    requires TableOk(t)
  {
    match OpcodeSearch.Lookup(t, w)
    case None => Header(virt, w, raw) + LongText(w)
    case Some(e) => OpcodeSearch.LookupFinds(t, w); EntryLine(m, ShownAs(e, w, simple), virt, w, radix, raw)
  }

  function Lines(t: seq<Opcode>, m: seq<SprInfo>, memory: seq<Word>, virt: Word, radix: Radix, simple: bool, raw: bool): seq<string>
    requires TableOk(t)
  {
    if memory == [] then []
    else [Line(t, m, virt, memory[0], radix, simple, raw)]
         + Lines(t, m, memory[1..], Wrap(virt + 4), radix, simple, raw)
  }

  // ----- implementation -----

  method OperandValue(e: Opcode, w: Word, f: Operand) returns (value: Option<nat>)
    ensures value == GetOperandValue(e, w, f)
  {
    for i := 0 to |e.fields|
      invariant forall k | 0 <= k < i :: e.fields[k] != f
    {
      if e.fields[i] == f {
        return Some(Extract(f, w));
      }
    }
    return None;
  }

  /** The address operand of print_operands. */
  method AddressOperand(e: Opcode, opr: Operand, virt: Word, field: nat) returns (target: Word)
    requires opr.bits > 0 && field < WORD_LIMIT
    ensures target == TargetOf(e, opr, virt, field)
  {
    target := field;
    if And(field, Pow2(opr.bits - 1)) != 0 {
      target := Wrap(field - Pow2(opr.bits));
    }
    target := Wrap(target * 4);
    if Relative(e) {
      target := Wrap(target + virt);
    }
  }

  /** The text that print_operands writes for one operand, and whether it uses strcat. */
  method OperandText(m: seq<SprInfo>, e: Opcode, opr: Operand, virt: Word, instr: Word, radix: Radix)
    returns (text: string, append: bool)
    requires OperandOk(opr)
    ensures text == FieldText(m, e, opr, virt, instr, radix) && append == Appended(e, opr, instr)
  {
    var operand := Extract(opr, instr);
    if opr.hint == Addr {
      ExtractFits(opr, instr);
      var target := AddressOperand(e, opr, virt, operand);
      return "0x" + Format(target, 16), false;
    } else if opr.hint == Reg {
      if operand == 0 && opr.field == O_rA.field && H_RA0_IS_0 in e.hint {
        return "0", true;
      }
      return "r" + Format(operand, 10), false;
    } else if opr.hint == Spr {
      text := FindSprName(m, operand);
      return text, true;
    } else if opr.hint == Tbr {
      return TbrName(operand), true;
    } else if opr.hint == Literal {
      return if opr.field == O_cr2.field then "cr2" else "", true;
    }
    return RadixText(radix, operand % 0x1_0000), false;
  }

  /** The choice that handle_bc makes. */
  method SimplifyBc(e: Opcode, w: Word) returns (r: Option<SimpleBranch>)
    ensures r == Simplified(e, w)
  {
    var bo := OperandValue(e, w, O_BO);
    if bo.None? {
      return None;
    }
    var bi := OperandValue(e, w, O_BI);
    if bi.None? {
      return None;
    }
    if bo.value == 12 && bi.value == 0 {
      return Some(Blt);
    } else if bo.value == 4 && bi.value == 10 {
      return Some(BneCr2);
    } else if bo.value == 16 && bi.value == 0 {
      return Some(Bdnz);
    }
    return None;
  }

  /** The line under construction: its text and the position where the next sprintf writes. */
  class PpcCtx {
    var datalen: nat
    var data: string

    constructor (data: string, datalen: nat)
      ensures Output() == Out(data, datalen)
    {
      this.data, this.datalen := data, datalen;
    }

    function Output(): Out
      reads this
    {
      Out(data, datalen)
    }

    method Sprintf(s: string)
      modifies this`data
      ensures Output() == Overwrite(old(Output()), s)
    {
      if datalen <= |data| {
        data := data[..datalen] + s;
      }
    }

    method Strcat(s: string)
      modifies this`data
      ensures Output() == Append(old(Output()), s)
    {
      data := data + s;
    }

    /** One operand, with the comma before it and the parenthesis after it. */
    method PrintOperand(m: seq<SprInfo>, op: Opcode, field: nat, virt: Word, instr: Word, radix: Radix, openParens: nat)
      requires field < |op.fields| && OperandsOk(op)
      modifies this
      ensures Output() == PrintField(op.fields, Tokens(m, op, virt, instr, radix), field, old(Output()), openParens)
    {
      var opr := op.fields[field];
      var text, append := OperandText(m, op, opr, virt, instr, radix);
      ghost var token := Tokens(m, op, virt, instr, radix)[field];
      assert token == Token(text, append);
      if field > 0 && openParens == 0 {
        Strcat(",");
        datalen := datalen + 1;
      }
      if append {
        Strcat(text);
      } else {
        Sprintf(text);
      }
      if Closes(opr, openParens) {
        Strcat(")");
      } else if opr.hint == Offset {
        Strcat("(");
      }
      datalen := |data|;
    }

    method PrintOperands(m: seq<SprInfo>, op: Opcode, virt: Word, instr: Word, radix: Radix)
      requires OperandsOk(op)
      modifies this
      ensures Output() == PrintFrom(op.fields, Tokens(m, op, virt, instr, radix), 0, old(Output()), 0)
    {
      ghost var tokens := Tokens(m, op, virt, instr, radix);
      var openParens: nat := 0;
      var field := 0;
      while field < |op.fields|
        invariant 0 <= field <= |op.fields|
        invariant PrintFrom(op.fields, tokens, field, Output(), openParens)
               == PrintFrom(op.fields, tokens, 0, old(Output()), 0)
      {
        var opr := op.fields[field];
        if !IsSilent(opr) {
          PrintOperand(m, op, field, virt, instr, radix, openParens);
          openParens := ParensAfter(opr, openParens);
        }
        field := field + 1;
      }
    }
  }

  lemma {:induction false} FormatLength(n: nat, digits: nat)
    requires digits > 0 && n < Pow2(4 * digits)
    ensures |Format(n, 16)| <= digits
    decreases digits
  {
    if n >= 16 {
      var d := 4 * digits;
      assert Pow2(d) == 2 * Pow2(d - 1) == 4 * Pow2(d - 2) == 8 * Pow2(d - 3) == 16 * Pow2(d - 4);
      FormatLength(n / 16, digits - 1);
    }
  }

  /** The header has the length that disppc adds up. */
  lemma HeaderIs(virt: Word, w: Word, raw: bool)
    ensures |Header(virt, w, raw)| == HeaderLength(raw)
  {
    PowersOfTwo();
    assert Pow2(8) == 256;
    FormatLength(virt, 8);
    FormatLength(w / 0x100_0000 % 0x100, 2);
    FormatLength(w / 0x1_0000 % 0x100, 2);
    FormatLength(w / 0x100 % 0x100, 2);
    FormatLength(w % 0x100, 2);
  }

  /** Moving one line from the rest to the lines done. */
  lemma LinesStep(t: seq<Opcode>, m: seq<SprInfo>, memory: seq<Word>, i: nat, virt: Word, radix: Radix, simple: bool, raw: bool, done: seq<string>, line: string)
    requires TableOk(t) && i < |memory| && line == Line(t, m, virt, memory[i], radix, simple, raw)
    ensures done + Lines(t, m, memory[i..], virt, radix, simple, raw)
         == (done + [line]) + Lines(t, m, memory[i + 1..], Wrap(virt + 4), radix, simple, raw)
  {
    assert memory[i..][1..] == memory[i + 1..];
    var rest := Lines(t, m, memory[i + 1..], Wrap(virt + 4), radix, simple, raw);
    assert done + ([line] + rest) == (done + [line]) + rest;
  }

  /** disppc over the words of the memory at `memaddr`, which stands in for a zero `virtual`; the
      lines are what it hands to `pfunc`. */
  method DisPpc(t: seq<Opcode>, m: seq<SprInfo>, memory: seq<Word>, memaddr: Word, virtual: Word, radix: Radix, simple: bool, raw: bool)
    returns (lines: seq<string>)
    requires OpcodeSearch.Searchable(t) && TableOk(t)
    ensures lines == Lines(t, m, memory, if virtual == 0 then memaddr else virtual, radix, simple, raw)
  {
    lines := [];
    var virt := virtual;
    if virt == 0 {
      virt := memaddr;
    }
    ghost var first := virt;
    for i := 0 to |memory|
      invariant lines + Lines(t, m, memory[i..], virt, radix, simple, raw)
             == Lines(t, m, memory, first, radix, simple, raw)
    {
      var line := DisOne(t, m, virt, memory[i], radix, simple, raw);
      LinesStep(t, m, memory, i, virt, radix, simple, raw, lines, line);
      lines := lines + [line];
      virt := Wrap(virt as int + 4);
    }
  }

  /** The body of the loop of disppc. */
  method DisOne(t: seq<Opcode>, m: seq<SprInfo>, virt: Word, w: Word, radix: Radix, simple: bool, raw: bool)
    returns (line: string)
    requires OpcodeSearch.Searchable(t) && TableOk(t)
    ensures line == Line(t, m, virt, w, radix, simple, raw)
  {
    var found := OpcodeSearch.FindOpcode(t, w);
    if found.None? {
      return Header(virt, w, raw) + LongText(w);
    }
    var op := found.value;
    if simple && op.hfunc == HandleBc {
      var simpler := SimplifyBc(op, w);
      if simpler.Some? {
        op := SimpleOpcode(simpler.value);
      }
    }
    line := DisEntry(m, op, virt, w, radix, raw);
  }

  method DisEntry(m: seq<SprInfo>, op: Opcode, virt: Word, w: Word, radix: Radix, raw: bool) returns (line: string)
    requires OperandsOk(op)
    ensures line == EntryLine(m, op, virt, w, radix, raw)
  {
    var ctx := new PpcCtx(Header(virt, w, raw) + PadName(op.name), HeaderLength(raw) + 8);
    ctx.PrintOperands(m, op, virt, w, radix);
    return ctx.data;
  }
}
