/** The assembler: one line of text to one instruction word. */
module Assembler {
  import opened Wrappers
  import opened Bits
  import opened Ppc
  import opened Text
  import opened Sprs

  /** `EmptyLine` is the zero that asmppc returns without setting an error. */
  datatype AsmError = EmptyLine | BadOpcode | NumOperands | BadRegister | BadSpr | BadTbr

  datatype Result<+T> = Ok(value: T) | Err(error: AsmError)

  // ----- specification -----

  /** The entry that find_opcode_by_name finds for a lowered name. */
  function ByName(t: seq<Opcode>, name: string): Option<Opcode> {
    if t == [] then None
    else if t[0].name == name then Some(t[0])
    else ByName(t[1..], name)
  }

  /** The field value of an address: the distance from `memaddr` in words when the opcode is
      relative, with the sign moved to the top bit of the field. */
  function AddressData(memaddr: Word, e: Opcode, f: Operand, txt: string): nat
    requires f.bits > 0
  {
    var data := Signed(if Relative(e) then Wrap(ReadNumber(txt) - memaddr) else ReadNumber(txt));
    var low := And(Wrap(data / 4), Ones(f.bits - 1));
    if data < 0 then Or(low, Pow2(f.bits - 1)) else low
  }

  /** A register may be written `3`, `r3`, `R3`, `%r3` or `%R3`. */
  function RegisterDigits(txt: string): string {
    if |txt| > 0 && txt[0] in "rR" then txt[1..]
    else if |txt| > 1 && txt[0] == '%' && txt[1] in "rR" then txt[2..]
    else txt
  }

  /** The value of an operand, before it is cut to its field. */
  function OperandData(m: seq<SprInfo>, memaddr: Word, e: Opcode, f: Operand, txt: string): Result<nat>
    requires f.hint == Addr ==> f.bits > 0
  {
    match f.hint
    case Addr => Ok(AddressData(memaddr, e, f, txt))
    case Reg =>
      var data := ReadNumber(RegisterDigits(txt));
      if Signed(data) > 31 then Err(BadRegister) else Ok(data)
    case Spr => if SprValue(m, txt) == 0 then Err(BadSpr) else Ok(SprValue(m, txt))
    case Tbr => if TbrValue(txt) == 0 then Err(BadTbr) else Ok(TbrValue(txt))
    case _ => Ok(ReadNumber(txt))
  }

  /** parse_operand: the bits to be joined to the instruction. */
  function OperandBits(m: seq<SprInfo>, memaddr: Word, e: Opcode, f: Operand, txt: string): Result<nat>
    requires f.hint == Addr ==> f.bits > 0
  {
    match OperandData(m, memaddr, e, f, txt)
    case Ok(data) => Ok(Insert(f, data))
    case Err(err) => Err(err)
  }

  /** The operands from the `k`th field on, read from `text` and joined to `instr`. */
  function AsmFields(m: seq<SprInfo>, memaddr: Word, e: Opcode, k: nat, text: string, instr: nat): Result<nat>
    requires OperandsOk(e) && k <= |e.fields|
    decreases |e.fields| - k
  {
    if k == |e.fields| then Ok(instr)
    else if IsSilent(e.fields[k]) then AsmFields(m, memaddr, e, k + 1, text, instr)
    else if FirstWord(text) == "" then Err(NumOperands)
    else match OperandBits(m, memaddr, e, e.fields[k], FirstWord(text))
      case Ok(param) => AsmFields(m, memaddr, e, k + 1, AfterWord(text), Or(instr, param))
      case Err(err) => Err(err)
  }

  /** asmppc */
  function Asm(t: seq<Opcode>, m: seq<SprInfo>, memaddr: Word, text: string): Result<nat>
    requires TableOk(t)
  {
    if FirstWord(text) == "" then Err(EmptyLine)
    else match ByName(t, Lower(FirstWord(text)))
      case None => Err(BadOpcode)
      case Some(e) =>
        ByNameFinds(t, Lower(FirstWord(text)));
        AsmFields(m, memaddr, e, 0, AfterWord(text), e.opcode)
  }

  /** The words fit the 20-byte scratch buffer, which asmppc takes for granted. */
  predicate WordsFit(text: string)
    decreases |text|
  {
    FirstWord(text) == "" || (|FirstWord(text)| < 20 && WordsFit(AfterWord(text)))
  }

  lemma {:induction false} ByNameFinds(t: seq<Opcode>, name: string)
    ensures ByName(t, name).Some? ==> ByName(t, name).value in t && ByName(t, name).value.name == name
    ensures ByName(t, name).None? ==> forall e | e in t :: e.name != name
  {
    if t != [] && t[0].name != name {
      ByNameFinds(t[1..], name);
    }
  }

  // ----- implementation -----

  method FindOpcodeByName(t: seq<Opcode>, name: array<char>) returns (r: Option<Opcode>)
    requires '\0' in name[..]
    modifies name
    ensures r == ByName(t, Lower(CStr(old(name[..]))))
    ensures '\0' in name[..]
  {
    ghost var text := CStr(name[..]);
    DownString(name);
    assert name[..][|text|] == '\0';
    LowerKeeps(text);
    CStrIs(name[..], Lower(text));
    var lowered := CStr(name[..]);
    var idx := 0;
    while idx < |t|
      invariant 0 <= idx <= |t|
      invariant ByName(t, lowered) == ByName(t[idx..], lowered)
    {
      if lowered == t[idx].name {
        return Some(t[idx]);
      }
      assert t[idx..][1..] == t[idx + 1..];
      idx := idx + 1;
    }
    return None;
  }

  /** Lowering a string brings in no NUL. */
  lemma LowerKeeps(s: string)
    requires '\0' !in s
    ensures '\0' !in Lower(s)
  {
    forall i | 0 <= i < |s| ensures Lower(s)[i] != '\0' {
      assert s[i] in s;
    }
  }

  method ParseOperand(m: seq<SprInfo>, memaddr: Word, e: Opcode, f: Operand, txt: array<char>)
    returns (r: Result<nat>)
    requires f.hint == Addr ==> f.bits > 0
    requires '\0' in txt[..]
    modifies txt
    ensures r == OperandBits(m, memaddr, e, f, CStr(old(txt[..])))
  {
    var word := CStr(txt[..]);
    var data: nat;
    match f.hint {
      case Addr =>
        var number := ReadNumber(word);
        if Relative(e) {
          number := Wrap(number - memaddr);
        }
        var distance := Signed(number);
        var isNeg := distance < 0;
        data := And(Wrap(distance / 4), Ones(f.bits - 1));
        if isNeg {
          data := Or(data, Pow2(f.bits - 1));
        }
      case Reg =>
        data := ReadNumber(RegisterDigits(word));
        if Signed(data) > 31 {
          return Err(BadRegister);
        }
      case Spr =>
        data := FindSprValue(m, txt);
        if data == 0 {
          return Err(BadSpr);
        }
      case Tbr =>
        data := TbrValue(word);
        if data == 0 {
          return Err(BadTbr);
        }
      case _ =>
        data := ReadNumber(word);
    }
    return Ok(Insert(f, data));
  }

  method AsmPpc(t: seq<Opcode>, m: seq<SprInfo>, memaddr: Word, asmBuf: string) returns (r: Result<nat>)
    requires TableOk(t)
    requires '\0' !in asmBuf && WordsFit(asmBuf)
    ensures r == Asm(t, m, memaddr, asmBuf)
  {
    ghost var goal := Asm(t, m, memaddr, asmBuf);
    var scratch := new char[20];
    var ptr, nchars := GetWord(asmBuf, 0, scratch);
    assert asmBuf[0..] == asmBuf;
    if nchars == 0 {
      return Err(EmptyLine);
    }
    ghost var name := FirstWord(asmBuf);
    var opc := FindOpcodeByName(t, scratch);
    if opc.None? {
      return Err(BadOpcode);
    }
    var e := opc.value;
    ByNameFinds(t, Lower(name));
    var instr: nat := e.opcode;
    var nOperands := 0;
    while nOperands < |e.fields|
      invariant 0 <= nOperands <= |e.fields| && 0 <= ptr <= |asmBuf|
      invariant WordsFit(asmBuf[ptr..])
      invariant AsmFields(m, memaddr, e, nOperands, asmBuf[ptr..], instr) == goal
    {
      var f := e.fields[nOperands];
      if IsSilent(f) {
        nOperands := nOperands + 1;
        continue;
      }
      ptr, nchars := GetWord(asmBuf, ptr, scratch);
      if nchars == 0 {
        break;
      }
      var param := ParseOperand(m, memaddr, e, f, scratch);
      if param.Err? {
        return param;
      }
      instr := Or(instr, param.value);
      nOperands := nOperands + 1;
    }
    if nOperands < |e.fields| {
      return Err(NumOperands);
    }
    return Ok(instr);
  }
}
