/** The texts of two instructions of the D form, character by character: how addi is written and
    printed, and how lwz is printed. */
module DForm {
  import opened Wrappers
  import opened Bits
  import opened Ppc
  import OperandLists
  import opened OpcodeSearch
  import opened Text
  import opened Sprs
  import opened Assembler
  import opened Disassembler
  import opened RoundTrip
  import opened Reassembly
  import opened Numerals
  import Decoding
  import AssembledLine

  const ADDI := Opcode(0x3800_0000, 0xfc00_0000, [O_rD, O_rA, O_SIMM], NoHandler, "addi", {H_RA0_IS_0})
  const LWZ := Opcode(0x8000_0000, 0xfc00_0000, [O_rD, O_d, O_rA], NoHandler, "lwz", {H_RA0_IS_0})

  // ----- three words -----

  lemma ThreeWords(a: string, b: string, c: string, d: string)
    requires IsWord(a) && IsWord(b) && IsWord(c) && IsWord(d)
    ensures
      var text := a + (" " + (b + "," + (c + "," + d)));
      && FirstWord(text) == a && AfterWord(text) == " " + (b + "," + (c + "," + d))
      && Decoding.Nth(text, 0) == a && Decoding.Nth(text, 1) == b && Decoding.Nth(text, 2) == c && Decoding.Nth(text, 3) == d
  {
    var rest := b + "," + (c + "," + d);
    WordThenBlank(a, " " + rest);
    BlanksFirst(" ", rest);
    WordThenComma(b, c + "," + d);
    WordThenComma(c, d);
    WordAtEnd(d);
  }

  // ----- addi, written -----

  function Register(n: nat): string { "r" + Format(n, 10) }

  function AddiText(d: nat, a: nat, n: int): string {
    "addi" + (" " + (Register(d) + "," + (Register(a) + "," + SignedDecimal(n))))
  }

  lemma SignedIsWord(n: int)
    ensures IsWord(SignedDecimal(n))
  {
    NumeralIsWord(if n < 0 then -n else n, 10);
    if n < 0 { PrefixedIsWord("-", Format(-n, 10)); }
  }

  lemma DFields(w: Word)
    ensures Extract(O_rD, w) == w / 0x20_0000 % 32 && Extract(O_rA, w) == w / 0x1_0000 % 32
    ensures Extract(O_SIMM, w) == w % 0x1_0000 && Extract(O_d, w) == w % 0x8000
  {
    PowersOfTwo();
    FieldIsModulo(w, 21, 5);
    FieldIsModulo(w, 16, 5);
    FieldIsModulo(w, 0, 16);
    FieldIsModulo(w, 0, 15);
    assert Pow2(5) == 32;
  }

  lemma DFormWord(w: Word, d: nat, a: nat, low: nat)
    requires Primary(w) == 14 && w / 0x20_0000 % 32 == d && w / 0x1_0000 % 32 == a && w % 0x1_0000 == low
    ensures w == 0x3800_0000 + d * 0x20_0000 + a * 0x1_0000 + low
  {
    var x := w / 0x1_0000;
    var y := x / 32;
    assert w == x * 0x1_0000 + low && x == y * 32 + a && y / 32 == 14 && y % 32 == d;
  }

  /** Its operands do not fail. */
  lemma AddiOperands(m: seq<SprInfo>, memaddr: Word, d: nat, a: nat, n: int, words: seq<string>)
    requires d < 32 && a < 32 && words == [Register(d), Register(a), SignedDecimal(n)] && OperandsOk(ADDI)
    ensures forall k | 0 <= k < 3 :: !AssembledLine.FailsAt(m, memaddr, ADDI, words, k)
    ensures OperandData(m, memaddr, ADDI, O_rD, Register(d)) == Ok(d)
    ensures OperandData(m, memaddr, ADDI, O_rA, Register(a)) == Ok(a)
    ensures OperandData(m, memaddr, ADDI, O_SIMM, SignedDecimal(n)) == Ok(Wrap(n))
  {
    AssembledLine.RegisterWritten(m, memaddr, ADDI, O_rD, "r", d);
    AssembledLine.RegisterWritten(m, memaddr, ADDI, O_rA, "r", a);
    AssembledLine.NumberWritten(m, memaddr, ADDI, O_SIMM, n);
    SignedIsWord(n);
    forall k | 0 <= k < 3 ensures !AssembledLine.FailsAt(m, memaddr, ADDI, words, k) {
      assert k == 0 || k == 1 || k == 2;
    }
  }

  lemma AddiIsWords(d: nat, a: nat, n: int)
    ensures
      var text := AddiText(d, a, n);
      && Decoding.Nth(text, 0) == "addi" && FirstWord(text) == "addi" && Lower("addi") == "addi"
      && AssembledLine.OperandWords(text, 3) == [Register(d), Register(a), SignedDecimal(n)]
  {
    RegisterIsWord(d);
    RegisterIsWord(a);
    SignedIsWord(n);
    assert NameOk("addi");
    NameIsWord("addi");
    ThreeWords("addi", Register(d), Register(a), SignedDecimal(n));
    assert AssembledLine.OperandWords(AddiText(d, a, n), 3) == [Register(d), Register(a), SignedDecimal(n)];
  }

  lemma AddiSucceeds(t: seq<Opcode>, m: seq<SprInfo>, memaddr: Word, d: nat, a: nat, n: int)
    requires WellFormed(t) && ADDI in t && d < 32 && a < 32
    ensures Asm(t, m, memaddr, AddiText(d, a, n)).Ok?
  {
    var text := AddiText(d, a, n);
    AddiIsWords(d, a, n);
    AssembledLine.LineOutcome(t, m, memaddr, text);
    AddiOperands(m, memaddr, d, a, n, AssembledLine.OperandWords(text, 3));
  }

  /** `addi rD,rA,n` in decimal, for all registers and all n: the fields of the word are D, A and n modulo
      2^16. */
  lemma AddiAssembles(t: seq<Opcode>, m: seq<SprInfo>, memaddr: Word, d: nat, a: nat, n: int)
    requires WellFormed(t) && ADDI in t && d < 32 && a < 32
    ensures Asm(t, m, memaddr, AddiText(d, a, n)) ==
              Ok(0x3800_0000 + d * 0x20_0000 + a * 0x1_0000 + n % 0x1_0000)
  {
    var text := AddiText(d, a, n);
    AddiSucceeds(t, m, memaddr, d, a, n);
    AddiIsWords(d, a, n);
    var w := Asm(t, m, memaddr, text).value;
    AddiDecoded(t, m, memaddr, text, w, AssembledLine.OperandWords(text, 3));
    AddiWord(t, m, memaddr, d, a, n, w, AssembledLine.OperandWords(text, 3));
  }

  lemma AddiDecoded(t: seq<Opcode>, m: seq<SprInfo>, memaddr: Word, text: string, w: nat, words: seq<string>)
    requires WellFormed(t) && ADDI in t && Asm(t, m, memaddr, text) == Ok(w)
    requires Lower(FirstWord(text)) == ADDI.name && words == AssembledLine.OperandWords(text, 3)
    ensures w < WORD_LIMIT && Lookup(t, w) == Some(ADDI) && OperandsOk(ADDI)
    ensures forall j | 0 <= j < 3 ::
              var data := OperandData(m, memaddr, ADDI, ADDI.fields[j], words[j]);
              data.Ok? && Extract(ADDI.fields[j], w) == data.value % Pow2(ADDI.fields[j].bits)
  {
    var k :| 0 <= k < |t| && t[k] == ADDI;
    ByNameIs(t, k);
    Decoding.AssembleDecode(t, m, memaddr, text);
    RowFields();
    forall j | 0 <= j < 3 ensures words[j] == Decoding.Nth(text, j + 1) && !IsSilent(ADDI.fields[j]) {
      assert j == 0 || j == 1 || j == 2;
    }
  }

  /** What a field of the word holds, given what was read for it. */
  lemma FieldHolds(m: seq<SprInfo>, memaddr: Word, f: Operand, w: nat, text: string, n: nat, p: nat)
    requires f.hint != Addr && OperandData(m, memaddr, ADDI, f, text) == Ok(n) && p == Pow2(f.bits)
    requires
      var data := OperandData(m, memaddr, ADDI, f, text);
      data.Ok? && Extract(f, w) == data.value % Pow2(f.bits)
    ensures Extract(f, w) == n % p
  {
  }

  lemma AddiPrimary(t: seq<Opcode>, w: Word)
    requires Lookup(t, w) == Some(ADDI)
    ensures Primary(w) == 14
  {
    LookupFinds(t, w);
    PrimaryOfMasked(w, ADDI.mask);
  }

  lemma SmallPowers()
    ensures Pow2(5) == 32 && Pow2(16) == 0x1_0000
  {
    PowersOfTwo();
  }

  lemma AddiWord(t: seq<Opcode>, m: seq<SprInfo>, memaddr: Word, d: nat, a: nat, n: int, w: nat, words: seq<string>)
    requires d < 32 && a < 32 && w < WORD_LIMIT && Lookup(t, w) == Some(ADDI) && OperandsOk(ADDI)
    requires words == [Register(d), Register(a), SignedDecimal(n)]
    requires forall j | 0 <= j < 3 ::
      var data := OperandData(m, memaddr, ADDI, ADDI.fields[j], words[j]);
      data.Ok? && Extract(ADDI.fields[j], w) == data.value % Pow2(ADDI.fields[j].bits)
    ensures w == 0x3800_0000 + d * 0x20_0000 + a * 0x1_0000 + n % 0x1_0000
  {
    AddiOperands(m, memaddr, d, a, n, words);
    SmallPowers();
    assert ADDI.fields[0] == O_rD && ADDI.fields[1] == O_rA && ADDI.fields[2] == O_SIMM;
    FieldHolds(m, memaddr, O_rD, w, words[0], d, 32);
    FieldHolds(m, memaddr, O_rA, w, words[1], a, 32);
    FieldHolds(m, memaddr, O_SIMM, w, words[2], Wrap(n), 0x1_0000);
    DFields(w);
    SmallMod(d, 32);
    SmallMod(a, 32);
    AssembledLine.WrapLow(n);
    AddiFields(t, w, d, a, n);
  }

  lemma AddiFields(t: seq<Opcode>, w: Word, d: nat, a: nat, n: int)
    requires d < 32 && a < 32 && Lookup(t, w) == Some(ADDI)
    requires w / 0x20_0000 % 32 == d && w / 0x1_0000 % 32 == a && w % 0x1_0000 == n % 0x1_0000
    ensures w == 0x3800_0000 + d * 0x20_0000 + a * 0x1_0000 + n % 0x1_0000
  {
    AddiPrimary(t, w);
    DFormWord(w, d, a, n % 0x1_0000);
  }

  // ----- printed -----

  /** A base register of zero stands for the number zero. */
  function Base(a: nat): string { if a == 0 then "0" else Register(a) }

  /** The line of a row with three operands. */
  lemma ThreePrinted(t: seq<Opcode>, m: seq<SprInfo>, virt: Word, w: Word, radix: Radix, simple: bool, raw: bool, e: Opcode, texts: seq<string>)
    requires WellFormed(t) && e in t && Matches(e, w) && e.hfunc == NoHandler && |e.name| < 8 && OperandsOk(e)
    requires |e.fields| == 3 == |texts| && !IsSilent(e.fields[0]) && !IsSilent(e.fields[1]) && !IsSilent(e.fields[2])
    requires forall k | 0 <= k < 3 :: texts[k] == FieldText(m, e, e.fields[k], virt, w, radix)
    requires e.fields[0].hint != Offset
    ensures Shown(t, m, virt, w, radix, simple, raw) ==
              PadName(e.name) + (texts[0] + "," +
                if e.fields[1].hint == Offset then texts[1] + "(" + texts[2] + ")" else texts[1] + "," + texts[2])
  {
    var k :| 0 <= k < |t| && t[k] == e;
    var tokens := Tokens(m, e, virt, w, radix);
    ShownIs(t, m, virt, w, radix, simple, raw, k);
    assert Body(e.fields, tokens, 2) == texts[2];
    assert Body(e.fields, tokens, 1) ==
      if e.fields[1].hint == Offset then texts[1] + "(" + texts[2] + ")" else texts[1] + "," + texts[2];
  }

  /** The texts of the fields. */
  lemma RegisterText(m: seq<SprInfo>, e: Opcode, virt: Word, w: Word)
    ensures FieldText(m, e, O_rD, virt, w, Hex) == Register(w / 0x20_0000 % 32)
  {
    DFields(w);
  }

  lemma BaseText(m: seq<SprInfo>, e: Opcode, virt: Word, w: Word)
    requires H_RA0_IS_0 in e.hint
    ensures FieldText(m, e, O_rA, virt, w, Hex) == Base(w / 0x1_0000 % 32)
  {
    DFields(w);
  }

  lemma LowText(m: seq<SprInfo>, e: Opcode, virt: Word, w: Word)
    ensures FieldText(m, e, O_SIMM, virt, w, Hex) == "0x" + Format(w % 0x1_0000, 16)
    ensures FieldText(m, e, O_d, virt, w, Hex) == "0x" + Format(w % 0x8000, 16)
  {
    DFields(w);
    NumberText(m, e, O_SIMM, virt, w, w % 0x1_0000);
    NumberText(m, e, O_d, virt, w, w % 0x8000);
  }

  lemma NumberText(m: seq<SprInfo>, e: Opcode, f: Operand, virt: Word, w: Word, n: nat)
    requires OperandOk(f) && (f.hint == Plain || f.hint == Offset) && Extract(f, w) == n < 0x1_0000
    ensures FieldText(m, e, f, virt, w, Hex) == "0x" + Format(n, 16)
  {
    SmallMod(n, 0x1_0000);
    assert FieldText(m, e, f, virt, w, Hex) == RadixText(Hex, n % 0x1_0000);
  }

  /** addi in hexadecimal: registers in decimal, the immediate without its sign. */
  lemma AddiPrinted(t: seq<Opcode>, m: seq<SprInfo>, virt: Word, w: Word, simple: bool, raw: bool)
    requires WellFormed(t) && ADDI in t && Matches(ADDI, w)
    ensures Shown(t, m, virt, w, Hex, simple, raw) ==
              "addi    " + (Register(w / 0x20_0000 % 32) + "," +
                (Base(w / 0x1_0000 % 32) + "," + ("0x" + Format(w % 0x1_0000, 16))))
  {
    var texts := [Register(w / 0x20_0000 % 32), Base(w / 0x1_0000 % 32), "0x" + Format(w % 0x1_0000, 16)];
    RegisterText(m, ADDI, virt, w);
    BaseText(m, ADDI, virt, w);
    LowText(m, ADDI, virt, w);
    RowFields();
    ThreePrinted(t, m, virt, w, Hex, simple, raw, ADDI, texts);
    PaddedNames();
  }

  lemma PaddedNames()
    ensures PadName("addi") == "addi    " && PadName("lwz") == "lwz     "
  {
  }

  lemma RowFields()
    ensures ADDI.fields[0] == O_rD && ADDI.fields[1] == O_rA && ADDI.fields[2] == O_SIMM && |ADDI.fields| == 3
    ensures LWZ.fields[0] == O_rD && LWZ.fields[1] == O_d && LWZ.fields[2] == O_rA && |LWZ.fields| == 3
  {
  }

  /** lwz: the base register in parentheses behind the offset, of which the table has fifteen bits. */
  lemma LwzPrinted(t: seq<Opcode>, m: seq<SprInfo>, virt: Word, w: Word, simple: bool, raw: bool)
    requires WellFormed(t) && LWZ in t && Matches(LWZ, w)
    ensures Shown(t, m, virt, w, Hex, simple, raw) ==
              "lwz     " + (Register(w / 0x20_0000 % 32) + "," +
                ("0x" + Format(w % 0x8000, 16) + "(" + Base(w / 0x1_0000 % 32) + ")"))
  {
    var texts := [Register(w / 0x20_0000 % 32), "0x" + Format(w % 0x8000, 16), Base(w / 0x1_0000 % 32)];
    RegisterText(m, LWZ, virt, w);
    BaseText(m, LWZ, virt, w);
    LowText(m, LWZ, virt, w);
    RowFields();
    ThreePrinted(t, m, virt, w, Hex, simple, raw, LWZ, texts);
    PaddedNames();
  }

  lemma SameLine(mnemonic: string, d: string, a: string, b: string, base: string)
    requires mnemonic + (d + "," + ("0x" + a + "(" + base + ")")) == mnemonic + (d + "," + ("0x" + b + "(" + base + ")"))
    ensures a == b
  {
    var s, t := "0x" + a + "(" + base + ")", "0x" + b + "(" + base + ")";
    assert (mnemonic + (d + "," + s))[|mnemonic| + |d| + 1..] == s;
    assert (mnemonic + (d + "," + t))[|mnemonic| + |d| + 1..] == t;
    assert |a| == |b| && s[2..][..|a|] == a && t[2..][..|b|] == b;
  }

  lemma LowHalf(w: Word)
    ensures w % 0x8000 == w % 0x1_0000 <==> w / 0x8000 % 2 == 0
  {
    var q := w / 0x8000;
    assert w % 0x1_0000 == q % 2 * 0x8000 + w % 0x8000;
  }

  /** The displacement of the instruction has sixteen bits: it is what the line shows exactly when its
      sign bit is clear. */
  lemma LwzShowsOffsetIff(t: seq<Opcode>, m: seq<SprInfo>, virt: Word, w: Word, simple: bool, raw: bool)
    requires WellFormed(t) && LWZ in t && Matches(LWZ, w)
    ensures w / 0x8000 % 2 == 0 <==>
              Shown(t, m, virt, w, Hex, simple, raw) ==
                "lwz     " + (Register(w / 0x20_0000 % 32) + "," +
                  ("0x" + Format(w % 0x1_0000, 16) + "(" + Base(w / 0x1_0000 % 32) + ")"))
  {
    LwzPrinted(t, m, virt, w, simple, raw);
    LowHalf(w);
    ValueOfFormat(w % 0x1_0000, 16);
    ValueOfFormat(w % 0x8000, 16);
    OffsetsAgree(w % 0x8000, w % 0x1_0000, Register(w / 0x20_0000 % 32), Base(w / 0x1_0000 % 32));
  }

  lemma OffsetsAgree(a: nat, b: nat, d: string, base: string)
    ensures a == b <==>
              "lwz     " + (d + "," + ("0x" + Format(a, 16) + "(" + base + ")")) ==
                "lwz     " + (d + "," + ("0x" + Format(b, 16) + "(" + base + ")"))
  {
    var x, y := Format(a, 16), Format(b, 16);
    ValueOfFormat(a, 16);
    ValueOfFormat(b, 16);
    if "lwz     " + (d + "," + ("0x" + x + "(" + base + ")")) == "lwz     " + (d + "," + ("0x" + y + "(" + base + ")")) {
      SameLine("lwz     ", d, x, y, base);
    }
  }

  /** `lwz r3,-8(r1)` */
  const LWZ_R3_MINUS_8_R1: Word := 0x8061_fff8

  lemma MinusEightDigits()
    ensures Format(0x7ff8, 16) == "7ff8" && Register(3) == "r3" && Base(1) == "r1"
  {
    assert Format(0x7, 16) == "7" && Format(0x7f, 16) == "7f" && Format(0x7ff, 16) == "7ff";
  }

  lemma MinusEightFields(w: Word)
    requires w == LWZ_R3_MINUS_8_R1
    ensures w % 0x8000 == 0x7ff8 && w / 0x20_0000 % 32 == 3 && w / 0x1_0000 % 32 == 1
  {
  }

  lemma MinusEightText()
    ensures "lwz     " + ("r3" + "," + ("0x" + "7ff8" + "(" + "r1" + ")")) == "lwz     r3,0x7ff8(r1)"
  {
  }

  lemma LwzLine(t: seq<Opcode>, m: seq<SprInfo>, virt: Word, w: Word, simple: bool, raw: bool, d: string, offset: string, base: string)
    requires WellFormed(t) && LWZ in t && Matches(LWZ, w)
    requires d == Register(w / 0x20_0000 % 32) && offset == Format(w % 0x8000, 16) && base == Base(w / 0x1_0000 % 32)
    ensures Shown(t, m, virt, w, Hex, simple, raw) == "lwz     " + (d + "," + ("0x" + offset + "(" + base + ")"))
  {
    LwzPrinted(t, m, virt, w, simple, raw);
  }

  lemma LwzMinusEight(t: seq<Opcode>, m: seq<SprInfo>, virt: Word, w: Word, simple: bool, raw: bool)
    requires WellFormed(t) && LWZ in t && w == LWZ_R3_MINUS_8_R1 && Matches(LWZ, w)
    ensures Shown(t, m, virt, w, Hex, simple, raw) == "lwz     r3,0x7ff8(r1)"
  {
    MinusEightFields(w);
    MinusEightDigits();
    LwzLine(t, m, virt, w, simple, raw, "r3", "7ff8", "r1");
    MinusEightText();
  }
}
