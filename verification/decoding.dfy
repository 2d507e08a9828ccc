/** Assembling a line and decoding the word. */
module Decoding {
  import opened Wrappers
  import opened Bits
  import opened Ppc
  import OpcodeSearch
  import opened Text
  import Sprs
  import opened Assembler
  import opened RoundTrip

  /** The `n`th word of a text. */
  function Nth(text: string, n: nat): string
    decreases n
  {
    if n == 0 then FirstWord(text) else Nth(AfterWord(text), n - 1)
  }

  /** The words that the operands from the `k`th on are read from. */
  ghost predicate WordsFrom(words: seq<string>, k: nat, text: string) {
    forall j: nat | k <= j < |words| :: words[j] == Nth(text, j - k)
  }

  lemma WordsStep(words: seq<string>, k: nat, text: string)
    requires k < |words| && WordsFrom(words, k, text)
    ensures words[k] == FirstWord(text) && WordsFrom(words, k + 1, AfterWord(text))
  {
    assert words[k] == Nth(text, k - k);
    forall j: nat | k + 1 <= j < |words| ensures words[j] == Nth(AfterWord(text), j - (k + 1)) {
      assert words[j] == Nth(text, j - k);
    }
  }

  /** `r` is what the operands contribute when they are read from `words`. */
  ghost predicate Contribute(m: seq<Sprs.SprInfo>, memaddr: Word, e: Opcode, words: seq<string>, r: seq<Result<nat>>) {
    && OperandsOk(e)
    && |words| == |r| == |e.fields|
    && (forall j | 0 <= j < |r| :: r[j] == OperandBits(m, memaddr, e, e.fields[j], words[j]))
  }

  lemma {:induction false} FoldSilent(fields: seq<Operand>, mask: Word, r: seq<Result<nat>>, k: nat, acc: nat)
    requires k <= |fields| == |r| && FieldsOk(fields, mask) && !Printed(fields, k)
    ensures Fold(fields, r, k, acc) == Ok(acc)
    decreases |fields| - k
  {
    if k < |fields| {
      FoldSilent(fields, mask, r, k + 1, acc);
    }
  }

  lemma {:induction false} AsmSilent(m: seq<Sprs.SprInfo>, memaddr: Word, e: Opcode, k: nat, text: string, acc: nat)
    requires OperandsOk(e) && k <= |e.fields| && FieldsOk(e.fields, e.mask) && !Printed(e.fields, k)
    ensures AsmFields(m, memaddr, e, k, text, acc) == Ok(acc)
    decreases |e.fields| - k
  {
    if k < |e.fields| {
      AsmSilent(m, memaddr, e, k + 1, text, acc);
    }
  }

  /** A line that assembles joins what its words contribute. */
  lemma {:induction false} AsmJoins(m: seq<Sprs.SprInfo>, memaddr: Word, e: Opcode, words: seq<string>, r: seq<Result<nat>>, k: nat, text: string, acc: nat)
    requires Contribute(m, memaddr, e, words, r) && k <= |e.fields| && FieldsOk(e.fields, e.mask)
    requires WordsFrom(words, k, text)
    requires AsmFields(m, memaddr, e, k, text, acc).Ok?
    ensures AsmFields(m, memaddr, e, k, text, acc) == Fold(e.fields, r, k, acc)
    decreases |e.fields| - k
  {
    if !Printed(e.fields, k) {
      AsmSilent(m, memaddr, e, k, text, acc);
      FoldSilent(e.fields, e.mask, r, k, acc);
    } else {
      WordsStep(words, k, text);
      AsmJoins(m, memaddr, e, words, r, k + 1, AfterWord(text), Or(acc, r[k].value));
    }
  }

  /** The bits of an assembled word. */
  lemma JoinedBit(e: Opcode, r: seq<Result<nat>>, instr: nat, i: nat)
    requires EntryOk(e) && |r| == |e.fields| && Fold(e.fields, r, 0, e.opcode) == Ok(instr)
    requires forall j, b: nat | 0 <= j < |r| && r[j].Ok? && Bit(r[j].value, b) :: InField(e.fields[j], b)
    ensures Bit(instr, i) && Bit(e.mask, i) <==> Bit(e.opcode, i)
    ensures Bit(instr, i) ==> Covered(e, i) && i < 32
    ensures forall j | 0 <= j < |r| && !IsSilent(e.fields[j]) && InField(e.fields[j], i) ::
              r[j].Ok? && Bit(instr, i) == Bit(r[j].value, i)
  {
    FoldBit(e.fields, r, 0, e.opcode, i);
    FoldOk(e.fields, r, 0, e.opcode);
    BitAnd(e.opcode, e.mask, i);
    PowersOfTwo();
    if i >= 32 { HighBitsClear(e.opcode, 32, i); }
    forall j | 0 <= j < |r| && !IsSilent(e.fields[j]) && InField(e.fields[j], i)
      ensures Bit(instr, i) == Bit(r[j].value, i)
    {
      assert FieldVersusMask(e.fields[j], e.mask, IsSilent(e.fields[j]));
      forall k | 0 <= k < |r| && k != j && !IsSilent(e.fields[k]) && r[k].Ok?
        ensures !Bit(r[k].value, i)
      {
        assert Disjoint(e.fields[if j < k then j else k], e.fields[if j < k then k else j]);
      }
    }
  }

  lemma ContributionInField(m: seq<Sprs.SprInfo>, memaddr: Word, e: Opcode, words: seq<string>, r: seq<Result<nat>>, j: nat, i: nat)
    requires Contribute(m, memaddr, e, words, r) && j < |r| && r[j].Ok? && Bit(r[j].value, i)
    ensures InField(e.fields[j], i)
  {
    var f := e.fields[j];
    BitPlace(OperandData(m, memaddr, e, f, words[j]).value, f.shift, f.bits, i);
  }

  lemma FitsWord(w: nat)
    requires forall i: nat | Bit(w, i) :: i < 32
    ensures w < WORD_LIMIT
  {
    BelowPow2(w, 32);
    PowersOfTwo();
  }

  lemma FieldOfPlaced(f: Operand, w: nat, data: nat)
    requires forall i: nat | InField(f, i) :: Bit(w, i) == Bit(Insert(f, data), i)
    ensures Extract(f, w) == data % Pow2(f.bits)
  {
    FieldLocal(w, Insert(f, data), f.shift, f.bits);
    forall i: nat ensures !Bit(0, i) { BitZero(i); }
    FieldOfPlace(0, data, f.shift, f.bits);
  }

  /** Assembling then decoding: when a line assembles, the word is found in the table under the
      mnemonic of the line, every printed operand decodes to the value that was parsed from its
      word, cut to its field, and the word has no other bits. */
  lemma AssembleDecode(t: seq<Opcode>, m: seq<Sprs.SprInfo>, memaddr: Word, text: string)
    requires WellFormed(t) && Asm(t, m, memaddr, text).Ok?
    ensures
      var instr := Asm(t, m, memaddr, text).value;
      var opc := ByName(t, Lower(FirstWord(text)));
      && instr < WORD_LIMIT
      && opc.Some? && opc.value in t && OpcodeSearch.Lookup(t, instr) == opc
      && NoStrayBits(opc.value, instr)
      && OperandsOk(opc.value)
      && forall j | 0 <= j < |opc.value.fields| && !IsSilent(opc.value.fields[j]) ::
           var f := opc.value.fields[j];
           var data := OperandData(m, memaddr, opc.value, f, Nth(text, j + 1));
           data.Ok? && Extract(f, instr) == data.value % Pow2(f.bits)
  {
    var name := Lower(FirstWord(text));
    ByNameFinds(t, name);
    var e := ByName(t, name).value;
    var n :| 0 <= n < |t| && t[n] == e;
    DecodedLine(t, m, memaddr, n, AfterWord(text), Asm(t, m, memaddr, text).value);
    assert forall j: nat :: Nth(AfterWord(text), j) == Nth(text, j + 1);
  }

  lemma DecodedLine(t: seq<Opcode>, m: seq<Sprs.SprInfo>, memaddr: Word, n: nat, rest: string, instr: nat)
    requires WellFormed(t) && n < |t|
    requires AsmFields(m, memaddr, t[n], 0, rest, t[n].opcode) == Ok(instr)
    ensures instr < WORD_LIMIT && OpcodeSearch.Lookup(t, instr) == Some(t[n]) && NoStrayBits(t[n], instr)
    ensures forall j | 0 <= j < |t[n].fields| && !IsSilent(t[n].fields[j]) ::
              var data := OperandData(m, memaddr, t[n], t[n].fields[j], Nth(rest, j));
              data.Ok? && Extract(t[n].fields[j], instr) == data.value % Pow2(t[n].fields[j].bits)
  {
    var e := t[n];
    var words := seq(|e.fields|, j requires 0 <= j < |e.fields| => Nth(rest, j));
    var r := seq(|e.fields|, j requires 0 <= j < |e.fields| => OperandBits(m, memaddr, e, e.fields[j], words[j]));
    AsmJoins(m, memaddr, e, words, r, 0, rest, e.opcode);
    DecodedFields(t, m, memaddr, n, words, r, instr);
    assert forall j | 0 <= j < |words| :: words[j] == Nth(rest, j);
  }

  lemma DecodedFields(t: seq<Opcode>, m: seq<Sprs.SprInfo>, memaddr: Word, n: nat, words: seq<string>, r: seq<Result<nat>>, instr: nat)
    requires WellFormed(t) && n < |t| && Contribute(m, memaddr, t[n], words, r)
    requires Fold(t[n].fields, r, 0, t[n].opcode) == Ok(instr)
    ensures instr < WORD_LIMIT && OpcodeSearch.Lookup(t, instr) == Some(t[n]) && NoStrayBits(t[n], instr)
    ensures forall j | 0 <= j < |words| && !IsSilent(t[n].fields[j]) ::
              var data := OperandData(m, memaddr, t[n], t[n].fields[j], words[j]);
              data.Ok? && Extract(t[n].fields[j], instr) == data.value % Pow2(t[n].fields[j].bits)
  {
    var e := t[n];
    forall j, b: nat | 0 <= j < |r| && r[j].Ok? && Bit(r[j].value, b) ensures InField(e.fields[j], b) {
      ContributionInField(m, memaddr, e, words, r, j, b);
    }
    DecodedWord(t, n, r, instr);
    forall j | 0 <= j < |words| && !IsSilent(e.fields[j])
      ensures
        var data := OperandData(m, memaddr, e, e.fields[j], words[j]);
        data.Ok? && Extract(e.fields[j], instr) == data.value % Pow2(e.fields[j].bits)
    {
      FieldOfPlaced(e.fields[j], instr, OperandData(m, memaddr, e, e.fields[j], words[j]).value);
    }
  }

  lemma DecodedWord(t: seq<Opcode>, n: nat, r: seq<Result<nat>>, instr: nat)
    requires WellFormed(t) && n < |t| && |r| == |t[n].fields|
    requires Fold(t[n].fields, r, 0, t[n].opcode) == Ok(instr)
    requires forall j, b: nat | 0 <= j < |r| && r[j].Ok? && Bit(r[j].value, b) :: InField(t[n].fields[j], b)
    ensures instr < WORD_LIMIT && OpcodeSearch.Lookup(t, instr) == Some(t[n]) && NoStrayBits(t[n], instr)
    ensures forall j | 0 <= j < |r| && !IsSilent(t[n].fields[j]) ::
              r[j].Ok? && forall i: nat | InField(t[n].fields[j], i) :: Bit(instr, i) == Bit(r[j].value, i)
  {
    var e := t[n];
    FoldOk(e.fields, r, 0, e.opcode);
    forall i: nat
      ensures Bit(And(instr, e.mask), i) == Bit(e.opcode, i)
      ensures Bit(instr, i) ==> Covered(e, i) && i < 32
    {
      JoinedBit(e, r, instr, i);
      BitAnd(instr, e.mask, i);
    }
    SameBits(And(instr, e.mask), e.opcode);
    FitsWord(instr);
    OpcodeSearch.LookupIs(t, instr, n);
    forall j | 0 <= j < |r| && !IsSilent(e.fields[j])
      ensures r[j].Ok? && forall i: nat | InField(e.fields[j], i) :: Bit(instr, i) == Bit(r[j].value, i)
    {
      forall i: nat | InField(e.fields[j], i) ensures Bit(instr, i) == Bit(r[j].value, i) {
        JoinedBit(e, r, instr, i);
      }
    }
  }
}
