/** Disassembling a word and assembling the text again. */
module RoundTrip {
  import opened Bits
  import opened Ppc
  import OpcodeSearch
  import opened Text
  import opened Sprs
  import opened Assembler
  import opened Disassembler
  import opened OperandRoundTrip

  /** What the assembler and the disassembler need of the opcode table. */
  ghost predicate WellFormed(t: seq<Opcode>) {
    && OpcodeSearch.Searchable(t)
    && TableOk(t)
    && (forall i | 0 <= i < |t| :: EntryOk(t[i]) && NameOk(t[i].name))
    && (forall i, j | 0 <= i < j < |t| :: t[i].name != t[j].name)
  }

  // ----- the printed operands as one text -----

  predicate Printed(fields: seq<Operand>, k: nat) { k < |fields| && !IsSilent(fields[k]) }

  /** The operands from the `k`th on, without the comma in front of them. */
  function Body(fields: seq<Operand>, tokens: seq<Token>, k: nat): string
    requires |fields| == |tokens|
    decreases |fields| - k
  {
    if !Printed(fields, k) then ""
    else if !Printed(fields, k + 1) then tokens[k].text
    else if fields[k].hint == Offset then tokens[k].text + "(" + tokens[k + 1].text + ")"
    else tokens[k].text + "," + Body(fields, tokens, k + 1)
  }

  function Comma(k: nat): string { if k > 0 then "," else "" }

  /** At an aligned position it makes no difference how the text is added. */
  lemma FieldPrinted(fields: seq<Operand>, tokens: seq<Token>, k: nat, o: Out, parens: nat)
    requires k < |fields| == |tokens| && o.len == |o.data|
    ensures
      var open := if parens == 0 then Comma(k) else "";
      var close := if Closes(fields[k], parens) then ")" else if fields[k].hint == Offset then "(" else "";
      var r := PrintField(fields, tokens, k, o, parens);
      r.data == o.data + (open + tokens[k].text + close) && r.len == |r.data|
  {
    var open := if parens == 0 then Comma(k) else "";
    assert o.data + "" == o.data;
    assert (o.data + open)[..|o.data + open|] == o.data + open;
  }

  lemma OffsetPrinted(fields: seq<Operand>, mask: Word, tokens: seq<Token>, k: nat, o: Out)
    requires k < |fields| == |tokens| && FieldsOk(fields, mask)
    requires o.len == |o.data| && fields[k].hint == Offset
    ensures PrintFrom(fields, tokens, k, o, 0).data == o.data + (Comma(k) + Body(fields, tokens, k))
  {
    FieldPrinted(fields, tokens, k, o, 0);
    var o1 := PrintField(fields, tokens, k, o, 0);
    FieldPrinted(fields, tokens, k + 1, o1, 1);
    var o2 := PrintField(fields, tokens, k + 1, o1, 1);
    assert PrintFrom(fields, tokens, k + 2, o2, 0) == o2;
    assert PrintFrom(fields, tokens, k + 1, o1, 1) == o2;
    OffsetJoined(o.data, Comma(k), tokens[k].text, tokens[k + 1].text);
  }

  lemma OffsetJoined(data: string, comma: string, offset: string, base: string)
    ensures (data + (comma + offset + "(")) + ("" + base + ")") == data + (comma + (offset + "(" + base + ")"))
  {
  }

  /** From an aligned position, print_operands appends the body. */
  lemma {:induction false} PrintIsBody(fields: seq<Operand>, mask: Word, tokens: seq<Token>, k: nat, o: Out)
    requires k <= |fields| == |tokens| && FieldsOk(fields, mask)
    requires o.len == |o.data|
    ensures PrintFrom(fields, tokens, k, o, 0).data ==
              o.data + (if Printed(fields, k) then Comma(k) + Body(fields, tokens, k) else "")
    decreases |fields| - k
  {
    if k == |fields| {
    } else if IsSilent(fields[k]) {
      PrintIsBody(fields, mask, tokens, k + 1, o);
    } else if fields[k].hint == Offset {
      OffsetPrinted(fields, mask, tokens, k, o);
    } else {
      FieldPrinted(fields, tokens, k, o, 0);
      var o1 := PrintField(fields, tokens, k, o, 0);
      PrintIsBody(fields, mask, tokens, k + 1, o1);
      BodyJoined(fields, tokens, k, o.data);
    }
  }

  lemma BodyJoined(fields: seq<Operand>, tokens: seq<Token>, k: nat, data: string)
    requires k < |fields| == |tokens| && Printed(fields, k) && fields[k].hint != Offset
    ensures (data + (Comma(k) + tokens[k].text + "")) + (if Printed(fields, k + 1) then "," + Body(fields, tokens, k + 1) else "")
         == data + (Comma(k) + Body(fields, tokens, k))
  {
  }

  /** An eight-letter mnemonic leaves no room for the blank: the first operand that is written with
      sprintf takes its place. */
  predicate Glued(e: Opcode, tokens: seq<Token>)
    requires |e.fields| == |tokens|
  {
    |e.name| == 8 && Printed(e.fields, 0) && !tokens[0].append
  }

  function Lead(e: Opcode, tokens: seq<Token>): string
    requires |e.fields| == |tokens|
  {
    if Glued(e, tokens) then e.name else PadName(e.name)
  }

  lemma PadNameIs(name: string)
    ensures PadName(name) == name + (PadName(name)[|name|..])
    ensures |PadName(name)| == if |name| < 7 then 8 else |name| + 1
    ensures forall c | c in PadName(name)[|name|..] :: IsSpace(c)
    ensures PadName(name)[|name|..] != ""
  {
    var pad := if |name| < 7 then Spaces(7 - |name|) else "";
    assert PadName(name) == name + (pad + " ");
    assert PadName(name)[|name|..] == pad + " ";
  }

  /** Writing at `datalen` after the mnemonic is writing at the end of the lead. */
  lemma FirstOverwrite(e: Opcode, tokens: seq<Token>, header: string, text: string)
    requires |e.fields| == |tokens| && Printed(e.fields, 0) && !tokens[0].append && 1 <= |e.name| <= 8
    ensures Overwrite(Out(header + PadName(e.name), |header| + 8), text).data == header + Lead(e, tokens) + text
  {
    PadNameIs(e.name);
    var data := header + PadName(e.name);
    if |e.name| == 8 {
      assert data == (header + e.name) + PadName(e.name)[8..];
      assert data[..|header| + 8] == header + e.name;
    } else {
      assert data[..|header| + 8] == data;
    }
  }

  lemma FirstField(e: Opcode, tokens: seq<Token>, header: string)
    requires |e.fields| == |tokens| && Printed(e.fields, 0) && 1 <= |e.name| <= 8
    ensures PrintField(e.fields, tokens, 0, Out(header + PadName(e.name), |header| + 8), 0)
         == PrintField(e.fields, tokens, 0, Out(header + Lead(e, tokens), |header + Lead(e, tokens)|), 0)
  {
    if !tokens[0].append {
      var lead := header + Lead(e, tokens);
      FirstOverwrite(e, tokens, header, tokens[0].text);
      assert lead[..|lead|] == lead;
    }
  }

  /** Wherever `datalen` points after the mnemonic, the line is the header, the lead and the body. */
  lemma LineIsLead(e: Opcode, mask: Word, tokens: seq<Token>, header: string)
    requires |e.fields| == |tokens| && FieldsOk(e.fields, mask) && 1 <= |e.name| <= 8
    ensures PrintFrom(e.fields, tokens, 0, Out(header + PadName(e.name), |header| + 8), 0).data
         == header + Lead(e, tokens) + Body(e.fields, tokens, 0)
  {
    var o := Out(header + PadName(e.name), |header| + 8);
    var lead := header + Lead(e, tokens);
    if Printed(e.fields, 0) {
      var aligned := Out(lead, |lead|);
      FirstField(e, tokens, header);
      PrintIsBody(e.fields, mask, tokens, 0, aligned);
      assert PrintFrom(e.fields, tokens, 0, o, 0) == PrintFrom(e.fields, tokens, 0, aligned, 0);
      assert Comma(0) + Body(e.fields, tokens, 0) == Body(e.fields, tokens, 0);
    } else {
      AllSilent(e.fields, mask, tokens, 0, o);
      assert lead + "" == lead;
    }
  }

  lemma {:induction false} AllSilent(fields: seq<Operand>, mask: Word, tokens: seq<Token>, k: nat, o: Out)
    requires k <= |fields| == |tokens| && FieldsOk(fields, mask) && !Printed(fields, k)
    ensures PrintFrom(fields, tokens, k, o, 0) == o
    decreases |fields| - k
  {
    if k < |fields| {
      AllSilent(fields, mask, tokens, k + 1, o);
    }
  }

  // ----- assembling the body -----

  /** Joining the operands from the `k`th on to `acc`, given what each of them is read as. */
  function Fold(fields: seq<Operand>, results: seq<Result<nat>>, k: nat, acc: nat): Result<nat>
    requires k <= |fields| == |results|
    decreases |fields| - k
  {
    if k == |fields| then Ok(acc)
    else if IsSilent(fields[k]) then Fold(fields, results, k + 1, acc)
    else match results[k]
      case Ok(param) => Fold(fields, results, k + 1, Or(acc, param))
      case Err(err) => Err(err)
  }

  ghost predicate ReadsAs(m: seq<SprInfo>, memaddr: Word, e: Opcode, tokens: seq<Token>, results: seq<Result<nat>>) {
    && |e.fields| == |tokens| == |results|
    && OperandsOk(e)
    && (forall k | 0 <= k < |tokens| && !IsSilent(e.fields[k]) ::
          IsWord(tokens[k].text) && OperandBits(m, memaddr, e, e.fields[k], tokens[k].text) == results[k])
  }

  /** The words of the body are the operands, one after the other. */
  lemma {:induction false} AsmOfBody(m: seq<SprInfo>, memaddr: Word, e: Opcode, tokens: seq<Token>, results: seq<Result<nat>>, k: nat, acc: nat)
    requires k <= |e.fields| && FieldsOk(e.fields, e.mask)
    requires ReadsAs(m, memaddr, e, tokens, results)
    requires forall j | 0 <= j < |e.fields| :: e.fields[j].hint != Offset
    ensures AsmFields(m, memaddr, e, k, Body(e.fields, tokens, k), acc) == Fold(e.fields, results, k, acc)
    decreases |e.fields| - k
  {
    if k == |e.fields| {
    } else if IsSilent(e.fields[k]) {
      AsmOfBody(m, memaddr, e, tokens, results, k + 1, acc);
    } else {
      var word := tokens[k].text;
      if Printed(e.fields, k + 1) {
        var rest := Body(e.fields, tokens, k + 1);
        assert Body(e.fields, tokens, k) == word + "," + rest;
        WordThenComma(word, rest);
      } else {
        WordAtEnd(word);
      }
      if results[k].Ok? {
        AsmOfBody(m, memaddr, e, tokens, results, k + 1, Or(acc, results[k].value));
      }
    }
  }

  /** A base register behind an offset is never read. */
  lemma {:induction false} AsmWithOffset(m: seq<SprInfo>, memaddr: Word, e: Opcode, tokens: seq<Token>, results: seq<Result<nat>>, j: nat, k: nat, acc: nat)
    requires k <= j < |e.fields| && FieldsOk(e.fields, e.mask)
    requires ReadsAs(m, memaddr, e, tokens, results)
    requires e.fields[j].hint == Offset
    ensures AsmFields(m, memaddr, e, k, Body(e.fields, tokens, k), acc).Err?
    ensures (forall i | k <= i < j :: results[i].Ok?) ==>
              AsmFields(m, memaddr, e, k, Body(e.fields, tokens, k), acc) == Err(NumOperands)
    decreases j - k
  {
    var word := tokens[k].text;
    SilentLast(e.fields, e.mask, k, j);
    if k == j {
      var whole := word + "(" + tokens[k + 1].text + ")";
      assert Body(e.fields, tokens, k) == whole;
      WordAtEnd(whole);
      NoWordLeft();
    } else {
      SilentLast(e.fields, e.mask, k + 1, j);
      assert e.fields[k].hint != Offset;
      var rest := Body(e.fields, tokens, k + 1);
      assert Body(e.fields, tokens, k) == word + "," + rest;
      WordThenComma(word, rest);
      if results[k].Ok? {
        AsmWithOffset(m, memaddr, e, tokens, results, j, k + 1, Or(acc, results[k].value));
      }
    }
  }

  lemma {:induction false} SilentLast(fields: seq<Operand>, mask: Word, k: nat, j: nat)
    requires k <= j < |fields| && FieldsOk(fields, mask) && !IsSilent(fields[j])
    ensures !IsSilent(fields[k])
    decreases j - k
  {
    if k < j {
      SilentLast(fields, mask, k + 1, j);
    }
  }

  // ----- which words come back -----

  ghost predicate JoinsBit(fields: seq<Operand>, results: seq<Result<nat>>, k: nat, i: nat)
    requires |fields| == |results|
  {
    exists j | k <= j < |fields| :: !IsSilent(fields[j]) && results[j].Ok? && Bit(results[j].value, i)
  }

  lemma {:induction false} FoldBit(fields: seq<Operand>, results: seq<Result<nat>>, k: nat, acc: nat, i: nat)
    requires k <= |fields| == |results| && Fold(fields, results, k, acc).Ok?
    ensures Bit(Fold(fields, results, k, acc).value, i) == (Bit(acc, i) || JoinsBit(fields, results, k, i))
    decreases |fields| - k
  {
    if k < |fields| {
      if IsSilent(fields[k]) {
        FoldBit(fields, results, k + 1, acc, i);
      } else {
        FoldBit(fields, results, k + 1, Or(acc, results[k].value), i);
        BitOr(acc, results[k].value, i);
      }
      assert JoinsBit(fields, results, k, i) ==
        (JoinsBit(fields, results, k + 1, i) ||
         (!IsSilent(fields[k]) && results[k].Ok? && Bit(results[k].value, i)));
    }
  }

  lemma {:induction false} FoldOk(fields: seq<Operand>, results: seq<Result<nat>>, k: nat, acc: nat)
    requires k <= |fields| == |results|
    ensures Fold(fields, results, k, acc).Ok? <==>
              forall j | k <= j < |fields| && !IsSilent(fields[j]) :: results[j].Ok?
    decreases |fields| - k
  {
    if k < |fields| {
      if IsSilent(fields[k]) {
        FoldOk(fields, results, k + 1, acc);
      } else if results[k].Ok? {
        FoldOk(fields, results, k + 1, Or(acc, results[k].value));
      }
    }
  }

  /** Bit `i` of a word is fixed by the mask of its entry or belongs to a printed field. */
  ghost predicate Covered(e: Opcode, i: nat) {
    Bit(e.mask, i) || exists k | 0 <= k < |e.fields| :: !IsSilent(e.fields[k]) && InField(e.fields[k], i)
  }

  ghost predicate NoStrayBits(e: Opcode, w: Word) {
    forall i: nat | Bit(w, i) :: Covered(e, i)
  }

  predicate AllReadable(m: seq<SprInfo>, e: Opcode, w: Word, radix: Radix) {
    forall k | 0 <= k < |e.fields| && !IsSilent(e.fields[k]) ::
      Readable(m, e.fields[k], Extract(e.fields[k], w), radix)
  }

  function ReadBacks(m: seq<SprInfo>, e: Opcode, w: Word, radix: Radix): (r: seq<Result<nat>>)
    ensures |r| == |e.fields|
  {
    seq(|e.fields|, k requires 0 <= k < |e.fields| => ReadBack(m, e.fields[k], w, radix))
  }

  lemma ReadableBits(m: seq<SprInfo>, e: Opcode, w: Word, radix: Radix, i: nat)
    requires EntryOk(e) && Matches(e, w) && AllReadable(m, e, w, radix)
    ensures (Bit(e.opcode, i) || JoinsBit(e.fields, ReadBacks(m, e, w, radix), 0, i))
         == (Bit(w, i) && Covered(e, i))
  {
    BitAnd(w, e.mask, i);
    var results := ReadBacks(m, e, w, radix);
    forall k | 0 <= k < |e.fields| && !IsSilent(e.fields[k])
      ensures results[k].Ok? && Bit(results[k].value, i) == (InField(e.fields[k], i) && Bit(w, i))
    {
      PlaceOfField(w, e.fields[k].shift, e.fields[k].bits, i);
    }
  }

  /** A number with no bit in the field reads as zero there. */
  lemma NonzeroFieldHasBit(f: Operand, w: nat)
    requires Extract(f, w) != 0
    ensures exists i: nat :: InField(f, i) && Bit(w, i)
  {
    if forall i: nat :: !(InField(f, i) && Bit(w, i)) {
      forall i: nat ensures Bit(Extract(f, w), i) == Bit(0, i) {
        BitField(w, f.shift, f.bits, i);
        BitZero(i);
        if i < f.bits { assert InField(f, f.shift + i); }
      }
      SameBits(Extract(f, w), 0);
    }
  }

  /** A field that is read back as zero although it was not loses a bit of the word. */
  lemma LostBit(m: seq<SprInfo>, e: Opcode, w: Word, radix: Radix, j: nat) returns (i: nat)
    requires EntryOk(e) && Matches(e, w) && j < |e.fields| && !IsSilent(e.fields[j])
    requires !Readable(m, e.fields[j], Extract(e.fields[j], w), radix)
    requires ReadBack(m, e.fields[j], w, radix).Ok?
    ensures Bit(w, i)
    ensures !Bit(e.opcode, i) && !JoinsBit(e.fields, ReadBacks(m, e, w, radix), 0, i)
  {
    var f := e.fields[j];
    NonzeroFieldHasBit(f, w);
    i :| InField(f, i) && Bit(w, i);
    BitAnd(w, e.mask, i);
    assert FieldVersusMask(f, e.mask, IsSilent(f));
    var results := ReadBacks(m, e, w, radix);
    forall k | 0 <= k < |e.fields| && !IsSilent(e.fields[k]) && results[k].Ok?
      ensures !Bit(results[k].value, i)
    {
      var g := e.fields[k];
      var data := if Readable(m, g, Extract(g, w), radix) then Extract(g, w) else 0;
      BitPlace(data, g.shift, g.bits, i);
      if k == j {
        BitZero(i - f.shift);
      } else {
        assert Disjoint(e.fields[if j < k then j else k], e.fields[if j < k then k else j]);
      }
    }
  }

  /** The operands, read back and joined to the opcode, give the word again exactly when all of
      them are readable and no bit of the word lies outside them and the mask. */
  lemma JoinedIsWord(m: seq<SprInfo>, e: Opcode, w: Word, radix: Radix)
    requires EntryOk(e) && Matches(e, w)
    ensures Fold(e.fields, ReadBacks(m, e, w, radix), 0, e.opcode) == Ok(w) <==>
              AllReadable(m, e, w, radix) && NoStrayBits(e, w)
  {
    var results := ReadBacks(m, e, w, radix);
    var r := Fold(e.fields, results, 0, e.opcode);
    FoldOk(e.fields, results, 0, e.opcode);
    if AllReadable(m, e, w, radix) {
      assert r.Ok?;
      forall i: nat ensures Bit(r.value, i) == (Bit(w, i) && Covered(e, i)) {
        FoldBit(e.fields, results, 0, e.opcode, i);
        ReadableBits(m, e, w, radix, i);
      }
      if NoStrayBits(e, w) { SameBits(r.value, w); }
    } else if r.Ok? {
      var j :| 0 <= j < |e.fields| && !IsSilent(e.fields[j])
        && !Readable(m, e.fields[j], Extract(e.fields[j], w), radix);
      assert results[j].Ok?;
      var i := LostBit(m, e, w, radix, j);
      FoldBit(e.fields, results, 0, e.opcode, i);
    }
  }
}
