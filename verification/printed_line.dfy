/** What stands in a printed line: the address, the bytes, the number of an illegal word and the
    operands, each in the digits that a reader sees. */
module PrintedLine {
  import opened Wrappers
  import opened Bits
  import opened Ppc
  import opened OpcodeSearch
  import opened Text
  import opened Sprs
  import opened Disassembler
  import opened Numerals
  import RoundTrip
  import Reassembly

  // ----- padded numbers -----

  lemma {:induction false} ZerosInFront(zeros: string, s: string, base: nat)
    requires 2 <= base <= 16 && AllDigits(s, base) && forall c | c in zeros :: c == '0'
    ensures AllDigits(zeros + s, base) && Value(zeros + s, base) == Value(s, base)
    decreases |s|, |zeros|
  {
    assert forall k | 0 <= k < |zeros| :: zeros[k] in zeros;
    var t := zeros + s;
    if s != "" {
      InitDigits(s, base);
      ZerosInFront(zeros, s[..|s| - 1], base);
      assert t[..|t| - 1] == zeros + s[..|s| - 1];
    } else if zeros != "" {
      ZerosInFront(zeros[..|zeros| - 1], s, base);
      assert t[..|t| - 1] == zeros[..|zeros| - 1] + s;
    }
  }

  /** A number in exactly `width` digits. */
  predicate Shows(s: string, n: nat, base: nat, width: nat) {
    |s| == width && AllDigits(s, base) && Value(s, base) == n
  }

  lemma PadHexShows(n: nat, width: nat)
    requires width > 0 && n < Pow2(4 * width)
    ensures Shows(PadHex(n, width), n, 16, width)
  {
    var s := Format(n, 16);
    FormatLength(n, width);
    ValueOfFormat(n, 16);
    var zeros := if |s| < width then seq(width - |s|, _ => '0') else "";
    ZerosInFront(zeros, s, 16);
  }

  // ----- the header -----

  /** The address in eight digits and, with raw output, the bytes in two each. */
  ghost predicate HeaderShows(h: string, virt: Word, w: Word, raw: bool) {
    && |h| == HeaderLength(raw)
    && Shows(h[..8], virt, 16, 8) && h[8..13] == ":    "
    && (raw ==>
          && Shows(h[13..15], w / 0x100_0000, 16, 2) && h[15] == ' '
          && Shows(h[16..18], w / 0x1_0000 % 0x100, 16, 2) && h[18] == ' '
          && Shows(h[19..21], w / 0x100 % 0x100, 16, 2) && h[21] == ' '
          && Shows(h[22..24], w % 0x100, 16, 2) && h[24..28] == "    ")
  }

  lemma RawBytes(a: string, b: string, c: string, d: string, e: string)
    requires |a| == 8 && |b| == |c| == |d| == |e| == 2
    ensures
      var h := a + ": " + ("   " + b + " " + c + " " + d + " " + e + "    ");
      && |h| == 28 && h[..8] == a && h[8..13] == ":    "
      && h[13..15] == b && h[15] == ' ' && h[16..18] == c && h[18] == ' '
      && h[19..21] == d && h[21] == ' ' && h[22..24] == e && h[24..28] == "    "
  {
  }

  lemma RawShows(h: string, a: string, b: string, c: string, d: string, e: string, virt: Word, w: Word)
    requires h == a + ": " + ("   " + b + " " + c + " " + d + " " + e + "    ")
    requires Shows(a, virt, 16, 8) && Shows(b, w / 0x100_0000, 16, 2) && Shows(c, w / 0x1_0000 % 0x100, 16, 2)
    requires Shows(d, w / 0x100 % 0x100, 16, 2) && Shows(e, w % 0x100, 16, 2)
    ensures HeaderShows(h, virt, w, true)
  {
    RawBytes(a, b, c, d, e);
  }

  lemma PlainShows(h: string, a: string, virt: Word, w: Word)
    requires h == a + ": " + "   " && Shows(a, virt, 16, 8)
    ensures HeaderShows(h, virt, w, false)
  {
    assert h == a + ":    ";
  }

  lemma ByteShows(n: nat)
    requires n < 0x100
    ensures Shows(PadHex(n, 2), n, 16, 2)
  {
    assert Pow2(8) == 256;
    PadHexShows(n, 2);
  }

  lemma WordShows(n: Word)
    ensures Shows(PadHex(n, 8), n, 16, 8)
  {
    PowersOfTwo();
    PadHexShows(n, 8);
  }

  lemma HeaderIsShown(virt: Word, w: Word, raw: bool)
    ensures HeaderShows(Header(virt, w, raw), virt, w, raw)
  {
    WordShows(virt);
    if raw {
      var high := w / 0x100_0000;
      assert high % 0x100 == high;
      ByteShows(high);
      ByteShows(w / 0x1_0000 % 0x100);
      ByteShows(w / 0x100 % 0x100);
      ByteShows(w % 0x100);
      RawShows(Header(virt, w, raw), PadHex(virt, 8), PadHex(high, 2), PadHex(w / 0x1_0000 % 0x100, 2),
               PadHex(w / 0x100 % 0x100, 2), PadHex(w % 0x100, 2), virt, w);
    } else {
      PlainShows(Header(virt, w, raw), PadHex(virt, 8), virt, w);
    }
  }

  /** Every line shows its address and, with raw output, the bytes of its word. */
  lemma LineShowsAddress(t: seq<Opcode>, m: seq<SprInfo>, virt: Word, w: Word, radix: Radix, simple: bool, raw: bool)
    requires RoundTrip.WellFormed(t)
    ensures
      var line := Line(t, m, virt, w, radix, simple, raw);
      HeaderLength(raw) <= |line| && HeaderShows(line[..HeaderLength(raw)], virt, w, raw)
  {
    Reassembly.LineHasHeader(t, m, virt, w, radix, simple, raw);
    HeaderIsShown(virt, w, raw);
  }

  /** A word that no row matches is shown as `.long` and its eight digits. */
  lemma LongShowsWord(t: seq<Opcode>, m: seq<SprInfo>, virt: Word, w: Word, radix: Radix, simple: bool, raw: bool)
    requires TableOk(t) && forall e | e in t :: !Matches(e, w)
    ensures
      var text := Reassembly.Shown(t, m, virt, w, radix, simple, raw);
      |text| == 24 && text[..16] == "        .long 0x" && Shows(text[16..], w, 16, 8)
  {
    LookupFinds(t, w);
    Reassembly.ShownLong(t, m, virt, w, radix, simple, raw);
    WordShows(w);
    var text := LongText(w);
    assert text == "        .long 0x" + PadHex(w, 8);
  }

  lemma NextLine(virt: Word, i: nat)
    ensures if i > 0 then Wrap(Wrap(virt + 4) + 4 * (i - 1)) == Wrap(virt + 4 * i) else Wrap(virt + 4 * i) == virt
  {
    if i > 0 { WrapInner(virt + 4, 4 * (i - 1)); }
  }

  /** Line `i` of a region stands at the address of word `i`, modulo 2^32. */
  lemma {:induction false} LinesAt(t: seq<Opcode>, m: seq<SprInfo>, memory: seq<Word>, virt: Word, radix: Radix, simple: bool, raw: bool, i: nat, addr: Word)
    requires TableOk(t) && i < |memory| && addr == Wrap(virt + 4 * i)
    ensures |Lines(t, m, memory, virt, radix, simple, raw)| == |memory|
    ensures Lines(t, m, memory, virt, radix, simple, raw)[i] == Line(t, m, addr, memory[i], radix, simple, raw)
    decreases |memory|
  {
    LinesCount(t, m, memory, virt, radix, simple, raw);
    NextLine(virt, i);
    var next, rest := Wrap(virt + 4), memory[1..];
    var first, others := Line(t, m, virt, memory[0], radix, simple, raw), Lines(t, m, rest, next, radix, simple, raw);
    assert Lines(t, m, memory, virt, radix, simple, raw) == [first] + others;
    if i > 0 {
      LinesAt(t, m, rest, next, radix, simple, raw, i - 1, addr);
      assert rest[i - 1] == memory[i];
    }
  }

  lemma {:induction false} LinesCount(t: seq<Opcode>, m: seq<SprInfo>, memory: seq<Word>, virt: Word, radix: Radix, simple: bool, raw: bool)
    requires TableOk(t)
    ensures |Lines(t, m, memory, virt, radix, simple, raw)| == |memory|
    decreases |memory|
  {
    if memory != [] {
      LinesCount(t, m, memory[1..], Wrap(virt + 4), radix, simple, raw);
    }
  }

  // ----- the operands -----

  /** The bits of a field as a number. */
  function FieldValue(f: Operand, w: Word): nat { w / Pow2(f.shift) % Pow2(f.bits) }

  /** The text behind a prefix is the number in the shortest form. */
  ghost predicate ShowsBehind(text: string, prefix: string, n: nat, base: nat) {
    && prefix <= text && IsNumeral(text[|prefix|..], base) && Value(text[|prefix|..], base) == n
    && (n > 0 ==> text[|prefix|] != '0')
  }

  lemma FormatShows(prefix: string, n: nat, base: nat)
    requires 2 <= base <= 16
    ensures ShowsBehind(prefix + Format(n, base), prefix, n, base)
  {
    ValueOfFormat(n, base);
    assert (prefix + Format(n, base))[|prefix|..] == Format(n, base);
  }

  /** Plain numbers and offsets, in the radix of the options. */
  lemma NumberPrinted(m: seq<SprInfo>, e: Opcode, f: Operand, virt: Word, w: Word, radix: Radix)
    requires OperandOk(f) && (f.hint == Plain || f.hint == Offset)
    ensures
      var text := FieldText(m, e, f, virt, w, radix);
      match radix
      case Octal => ShowsBehind(text, "O", FieldValue(f, w), 8)
      case Hex => ShowsBehind(text, "0x", FieldValue(f, w), 16)
      case _ => ShowsBehind(text, "", FieldValue(f, w), 10)
  {
    NumberIsShown(m, e, f, virt, w, radix);
    RadixShows(radix, FieldValue(f, w));
  }

  lemma NumberIsShown(m: seq<SprInfo>, e: Opcode, f: Operand, virt: Word, w: Word, radix: Radix)
    requires OperandOk(f) && (f.hint == Plain || f.hint == Offset)
    ensures FieldText(m, e, f, virt, w, radix) == RadixText(radix, FieldValue(f, w))
  {
    FieldIsModulo(w, f.shift, f.bits);
    ExtractFits(f, w);
    PowersOfTwo();
    Pow2Monotone(f.bits, 16);
    SmallMod(Extract(f, w), 0x1_0000);
  }

  lemma RadixShows(radix: Radix, n: nat)
    ensures
      match radix
      case Octal => ShowsBehind(RadixText(radix, n), "O", n, 8)
      case Hex => ShowsBehind(RadixText(radix, n), "0x", n, 16)
      case _ => ShowsBehind(RadixText(radix, n), "", n, 10)
  {
    match radix {
      case Octal => FormatShows("O", n, 8);
      case Hex => FormatShows("0x", n, 16);
      case _ => FormatShows("", n, 10); assert "" + Format(n, 10) == Format(n, 10);
    }
  }

  /** Registers; a zero base register that means zero is printed without the letter. */
  lemma RegisterPrinted(m: seq<SprInfo>, e: Opcode, f: Operand, virt: Word, w: Word, radix: Radix)
    requires OperandOk(f) && f.hint == Reg
    ensures
      var text := FieldText(m, e, f, virt, w, radix);
      if FieldValue(f, w) == 0 && f.field == O_rA.field && H_RA0_IS_0 in e.hint then text == "0"
      else ShowsBehind(text, "r", FieldValue(f, w), 10)
  {
    FieldIsModulo(w, f.shift, f.bits);
    FormatShows("r", FieldValue(f, w), 10);
  }

  /** Addresses, of which PrintedTargetIsStep says what they are. */
  lemma AddressPrinted(m: seq<SprInfo>, e: Opcode, f: Operand, virt: Word, w: Word, radix: Radix)
    requires OperandOk(f) && f.hint == Addr
    ensures Extract(f, w) < WORD_LIMIT
    ensures ShowsBehind(FieldText(m, e, f, virt, w, radix), "0x", TargetOf(e, f, virt, Extract(f, w)), 16)
  {
    ExtractFits(f, w);
    FormatShows("0x", TargetOf(e, f, virt, Extract(f, w)), 16);
  }

  /** The register number that a field holds, with its five-bit halves exchanged. */
  function RegisterNumber(f: Operand, w: Word): nat { FieldValue(f, w) / 32 % 32 + FieldValue(f, w) % 32 * 32 }

  /** The name in the map, or the number in decimal. */
  lemma SprPrinted(m: seq<SprInfo>, e: Opcode, f: Operand, virt: Word, w: Word, radix: Radix)
    requires OperandOk(f) && f.hint == Spr
    ensures
      var text := FieldText(m, e, f, virt, w, radix);
      if exists i | 0 <= i < |m| :: m[i].val == RegisterNumber(f, w)
      then exists i | 0 <= i < |m| :: m[i].val == RegisterNumber(f, w) && m[i].name == text
      else ShowsBehind(text, "", RegisterNumber(f, w), 10)
  {
    FieldIsModulo(w, f.shift, f.bits);
    var n := RegisterNumber(f, w);
    NameOfFinds(m, n);
    FormatShows("", n, 10);
    assert "" + Format(n, 10) == Format(n, 10);
  }

  lemma TbrPrinted(m: seq<SprInfo>, e: Opcode, f: Operand, virt: Word, w: Word, radix: Radix)
    requires OperandOk(f) && f.hint == Tbr
    ensures FieldText(m, e, f, virt, w, radix) ==
              if RegisterNumber(f, w) == 268 then "TBL" else if RegisterNumber(f, w) == 269 then "TBU" else "???"
  {
    FieldIsModulo(w, f.shift, f.bits);
  }

  // ----- eight-letter mnemonics -----

  /** The text of the operand is added with strcat, behind the blank, and not with sprintf at `datalen`,
      over it. */
  predicate KeepsBlank(e: Opcode, f: Operand, w: Word) {
    || f.hint == Spr || f.hint == Tbr || f.hint == Literal
    || (f.hint == Reg && FieldValue(f, w) == 0 && f.field == O_rA.field && H_RA0_IS_0 in e.hint)
  }

  /** Behind an eight-letter mnemonic there is a blank exactly when its first operand is added with strcat. */
  lemma EightLetters(t: seq<Opcode>, m: seq<SprInfo>, virt: Word, w: Word, radix: Radix, simple: bool, raw: bool, k: nat)
    requires RoundTrip.WellFormed(t) && SprsOk(m) && k < |t| && Matches(t[k], w) && ShownAs(t[k], w, simple) == t[k]
    requires |t[k].name| == 8 && RoundTrip.Printed(t[k].fields, 0)
    ensures
      var text := Reassembly.Shown(t, m, virt, w, radix, simple, raw);
      |text| > 8 && text[..8] == t[k].name && (text[8] == ' ' <==> KeepsBlank(t[k], t[k].fields[0], w))
  {
    var e := t[k];
    var tokens := Tokens(m, e, virt, w, radix);
    var body := RoundTrip.Body(e.fields, tokens, 0);
    Reassembly.ShownIs(t, m, virt, w, radix, simple, raw, k);
    Reassembly.BodyStartsWord(m, e, virt, w, radix);
    AppendedIs(e, e.fields[0], w);
    EightThenBody(e.name, body);
  }

  lemma AppendedIs(e: Opcode, f: Operand, w: Word)
    ensures Appended(e, f, w) <==> KeepsBlank(e, f, w)
  {
    FieldIsModulo(w, f.shift, f.bits);
  }

  lemma EightThenBody(name: string, body: string)
    requires |name| == 8 && body != "" && !EndsWord(body[0])
    ensures (name + body)[..8] == name && (name + body)[8] != ' '
    ensures (PadName(name) + body)[..8] == name && (PadName(name) + body)[8] == ' '
  {
    assert PadName(name) == name + " ";
  }
}
