/** The opcode table of include/bedbug/tables.h is well formed. The rows are checked nine at a time,
    and the stretches are joined. */
module OpcodeTableChecks {
  import opened Bits
  import opened Ppc
  import opened OperandLists
  import RoundTrip
  import Reassembly
  import opened OpcodeTable

  // ----- the rows are well formed -----

  /** How many of the lowest bits the mask of a primary opcode has. */
  function LowMaskBits(primary: nat): nat {
    if primary == 16 || primary == 18 then 2
    else if primary == 19 || primary == 31 then 11
    else if 20 <= primary <= 23 then 1
    else 0
  }

  function LowMask(primary: nat): nat {
    if primary == 16 || primary == 18 then 3
    else if primary == 19 || primary == 31 then 0x7ff
    else if 20 <= primary <= 23 then 1
    else 0
  }

  /** Only the relative bc without link has a handler. */
  predicate HandlerOk(e: Opcode) {
    e.hfunc == HandleBc ==> e.opcode == BOpcode(16, 0, 0) && e.fields == BC_FIELDS && H_RELATIVE in e.hint
  }

  predicate RowOk(e: Opcode) {
    if Primary(e.opcode) == 17 then e.mask == SC_MASK && e.opcode == 0x4400_0002 && e.fields == []
    else
      && e.mask == 0xfc00_0000 + LowMask(Primary(e.opcode))
      && e.opcode % 0x400_0000 <= LowMask(Primary(e.opcode))
      && FieldsFit(e.fields, LowMaskBits(Primary(e.opcode)))
  }

  predicate RowsOk(t: seq<Opcode>) { forall i | 0 <= i < |t| :: RowOk(t[i]) && HandlerOk(t[i]) }

  predicate Ascending(t: seq<Opcode>, first: Word, last: Word) {
    && (forall i | 0 < i < |t| :: t[i - 1].opcode < t[i].opcode)
    && |t| > 0 && t[0].opcode == first && t[|t| - 1].opcode == last
  }

  predicate NamesOk(t: seq<Opcode>) { forall i | 0 <= i < |t| :: NameOk(t[i].name) }

  // ----- the names are distinct: each leads back to the place of its row -----

  function CharCode(s: string, i: nat): nat { if i < |s| then s[i] as nat else 0 }

  /** The first eight characters of a name as one number, in base 256. */
  function NameCode(s: string): nat {
    0x100_0000_0000_0000 * CharCode(s, 0) + 0x1_0000_0000_0000 * CharCode(s, 1)
    + 0x100_0000_0000 * CharCode(s, 2) + 0x1_0000_0000 * CharCode(s, 3)
    + 0x100_0000 * CharCode(s, 4) + 0x1_0000 * CharCode(s, 5)
    + 0x100 * CharCode(s, 6) + CharCode(s, 7)
  }

  function RowNumber0(code: nat): nat {
    if code == 0x61646400_00000000 then 103 else if code == 0x6164642e_00000000 then 104 else
    if code == 0x61646463_00000000 then 49 else if code == 0x61646463_2e000000 then 50 else
    if code == 0x61646463_6f000000 then 137 else if code == 0x61646463_6f2e0000 then 138 else
    if code == 0x61646465_00000000 then 81 else if code == 0x61646465_2e000000 then 82 else
    if code == 0x61646465_6f000000 then 153 else if code == 0x61646465_6f2e0000 then 154 else
    if code == 0x61646469_00000000 then 7 else if code == 0x61646469_63000000 then 5 else
    if code == 0x61646469_632e0000 then 6 else if code == 0x61646469_73000000 then 8 else
    if code == 0x6164646d_65000000 then 96 else if code == 0x6164646d_652e0000 then 97 else
    206
  }

  function RowNumber1(code: nat): nat {
    if code == 0x6164646d_656f0000 then 165 else if code == 0x6164646d_656f2e00 then 166 else
    if code == 0x6164646f_00000000 then 169 else if code == 0x6164646f_2e000000 then 170 else
    if code == 0x6164647a_65000000 then 90 else if code == 0x6164647a_652e0000 then 91 else
    if code == 0x6164647a_656f0000 then 160 else if code == 0x6164647a_656f2e00 then 161 else
    if code == 0x616e6400_00000000 then 60 else if code == 0x616e642e_00000000 then 61 else
    if code == 0x616e6463_00000000 then 67 else if code == 0x616e6463_2e000000 then 68 else
    if code == 0x616e6469_2e000000 then 43 else if code == 0x616e6469_732e0000 then 44 else
    if code == 0x62000000_00000000 then 14 else if code == 0x62610000_00000000 then 16 else
    206
  }

  function RowNumber2(code: nat): nat {
    if code == 0x62630000_00000000 then 9 else if code == 0x62636100_00000000 then 11 else
    if code == 0x62636374_72000000 then 31 else if code == 0x62636374_726c0000 then 32 else
    if code == 0x62636c00_00000000 then 10 else if code == 0x62636c61_00000000 then 12 else
    if code == 0x62636c72_00000000 then 19 else if code == 0x62636c72_6c000000 then 20 else
    if code == 0x626c0000_00000000 then 15 else if code == 0x626c6100_00000000 then 17 else
    if code == 0x636d7000_00000000 then 45 else if code == 0x636d7069_00000000 then 4 else
    if code == 0x636d706c_00000000 then 62 else if code == 0x636d706c_69000000 then 3 else
    if code == 0x636e746c_7a770000 then 58 else if code == 0x636e746c_7a772e00 then 59 else
    206
  }

  function RowNumber3(code: nat): nat {
    if code == 0x6372616e_64000000 then 27 else if code == 0x6372616e_64630000 then 23 else
    if code == 0x63726571_76000000 then 28 else if code == 0x63726e61_6e640000 then 26 else
    if code == 0x63726e6f_72000000 then 21 else if code == 0x63726f72_00000000 then 30 else
    if code == 0x63726f72_63000000 then 29 else if code == 0x6372786f_72000000 then 25 else
    if code == 0x64636266_00000000 then 72 else if code == 0x64636269_00000000 then 129 else
    if code == 0x64636273_74000000 then 65 else if code == 0x64636274_00000000 then 105 else
    if code == 0x64636274_73740000 then 101 else if code == 0x6463627a_00000000 then 189 else
    if code == 0x64697677_00000000 then 132 else if code == 0x64697677_2e000000 then 133 else
    206
  }

  function RowNumber4(code: nat): nat {
    if code == 0x64697677_6f000000 then 186 else if code == 0x64697677_6f2e0000 then 187 else
    if code == 0x64697677_75000000 then 126 else if code == 0x64697677_752e0000 then 127 else
    if code == 0x64697677_756f0000 then 182 else if code == 0x64697677_756f2e00 then 183 else
    if code == 0x65636977_78000000 then 110 else if code == 0x65636f77_78000000 then 122 else
    if code == 0x65696569_6f000000 then 176 else if code == 0x65717600_00000000 then 107 else
    if code == 0x6571762e_00000000 then 108 else if code == 0x65787473_62000000 then 180 else
    if code == 0x65787473_622e0000 then 181 else if code == 0x65787473_68000000 then 178 else
    if code == 0x65787473_682e0000 then 179 else if code == 0x69636269_00000000 then 185 else
    206
  }

  function RowNumber5(code: nat): nat {
    if code == 0x6973796e_63000000 then 24 else if code == 0x6c627a00_00000000 then 192 else
    if code == 0x6c627a75_00000000 then 193 else if code == 0x6c627a75_78000000 then 76 else
    if code == 0x6c627a78_00000000 then 73 else if code == 0x6c686100_00000000 then 200 else
    if code == 0x6c686175_00000000 then 201 else if code == 0x6c686175_78000000 then 118 else
    if code == 0x6c686178_00000000 then 115 else if code == 0x6c686272_78000000 then 171 else
    if code == 0x6c687a00_00000000 then 198 else if code == 0x6c687a75_00000000 then 199 else
    if code == 0x6c687a75_78000000 then 111 else if code == 0x6c687a78_00000000 then 106 else
    if code == 0x6c6d7700_00000000 then 204 else if code == 0x6c737769_00000000 then 147 else
    206
  }

  function RowNumber6(code: nat): nat {
    if code == 0x6c737778_00000000 then 139 else if code == 0x6c776172_78000000 then 54 else
    if code == 0x6c776272_78000000 then 140 else if code == 0x6c777a00_00000000 then 190 else
    if code == 0x6c777a75_00000000 then 191 else if code == 0x6c777a75_78000000 then 66 else
    if code == 0x6c777a78_00000000 then 55 else if code == 0x6d637266_00000000 then 18 else
    if code == 0x6d637278_72000000 then 134 else if code == 0x6d666372_00000000 then 53 else
    if code == 0x6d666d73_72000000 then 71 else if code == 0x6d667370_72000000 then 114 else
    if code == 0x6d667372_00000000 then 146 else if code == 0x6d667372_696e0000 then 155 else
    if code == 0x6d667462_00000000 then 117 else if code == 0x6d746372_66000000 then 83 else
    206
  }

  function RowNumber7(code: nat): nat {
    if code == 0x6d746d73_72000000 then 84 else if code == 0x6d747370_72000000 then 128 else
    if code == 0x6d747372_00000000 then 92 else if code == 0x6d747372_696e0000 then 100 else
    if code == 0x6d756c68_77000000 then 69 else if code == 0x6d756c68_772e0000 then 70 else
    if code == 0x6d756c68_77750000 then 51 else if code == 0x6d756c68_77752e00 then 52 else
    if code == 0x6d756c6c_69000000 then 1 else if code == 0x6d756c6c_77000000 then 98 else
    if code == 0x6d756c6c_772e0000 then 99 else if code == 0x6d756c6c_776f0000 then 167 else
    if code == 0x6d756c6c_776f2e00 then 168 else if code == 0x6e616e64_00000000 then 130 else
    if code == 0x6e616e64_2e000000 then 131 else if code == 0x6e656700_00000000 then 74 else
    206
  }

  function RowNumber8(code: nat): nat {
    if code == 0x6e65672e_00000000 then 75 else if code == 0x6e65676f_00000000 then 149 else
    if code == 0x6e65676f_2e000000 then 150 else if code == 0x6e6f7200_00000000 then 77 else
    if code == 0x6e6f722e_00000000 then 78 else if code == 0x6f720000_00000000 then 124 else
    if code == 0x6f722e00_00000000 then 125 else if code == 0x6f726300_00000000 then 120 else
    if code == 0x6f72632e_00000000 then 121 else if code == 0x6f726900_00000000 then 39 else
    if code == 0x6f726973_00000000 then 40 else if code == 0x72666900_00000000 then 22 else
    if code == 0x726c7769_6d690000 then 33 else if code == 0x726c7769_6d692e00 then 34 else
    if code == 0x726c7769_6e6d0000 then 35 else if code == 0x726c7769_6e6d2e00 then 36 else
    206
  }

  function RowNumber9(code: nat): nat {
    if code == 0x726c776e_6d000000 then 37 else if code == 0x726c776e_6d2e0000 then 38 else
    if code == 0x73630000_00000000 then 13 else if code == 0x736c7700_00000000 then 56 else
    if code == 0x736c772e_00000000 then 57 else if code == 0x73726177_00000000 then 172 else
    if code == 0x73726177_2e000000 then 173 else if code == 0x73726177_69000000 then 174 else
    if code == 0x73726177_692e0000 then 175 else if code == 0x73727700_00000000 then 141 else
    if code == 0x7372772e_00000000 then 142 else if code == 0x73746200_00000000 then 196 else
    if code == 0x73746275_00000000 then 197 else if code == 0x73746275_78000000 then 102 else
    if code == 0x73746278_00000000 then 93 else if code == 0x73746800_00000000 then 202 else
    206
  }

  function RowNumber10(code: nat): nat {
    if code == 0x73746862_72780000 then 177 else if code == 0x73746875_00000000 then 203 else
    if code == 0x73746875_78000000 then 123 else if code == 0x73746878_00000000 then 119 else
    if code == 0x73746d77_00000000 then 205 else if code == 0x73747377_69000000 then 162 else
    if code == 0x73747377_78000000 then 156 else if code == 0x73747700_00000000 then 194 else
    if code == 0x73747762_72780000 then 157 else if code == 0x73747763_782e0000 then 85 else
    if code == 0x73747775_00000000 then 195 else if code == 0x73747775_78000000 then 87 else
    if code == 0x73747778_00000000 then 86 else if code == 0x73756266_00000000 then 63 else
    if code == 0x73756266_2e000000 then 64 else if code == 0x73756266_63000000 then 47 else
    206
  }

  function RowNumber11(code: nat): nat {
    if code == 0x73756266_632e0000 then 48 else if code == 0x73756266_636f0000 then 135 else
    if code == 0x73756266_636f2e00 then 136 else if code == 0x73756266_65000000 then 79 else
    if code == 0x73756266_652e0000 then 80 else if code == 0x73756266_656f0000 then 151 else
    if code == 0x73756266_656f2e00 then 152 else if code == 0x73756266_69630000 then 2 else
    if code == 0x73756266_6d650000 then 94 else if code == 0x73756266_6d652e00 then 95 else
    if code == 0x73756266_6d656f00 then 163 else if code == 0x73756266_6d656f2e then 164 else
    if code == 0x73756266_6f000000 then 143 else if code == 0x73756266_6f2e0000 then 144 else
    if code == 0x73756266_7a650000 then 88 else if code == 0x73756266_7a652e00 then 89 else
    206
  }

  function RowNumber12(code: nat): nat {
    if code == 0x73756266_7a656f00 then 158 else if code == 0x73756266_7a656f2e then 159 else
    if code == 0x73796e63_00000000 then 148 else if code == 0x746c6269_61000000 then 116 else
    if code == 0x746c6269_65000000 then 109 else if code == 0x746c626c_64000000 then 184 else
    if code == 0x746c626c_69000000 then 188 else if code == 0x746c6273_796e6300 then 145 else
    if code == 0x74770000_00000000 then 46 else if code == 0x74776900_00000000 then 0 else
    if code == 0x786f7200_00000000 then 112 else if code == 0x786f722e_00000000 then 113 else
    if code == 0x786f7269_00000000 then 41 else if code == 0x786f7269_73000000 then 42 else
    206
  }

  /** The row of a name code, looked up in the order of the codes. */
  function RowNumber(code: nat): nat {
    if code < 0x6164646d_656f0000 then RowNumber0(code) else
    if code < 0x62630000_00000000 then RowNumber1(code) else
    if code < 0x6372616e_64000000 then RowNumber2(code) else
    if code < 0x64697677_6f000000 then RowNumber3(code) else
    if code < 0x6973796e_63000000 then RowNumber4(code) else
    if code < 0x6c737778_00000000 then RowNumber5(code) else
    if code < 0x6d746d73_72000000 then RowNumber6(code) else
    if code < 0x6e65672e_00000000 then RowNumber7(code) else
    if code < 0x726c776e_6d000000 then RowNumber8(code) else
    if code < 0x73746862_72780000 then RowNumber9(code) else
    if code < 0x73756266_632e0000 then RowNumber10(code) else
    if code < 0x73756266_7a656f00 then RowNumber11(code) else
    RowNumber12(code)
  }

  predicate CodesAre(t: seq<Opcode>, codes: seq<nat>) {
    |t| == |codes| && forall i | 0 <= i < |t| :: NameCode(t[i].name) == codes[i]
  }

  predicate CodesIndexed(codes: seq<nat>, base: nat) {
    forall i | 0 <= i < |codes| :: RowNumber(codes[i]) == base + i
  }

  function RowOf(name: string): nat { RowNumber(NameCode(name)) }

  ghost predicate Indexed(t: seq<Opcode>, base: nat, number: string -> nat) {
    forall i | 0 <= i < |t| :: number(t[i].name) == base + i
  }

  /** A stretch of the table that starts at row `base`. */
  ghost predicate Stretch(t: seq<Opcode>, base: nat, first: Word, last: Word, number: string -> nat) {
    RowsOk(t) && Ascending(t, first, last) && NamesOk(t) && Indexed(t, base, number)
  }

  lemma Join(a: seq<Opcode>, b: seq<Opcode>, base: nat, first: Word, mid: Word, mid': Word, last: Word, number: string -> nat)
    requires Stretch(a, base, first, mid, number) && Stretch(b, base + |a|, mid', last, number) && mid < mid'
    ensures Stretch(a + b, base, first, last, number)
  {
    var t := a + b;
    forall i | 0 <= i < |t| ensures RowOk(t[i]) && HandlerOk(t[i]) && NameOk(t[i].name) && number(t[i].name) == base + i {
      assert t[i] == if i < |a| then a[i] else b[i - |a|];
    }
    forall i | 0 < i < |t| ensures t[i - 1].opcode < t[i].opcode {
      assert t[i] == if i < |a| then a[i] else b[i - |a|];
      assert t[i - 1] == if i - 1 < |a| then a[i - 1] else b[i - 1 - |a|];
    }
  }

  lemma AscendingFar(t: seq<Opcode>, first: Word, last: Word, i: nat, j: nat)
    requires Ascending(t, first, last) && i < j < |t|
    ensures t[i].opcode < t[j].opcode
  {
    if i + 1 < j { AscendingFar(t, first, last, i, j - 1); }
  }

  lemma RowIsEntry(e: Opcode)
    requires RowOk(e)
    ensures EntryOk(e) && Primary(e.mask) == 63
    ensures e.mask == if Primary(e.opcode) == 17 then SC_MASK
                      else 0xfc00_0000 + Ones(LowMaskBits(Primary(e.opcode)))
  {
    PowersOfTwo();
    if Primary(e.opcode) == 17 {
      forall i: nat | Bit(e.opcode, i) ensures Bit(e.mask, i) {
        BitJoin(17, 2, 26, i);
        BitJoin(63, 2, 26, i);
        assert Ones(6) == 63 by { assert Pow2(6) == 64; }
        if i >= 26 {
          BitOnes(6, i - 26);
          if i >= 32 { HighBitsClear(e.opcode, 32, i); }
        }
      }
      AndSubset(e.opcode, e.mask);
    } else {
      HasFormOk(e, LowMaskBits(Primary(e.opcode)));
    }
  }

  /** The ordered, indexed rows make a well-formed table. */
  lemma StretchWellFormed(t: seq<Opcode>, base: nat, first: Word, last: Word, number: string -> nat)
    requires Stretch(t, base, first, last, number)
    ensures RoundTrip.WellFormed(t) && RowsOk(t)
  {
    forall i | 0 <= i < |t| ensures EntryOk(t[i]) && NameOk(t[i].name) && OperandsOk(t[i]) {
      RowIsEntry(t[i]);
    }
    forall i, j | 0 <= i < j < |t| ensures t[i].opcode < t[j].opcode { AscendingFar(t, first, last, i, j); }
    forall i, j | 0 <= i < |t| && 0 <= j < |t| && Primary(t[i].opcode) == Primary(t[j].opcode)
      ensures t[i].mask == t[j].mask
    {
      RowIsEntry(t[i]);
      RowIsEntry(t[j]);
    }
    forall i, j | 0 <= i < j < |t| ensures t[i].name != t[j].name {
      assert number(t[i].name) == base + i;
      assert number(t[j].name) == base + j;
    }
  }

  lemma TwoStretches(a: seq<Opcode>, b: seq<Opcode>, first: Word, mid: Word, mid': Word, last: Word, number: string -> nat)
    requires Stretch(a, 0, first, mid, number) && Stretch(b, |a|, mid', last, number) && mid < mid'
    ensures RoundTrip.WellFormed(a + b) && RowsOk(a + b) && Indexed(a + b, 0, number)
  {
    Join(a, b, 0, first, mid, mid', last, number);
    StretchWellFormed(a + b, 0, first, last, number);
  }

  /** The mnemonics that are not in the table have no place in it. */
  lemma PseudoCodes()
    ensures NameCode(".long") == 0x2e6c6f6e_67000000 && NameCode("blt") == 0x626c7400_00000000
    ensures NameCode("bne") == 0x626e6500_00000000 && NameCode("bdnz") == 0x62646e7a_00000000
  {
  }

  lemma PseudoRow(name: string)
    requires Reassembly.Pseudo(name)
    ensures RowOf(name) == 206
  {
    PseudoCodes();
  }

  lemma IndexedUnlisted(t: seq<Opcode>, number: string -> nat)
    requires Indexed(t, 0, number) && |t| <= 206 && forall name | Reassembly.Pseudo(name) :: number(name) == 206
    ensures Reassembly.Unlisted(t)
  {
  }

  // ----- the checks, part by part -----

  const CODES0: seq<nat> := [
    0x74776900_00000000, 0x6d756c6c_69000000, 0x73756266_69630000, 0x636d706c_69000000, 0x636d7069_00000000,
    0x61646469_63000000, 0x61646469_632e0000, 0x61646469_00000000, 0x61646469_73000000
  ]

  lemma Rows0() ensures RowsOk(PART0) { }
  lemma Order0() ensures Ascending(PART0, 0xc000000, 0x3c000000) && |PART0| == 9 { }
  lemma Names0() ensures NamesOk(PART0) { }
  lemma Codes0() ensures CodesAre(PART0, CODES0) { }
  lemma Index0() ensures CodesIndexed(CODES0, 0) { }

  lemma Part0()
    ensures Stretch(PART0, 0, 0xc000000, 0x3c000000, RowOf) && |PART0| == 9
  {
    Rows0(); Order0(); Names0(); Codes0(); Index0();
  }

  const CODES1: seq<nat> := [
    0x62630000_00000000, 0x62636c00_00000000, 0x62636100_00000000, 0x62636c61_00000000, 0x73630000_00000000,
    0x62000000_00000000, 0x626c0000_00000000, 0x62610000_00000000, 0x626c6100_00000000
  ]

  lemma Rows1() ensures RowsOk(PART1) { }
  lemma Order1() ensures Ascending(PART1, 0x40000000, 0x48000003) && |PART1| == 9 { }
  lemma Names1() ensures NamesOk(PART1) { }
  lemma Codes1() ensures CodesAre(PART1, CODES1) { }
  lemma Index1() ensures CodesIndexed(CODES1, 9) { }

  lemma Part1()
    ensures Stretch(PART1, 9, 0x40000000, 0x48000003, RowOf) && |PART1| == 9
  {
    Rows1(); Order1(); Names1(); Codes1(); Index1();
  }

  const CODES2: seq<nat> := [
    0x6d637266_00000000, 0x62636c72_00000000, 0x62636c72_6c000000, 0x63726e6f_72000000, 0x72666900_00000000,
    0x6372616e_64630000, 0x6973796e_63000000, 0x6372786f_72000000, 0x63726e61_6e640000
  ]

  lemma Rows2() ensures RowsOk(PART2) { }
  lemma Order2() ensures Ascending(PART2, 0x4c000000, 0x4c0001c2) && |PART2| == 9 { }
  lemma Names2() ensures NamesOk(PART2) { }
  lemma Codes2() ensures CodesAre(PART2, CODES2) { }
  lemma Index2() ensures CodesIndexed(CODES2, 18) { }

  lemma Part2()
    ensures Stretch(PART2, 18, 0x4c000000, 0x4c0001c2, RowOf) && |PART2| == 9
  {
    Rows2(); Order2(); Names2(); Codes2(); Index2();
  }

  const CODES3: seq<nat> := [
    0x6372616e_64000000, 0x63726571_76000000, 0x63726f72_63000000, 0x63726f72_00000000, 0x62636374_72000000,
    0x62636374_726c0000, 0x726c7769_6d690000, 0x726c7769_6d692e00, 0x726c7769_6e6d0000
  ]

  lemma Rows3() ensures RowsOk(PART3) { }
  lemma Order3() ensures Ascending(PART3, 0x4c000202, 0x54000000) && |PART3| == 9 { }
  lemma Names3() ensures NamesOk(PART3) { }
  lemma Codes3() ensures CodesAre(PART3, CODES3) { }
  lemma Index3() ensures CodesIndexed(CODES3, 27) { }

  lemma Part3()
    ensures Stretch(PART3, 27, 0x4c000202, 0x54000000, RowOf) && |PART3| == 9
  {
    Rows3(); Order3(); Names3(); Codes3(); Index3();
  }

  const CODES4: seq<nat> := [
    0x726c7769_6e6d2e00, 0x726c776e_6d000000, 0x726c776e_6d2e0000, 0x6f726900_00000000, 0x6f726973_00000000,
    0x786f7269_00000000, 0x786f7269_73000000, 0x616e6469_2e000000, 0x616e6469_732e0000
  ]

  lemma Rows4() ensures RowsOk(PART4) { }
  lemma Order4() ensures Ascending(PART4, 0x54000001, 0x74000000) && |PART4| == 9 { }
  lemma Names4() ensures NamesOk(PART4) { }
  lemma Codes4() ensures CodesAre(PART4, CODES4) { }
  lemma Index4() ensures CodesIndexed(CODES4, 36) { }

  lemma Part4()
    ensures Stretch(PART4, 36, 0x54000001, 0x74000000, RowOf) && |PART4| == 9
  {
    Rows4(); Order4(); Names4(); Codes4(); Index4();
  }

  const CODES5: seq<nat> := [
    0x636d7000_00000000, 0x74770000_00000000, 0x73756266_63000000, 0x73756266_632e0000, 0x61646463_00000000,
    0x61646463_2e000000, 0x6d756c68_77750000, 0x6d756c68_77752e00, 0x6d666372_00000000
  ]

  lemma Rows5() ensures RowsOk(PART5) { }
  lemma Order5() ensures Ascending(PART5, 0x7c000000, 0x7c000026) && |PART5| == 9 { }
  lemma Names5() ensures NamesOk(PART5) { }
  lemma Codes5() ensures CodesAre(PART5, CODES5) { }
  lemma Index5() ensures CodesIndexed(CODES5, 45) { }

  lemma Part5()
    ensures Stretch(PART5, 45, 0x7c000000, 0x7c000026, RowOf) && |PART5| == 9
  {
    Rows5(); Order5(); Names5(); Codes5(); Index5();
  }

  const CODES6: seq<nat> := [
    0x6c776172_78000000, 0x6c777a78_00000000, 0x736c7700_00000000, 0x736c772e_00000000, 0x636e746c_7a770000,
    0x636e746c_7a772e00, 0x616e6400_00000000, 0x616e642e_00000000, 0x636d706c_00000000
  ]

  lemma Rows6() ensures RowsOk(PART6) { }
  lemma Order6() ensures Ascending(PART6, 0x7c000028, 0x7c000040) && |PART6| == 9 { }
  lemma Names6() ensures NamesOk(PART6) { }
  lemma Codes6() ensures CodesAre(PART6, CODES6) { }
  lemma Index6() ensures CodesIndexed(CODES6, 54) { }

  lemma Part6()
    ensures Stretch(PART6, 54, 0x7c000028, 0x7c000040, RowOf) && |PART6| == 9
  {
    Rows6(); Order6(); Names6(); Codes6(); Index6();
  }

  const CODES7: seq<nat> := [
    0x73756266_00000000, 0x73756266_2e000000, 0x64636273_74000000, 0x6c777a75_78000000, 0x616e6463_00000000,
    0x616e6463_2e000000, 0x6d756c68_77000000, 0x6d756c68_772e0000, 0x6d666d73_72000000
  ]

  lemma Rows7() ensures RowsOk(PART7) { }
  lemma Order7() ensures Ascending(PART7, 0x7c000050, 0x7c0000a6) && |PART7| == 9 { }
  lemma Names7() ensures NamesOk(PART7) { }
  lemma Codes7() ensures CodesAre(PART7, CODES7) { }
  lemma Index7() ensures CodesIndexed(CODES7, 63) { }

  lemma Part7()
    ensures Stretch(PART7, 63, 0x7c000050, 0x7c0000a6, RowOf) && |PART7| == 9
  {
    Rows7(); Order7(); Names7(); Codes7(); Index7();
  }

  const CODES8: seq<nat> := [
    0x64636266_00000000, 0x6c627a78_00000000, 0x6e656700_00000000, 0x6e65672e_00000000, 0x6c627a75_78000000,
    0x6e6f7200_00000000, 0x6e6f722e_00000000, 0x73756266_65000000, 0x73756266_652e0000
  ]

  lemma Rows8() ensures RowsOk(PART8) { }
  lemma Order8() ensures Ascending(PART8, 0x7c0000ac, 0x7c000111) && |PART8| == 9 { }
  lemma Names8() ensures NamesOk(PART8) { }
  lemma Codes8() ensures CodesAre(PART8, CODES8) { }
  lemma Index8() ensures CodesIndexed(CODES8, 72) { }

  lemma Part8()
    ensures Stretch(PART8, 72, 0x7c0000ac, 0x7c000111, RowOf) && |PART8| == 9
  {
    Rows8(); Order8(); Names8(); Codes8(); Index8();
  }

  const CODES9: seq<nat> := [
    0x61646465_00000000, 0x61646465_2e000000, 0x6d746372_66000000, 0x6d746d73_72000000, 0x73747763_782e0000,
    0x73747778_00000000, 0x73747775_78000000, 0x73756266_7a650000, 0x73756266_7a652e00
  ]

  lemma Rows9() ensures RowsOk(PART9) { }
  lemma Order9() ensures Ascending(PART9, 0x7c000114, 0x7c000191) && |PART9| == 9 { }
  lemma Names9() ensures NamesOk(PART9) { }
  lemma Codes9() ensures CodesAre(PART9, CODES9) { }
  lemma Index9() ensures CodesIndexed(CODES9, 81) { }

  lemma Part9()
    ensures Stretch(PART9, 81, 0x7c000114, 0x7c000191, RowOf) && |PART9| == 9
  {
    Rows9(); Order9(); Names9(); Codes9(); Index9();
  }

  const CODES10: seq<nat> := [
    0x6164647a_65000000, 0x6164647a_652e0000, 0x6d747372_00000000, 0x73746278_00000000, 0x73756266_6d650000,
    0x73756266_6d652e00, 0x6164646d_65000000, 0x6164646d_652e0000, 0x6d756c6c_77000000
  ]

  lemma Rows10() ensures RowsOk(PART10) { }
  lemma Order10() ensures Ascending(PART10, 0x7c000194, 0x7c0001d6) && |PART10| == 9 { }
  lemma Names10() ensures NamesOk(PART10) { }
  lemma Codes10() ensures CodesAre(PART10, CODES10) { }
  lemma Index10() ensures CodesIndexed(CODES10, 90) { }

  lemma Part10()
    ensures Stretch(PART10, 90, 0x7c000194, 0x7c0001d6, RowOf) && |PART10| == 9
  {
    Rows10(); Order10(); Names10(); Codes10(); Index10();
  }

  const CODES11: seq<nat> := [
    0x6d756c6c_772e0000, 0x6d747372_696e0000, 0x64636274_73740000, 0x73746275_78000000, 0x61646400_00000000,
    0x6164642e_00000000, 0x64636274_00000000, 0x6c687a78_00000000, 0x65717600_00000000
  ]

  lemma Rows11() ensures RowsOk(PART11) { }
  lemma Order11() ensures Ascending(PART11, 0x7c0001d7, 0x7c000238) && |PART11| == 9 { }
  lemma Names11() ensures NamesOk(PART11) { }
  lemma Codes11() ensures CodesAre(PART11, CODES11) { }
  lemma Index11() ensures CodesIndexed(CODES11, 99) { }

  lemma Part11()
    ensures Stretch(PART11, 99, 0x7c0001d7, 0x7c000238, RowOf) && |PART11| == 9
  {
    Rows11(); Order11(); Names11(); Codes11(); Index11();
  }

  const CODES12: seq<nat> := [
    0x6571762e_00000000, 0x746c6269_65000000, 0x65636977_78000000, 0x6c687a75_78000000, 0x786f7200_00000000,
    0x786f722e_00000000, 0x6d667370_72000000, 0x6c686178_00000000, 0x746c6269_61000000
  ]

  lemma Rows12() ensures RowsOk(PART12) { }
  lemma Order12() ensures Ascending(PART12, 0x7c000239, 0x7c0002e4) && |PART12| == 9 { }
  lemma Names12() ensures NamesOk(PART12) { }
  lemma Codes12() ensures CodesAre(PART12, CODES12) { }
  lemma Index12() ensures CodesIndexed(CODES12, 108) { }

  lemma Part12()
    ensures Stretch(PART12, 108, 0x7c000239, 0x7c0002e4, RowOf) && |PART12| == 9
  {
    Rows12(); Order12(); Names12(); Codes12(); Index12();
  }

  const CODES13: seq<nat> := [
    0x6d667462_00000000, 0x6c686175_78000000, 0x73746878_00000000, 0x6f726300_00000000, 0x6f72632e_00000000,
    0x65636f77_78000000, 0x73746875_78000000, 0x6f720000_00000000, 0x6f722e00_00000000
  ]

  lemma Rows13() ensures RowsOk(PART13) { }
  lemma Order13() ensures Ascending(PART13, 0x7c0002e6, 0x7c000379) && |PART13| == 9 { }
  lemma Names13() ensures NamesOk(PART13) { }
  lemma Codes13() ensures CodesAre(PART13, CODES13) { }
  lemma Index13() ensures CodesIndexed(CODES13, 117) { }

  lemma Part13()
    ensures Stretch(PART13, 117, 0x7c0002e6, 0x7c000379, RowOf) && |PART13| == 9
  {
    Rows13(); Order13(); Names13(); Codes13(); Index13();
  }

  const CODES14: seq<nat> := [
    0x64697677_75000000, 0x64697677_752e0000, 0x6d747370_72000000, 0x64636269_00000000, 0x6e616e64_00000000,
    0x6e616e64_2e000000, 0x64697677_00000000, 0x64697677_2e000000, 0x6d637278_72000000
  ]

  lemma Rows14() ensures RowsOk(PART14) { }
  lemma Order14() ensures Ascending(PART14, 0x7c000396, 0x7c000400) && |PART14| == 9 { }
  lemma Names14() ensures NamesOk(PART14) { }
  lemma Codes14() ensures CodesAre(PART14, CODES14) { }
  lemma Index14() ensures CodesIndexed(CODES14, 126) { }

  lemma Part14()
    ensures Stretch(PART14, 126, 0x7c000396, 0x7c000400, RowOf) && |PART14| == 9
  {
    Rows14(); Order14(); Names14(); Codes14(); Index14();
  }

  const CODES15: seq<nat> := [
    0x73756266_636f0000, 0x73756266_636f2e00, 0x61646463_6f000000, 0x61646463_6f2e0000, 0x6c737778_00000000,
    0x6c776272_78000000, 0x73727700_00000000, 0x7372772e_00000000, 0x73756266_6f000000
  ]

  lemma Rows15() ensures RowsOk(PART15) { }
  lemma Order15() ensures Ascending(PART15, 0x7c000410, 0x7c000450) && |PART15| == 9 { }
  lemma Names15() ensures NamesOk(PART15) { }
  lemma Codes15() ensures CodesAre(PART15, CODES15) { }
  lemma Index15() ensures CodesIndexed(CODES15, 135) { }

  lemma Part15()
    ensures Stretch(PART15, 135, 0x7c000410, 0x7c000450, RowOf) && |PART15| == 9
  {
    Rows15(); Order15(); Names15(); Codes15(); Index15();
  }

  const CODES16: seq<nat> := [
    0x73756266_6f2e0000, 0x746c6273_796e6300, 0x6d667372_00000000, 0x6c737769_00000000, 0x73796e63_00000000,
    0x6e65676f_00000000, 0x6e65676f_2e000000, 0x73756266_656f0000, 0x73756266_656f2e00
  ]

  lemma Rows16() ensures RowsOk(PART16) { }
  lemma Order16() ensures Ascending(PART16, 0x7c000451, 0x7c000511) && |PART16| == 9 { }
  lemma Names16() ensures NamesOk(PART16) { }
  lemma Codes16() ensures CodesAre(PART16, CODES16) { }
  lemma Index16() ensures CodesIndexed(CODES16, 144) { }

  lemma Part16()
    ensures Stretch(PART16, 144, 0x7c000451, 0x7c000511, RowOf) && |PART16| == 9
  {
    Rows16(); Order16(); Names16(); Codes16(); Index16();
  }

  const CODES17: seq<nat> := [
    0x61646465_6f000000, 0x61646465_6f2e0000, 0x6d667372_696e0000, 0x73747377_78000000, 0x73747762_72780000,
    0x73756266_7a656f00, 0x73756266_7a656f2e, 0x6164647a_656f0000, 0x6164647a_656f2e00
  ]

  lemma Rows17() ensures RowsOk(PART17) { }
  lemma Order17() ensures Ascending(PART17, 0x7c000514, 0x7c000595) && |PART17| == 9 { }
  lemma Names17() ensures NamesOk(PART17) { }
  lemma Codes17() ensures CodesAre(PART17, CODES17) { }
  lemma Index17() ensures CodesIndexed(CODES17, 153) { }

  lemma Part17()
    ensures Stretch(PART17, 153, 0x7c000514, 0x7c000595, RowOf) && |PART17| == 9
  {
    Rows17(); Order17(); Names17(); Codes17(); Index17();
  }

  const CODES18: seq<nat> := [
    0x73747377_69000000, 0x73756266_6d656f00, 0x73756266_6d656f2e, 0x6164646d_656f0000, 0x6164646d_656f2e00,
    0x6d756c6c_776f0000, 0x6d756c6c_776f2e00, 0x6164646f_00000000, 0x6164646f_2e000000
  ]

  lemma Rows18() ensures RowsOk(PART18) { }
  lemma Order18() ensures Ascending(PART18, 0x7c0005aa, 0x7c000615) && |PART18| == 9 { }
  lemma Names18() ensures NamesOk(PART18) { }
  lemma Codes18() ensures CodesAre(PART18, CODES18) { }
  lemma Index18() ensures CodesIndexed(CODES18, 162) { }

  lemma Part18()
    ensures Stretch(PART18, 162, 0x7c0005aa, 0x7c000615, RowOf) && |PART18| == 9
  {
    Rows18(); Order18(); Names18(); Codes18(); Index18();
  }

  const CODES19: seq<nat> := [
    0x6c686272_78000000, 0x73726177_00000000, 0x73726177_2e000000, 0x73726177_69000000, 0x73726177_692e0000,
    0x65696569_6f000000, 0x73746862_72780000, 0x65787473_68000000, 0x65787473_682e0000
  ]

  lemma Rows19() ensures RowsOk(PART19) { }
  lemma Order19() ensures Ascending(PART19, 0x7c00062c, 0x7c000735) && |PART19| == 9 { }
  lemma Names19() ensures NamesOk(PART19) { }
  lemma Codes19() ensures CodesAre(PART19, CODES19) { }
  lemma Index19() ensures CodesIndexed(CODES19, 171) { }

  lemma Part19()
    ensures Stretch(PART19, 171, 0x7c00062c, 0x7c000735, RowOf) && |PART19| == 9
  {
    Rows19(); Order19(); Names19(); Codes19(); Index19();
  }

  const CODES20: seq<nat> := [
    0x65787473_62000000, 0x65787473_622e0000, 0x64697677_756f0000, 0x64697677_756f2e00, 0x746c626c_64000000,
    0x69636269_00000000, 0x64697677_6f000000, 0x64697677_6f2e0000, 0x746c626c_69000000
  ]

  lemma Rows20() ensures RowsOk(PART20) { }
  lemma Order20() ensures Ascending(PART20, 0x7c000774, 0x7c0007e4) && |PART20| == 9 { }
  lemma Names20() ensures NamesOk(PART20) { }
  lemma Codes20() ensures CodesAre(PART20, CODES20) { }
  lemma Index20() ensures CodesIndexed(CODES20, 180) { }

  lemma Part20()
    ensures Stretch(PART20, 180, 0x7c000774, 0x7c0007e4, RowOf) && |PART20| == 9
  {
    Rows20(); Order20(); Names20(); Codes20(); Index20();
  }

  const CODES21: seq<nat> := [
    0x6463627a_00000000, 0x6c777a00_00000000, 0x6c777a75_00000000, 0x6c627a00_00000000, 0x6c627a75_00000000,
    0x73747700_00000000, 0x73747775_00000000, 0x73746200_00000000, 0x73746275_00000000
  ]

  lemma Rows21() ensures RowsOk(PART21) { }
  lemma Order21() ensures Ascending(PART21, 0x7c0007ec, 0x9c000000) && |PART21| == 9 { }
  lemma Names21() ensures NamesOk(PART21) { }
  lemma Codes21() ensures CodesAre(PART21, CODES21) { }
  lemma Index21() ensures CodesIndexed(CODES21, 189) { }

  lemma Part21()
    ensures Stretch(PART21, 189, 0x7c0007ec, 0x9c000000, RowOf) && |PART21| == 9
  {
    Rows21(); Order21(); Names21(); Codes21(); Index21();
  }

  const CODES22: seq<nat> := [
    0x6c687a00_00000000, 0x6c687a75_00000000, 0x6c686100_00000000, 0x6c686175_00000000, 0x73746800_00000000,
    0x73746875_00000000, 0x6c6d7700_00000000, 0x73746d77_00000000
  ]

  lemma Rows22() ensures RowsOk(PART22) { }
  lemma Order22() ensures Ascending(PART22, 0xa0000000, 0xbc000000) && |PART22| == 8 { }
  lemma Names22() ensures NamesOk(PART22) { }
  lemma Codes22() ensures CodesAre(PART22, CODES22) { }
  lemma Index22() ensures CodesIndexed(CODES22, 198) { }

  lemma Part22()
    ensures Stretch(PART22, 198, 0xa0000000, 0xbc000000, RowOf) && |PART22| == 8
  {
    Rows22(); Order22(); Names22(); Codes22(); Index22();
  }

  lemma Group0()
    ensures Stretch(GROUP0, 0, 0xc000000, 0x4c0001c2, RowOf) && |GROUP0| == 27
  {
    Part0();
    var t := PART0;
    Part1();
    Join(t, PART1, 0, 0xc000000, 0x3c000000, 0x40000000, 0x48000003, RowOf);
    t := t + PART1;
    Part2();
    Join(t, PART2, 0, 0xc000000, 0x48000003, 0x4c000000, 0x4c0001c2, RowOf);
    t := t + PART2;
  }

  lemma Group1()
    ensures Stretch(GROUP1, 27, 0x4c000202, 0x7c000026, RowOf) && |GROUP1| == 27
  {
    Part3();
    var t := PART3;
    Part4();
    Join(t, PART4, 27, 0x4c000202, 0x54000000, 0x54000001, 0x74000000, RowOf);
    t := t + PART4;
    Part5();
    Join(t, PART5, 27, 0x4c000202, 0x74000000, 0x7c000000, 0x7c000026, RowOf);
    t := t + PART5;
  }

  lemma Group2()
    ensures Stretch(GROUP2, 54, 0x7c000028, 0x7c000111, RowOf) && |GROUP2| == 27
  {
    Part6();
    var t := PART6;
    Part7();
    Join(t, PART7, 54, 0x7c000028, 0x7c000040, 0x7c000050, 0x7c0000a6, RowOf);
    t := t + PART7;
    Part8();
    Join(t, PART8, 54, 0x7c000028, 0x7c0000a6, 0x7c0000ac, 0x7c000111, RowOf);
    t := t + PART8;
  }

  lemma Group3()
    ensures Stretch(GROUP3, 81, 0x7c000114, 0x7c000238, RowOf) && |GROUP3| == 27
  {
    Part9();
    var t := PART9;
    Part10();
    Join(t, PART10, 81, 0x7c000114, 0x7c000191, 0x7c000194, 0x7c0001d6, RowOf);
    t := t + PART10;
    Part11();
    Join(t, PART11, 81, 0x7c000114, 0x7c0001d6, 0x7c0001d7, 0x7c000238, RowOf);
    t := t + PART11;
  }

  lemma Group4()
    ensures Stretch(GROUP4, 108, 0x7c000239, 0x7c000400, RowOf) && |GROUP4| == 27
  {
    Part12();
    var t := PART12;
    Part13();
    Join(t, PART13, 108, 0x7c000239, 0x7c0002e4, 0x7c0002e6, 0x7c000379, RowOf);
    t := t + PART13;
    Part14();
    Join(t, PART14, 108, 0x7c000239, 0x7c000379, 0x7c000396, 0x7c000400, RowOf);
    t := t + PART14;
  }

  lemma Group5()
    ensures Stretch(GROUP5, 135, 0x7c000410, 0x7c000595, RowOf) && |GROUP5| == 27
  {
    Part15();
    var t := PART15;
    Part16();
    Join(t, PART16, 135, 0x7c000410, 0x7c000450, 0x7c000451, 0x7c000511, RowOf);
    t := t + PART16;
    Part17();
    Join(t, PART17, 135, 0x7c000410, 0x7c000511, 0x7c000514, 0x7c000595, RowOf);
    t := t + PART17;
  }

  lemma Group6()
    ensures Stretch(GROUP6, 162, 0x7c0005aa, 0x7c0007e4, RowOf) && |GROUP6| == 27
  {
    Part18();
    var t := PART18;
    Part19();
    Join(t, PART19, 162, 0x7c0005aa, 0x7c000615, 0x7c00062c, 0x7c000735, RowOf);
    t := t + PART19;
    Part20();
    Join(t, PART20, 162, 0x7c0005aa, 0x7c000735, 0x7c000774, 0x7c0007e4, RowOf);
    t := t + PART20;
  }

  lemma Group7()
    ensures Stretch(GROUP7, 189, 0x7c0007ec, 0xbc000000, RowOf) && |GROUP7| == 17
  {
    Part21();
    var t := PART21;
    Part22();
    Join(t, PART22, 189, 0x7c0007ec, 0x9c000000, 0xa0000000, 0xbc000000, RowOf);
    t := t + PART22;
  }

  lemma Half0()
    ensures Stretch(HALF0, 0, 0xc000000, 0x7c000238, RowOf) && |HALF0| == 108
  {
    Group0();
    var t := GROUP0;
    Group1();
    Join(t, GROUP1, 0, 0xc000000, 0x4c0001c2, 0x4c000202, 0x7c000026, RowOf);
    t := t + GROUP1;
    Group2();
    Join(t, GROUP2, 0, 0xc000000, 0x7c000026, 0x7c000028, 0x7c000111, RowOf);
    t := t + GROUP2;
    Group3();
    Join(t, GROUP3, 0, 0xc000000, 0x7c000111, 0x7c000114, 0x7c000238, RowOf);
    t := t + GROUP3;
  }

  lemma Half1()
    ensures Stretch(HALF1, 108, 0x7c000239, 0xbc000000, RowOf) && |HALF1| == 98
  {
    Group4();
    var t := GROUP4;
    Group5();
    Join(t, GROUP5, 108, 0x7c000239, 0x7c000400, 0x7c000410, 0x7c000595, RowOf);
    t := t + GROUP5;
    Group6();
    Join(t, GROUP6, 108, 0x7c000239, 0x7c000595, 0x7c0005aa, 0x7c0007e4, RowOf);
    t := t + GROUP6;
    Group7();
    Join(t, GROUP7, 108, 0x7c000239, 0x7c0007e4, 0x7c0007ec, 0xbc000000, RowOf);
    t := t + GROUP7;
  }

  /** The shipped table is well formed. */
  lemma ShippedTableWellFormed()
    ensures RoundTrip.WellFormed(OPCODES) && RowsOk(OPCODES) && Reassembly.Unlisted(OPCODES)
  {
    Half0();
    Half1();
    TwoStretches(HALF0, HALF1, 0xc000000, 0x7c000238, 0x7c000239, 0xbc000000, RowOf);
    forall name | Reassembly.Pseudo(name) ensures RowOf(name) == 206 { PseudoRow(name); }
    IndexedUnlisted(HALF0 + HALF1, RowOf);
  }
}
