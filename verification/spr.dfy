/** Special purpose and time base registers: their names, and the five-bit halves of their numbers
    that an instruction holds in reverse order. */
module Sprs {
  import opened Wrappers
  import opened Bits
  import opened Text

  datatype SprInfo = SprInfo(val: nat, name: string)

  /** The two five-bit halves of a register number, exchanged. */
  function Swap(value: nat): nat {
    value / 32 % 32 + value % 32 * 32
  }

  /** What the C code computes, `((value >> 5) & 0x1f) | ((value & 0x1f) << 5)`. */
  function SwapBits(value: nat): nat {
    Or(And(Shr(value, 5), 0x1f), Shl(And(value, 0x1f), 5))
  }

  lemma SwapBitsIsSwap(value: nat)
    ensures SwapBits(value) == Swap(value)
  {
    PowersOfTwo();
    FieldIsModulo(value, 5, 5);
    AndOnes(value, 5);
    ShlIsTimes(And(value, 0x1f), 5);
    forall i: nat ensures !(Bit(Field(value, 5, 5), i) && Bit(Place(value, 5, 5), i)) {
      BitField(value, 5, 5, i);
      BitPlace(value, 5, 5, i);
    }
    OrOfDisjoint(Field(value, 5, 5), Place(value, 5, 5));
  }

  /** Exchanging the halves of a ten-bit field twice gives the field back. */
  lemma SwapInvolution(value: nat)
    requires value < 1024
    ensures Swap(value) < 1024 && Swap(Swap(value)) == value
  {
    var high, low := value / 32, value % 32;
    var s := 32 * low + high;
    assert Swap(value) == s && s / 32 == low && s % 32 == high;
  }

  // ----- special purpose registers -----

  function NameOf(m: seq<SprInfo>, spr: nat): Option<string> {
    if m == [] then None
    else if m[0].val == spr then Some(m[0].name)
    else NameOf(m[1..], spr)
  }

  function ValueOf(m: seq<SprInfo>, name: string): Option<nat> {
    if m == [] then None
    else if m[0].name == name then Some(m[0].val)
    else ValueOf(m[1..], name)
  }

  /** spr_name: the name of an encoded register number, or its number in decimal. */
  function SprName(m: seq<SprInfo>, value: nat): string {
    match NameOf(m, Swap(value))
    case Some(name) => name
    case None => Format(Swap(value), 10)
  }

  /** spr_value: the encoded number of a register given by name or number, 0 when unknown. */
  function SprValue(m: seq<SprInfo>, name: string): nat {
    if name == "" then 0
    else if IsDigit(name[0]) then Swap(ReadNumber(name))
    else match ValueOf(m, Lower(name))
      case Some(val) => Swap(val)
      case None => 0
  }

  method FindSprName(m: seq<SprInfo>, value: nat) returns (name: string)
    ensures name == SprName(m, value)
  {
    var spr := SwapBits(value);
    SwapBitsIsSwap(value);
    var i := 0;
    while i < |m|
      invariant 0 <= i <= |m|
      invariant NameOf(m, spr) == NameOf(m[i..], spr)
    {
      if spr == m[i].val {
        return m[i].name;
      }
      assert m[i..][1..] == m[i + 1..];
      i := i + 1;
    }
    return Format(spr, 10);
  }

  /** The name buffer is lowered in place. */
  method FindSprValue(m: seq<SprInfo>, name: array<char>) returns (spr: nat)
    requires '\0' in name[..]
    modifies name
    ensures spr == SprValue(m, CStr(old(name[..])))
  {
    ghost var text := CStr(name[..]);
    if name[0] == '\0' {
      return 0;
    }
    if IsDigit(name[0]) {
      var number := ReadNumber(CStr(name[..]));
      SwapBitsIsSwap(number);
      return SwapBits(number);
    }
    DownString(name);
    CStrIs(name[..], Lower(text));
    var lowered := CStr(name[..]);
    var i := 0;
    while i < |m|
      invariant 0 <= i <= |m|
      invariant ValueOf(m, lowered) == ValueOf(m[i..], lowered)
    {
      if lowered == m[i].name {
        SwapBitsIsSwap(m[i].val);
        return SwapBits(m[i].val);
      }
      assert m[i..][1..] == m[i + 1..];
      i := i + 1;
    }
    return 0;
  }

  // ----- time base registers -----

  function TbrName(value: nat): string {
    if Swap(value) == 268 then "TBL"
    else if Swap(value) == 269 then "TBU"
    else "???"
  }

  function TbrValue(name: string): nat {
    if name == "" then 0
    else
      var lowered := Lower(name);
      if IsDigit(lowered[0]) then
        var val := ReadNumber(lowered);
        if val == 268 || val == 269 then Swap(val) else 0
      else if lowered == "tbl" then Swap(268)
      else if lowered == "tbu" then Swap(269)
      else 0
  }

  // ----- names and numbers are inverse -----

  /** The names start with a capital letter. */
  predicate Capitalised(m: seq<SprInfo>) {
    forall i | 0 <= i < |m| :: m[i].name != "" && 'A' <= m[i].name[0] <= 'Z'
  }

  /** The names are words that fit `spr_name[10]`. */
  predicate NamesAreWords(m: seq<SprInfo>) {
    forall i | 0 <= i < |m| :: |m[i].name| <= 9 && IsWord(m[i].name)
  }

  /** A register name as the map spells it, within `spr_name[10]`. */
  predicate RegisterName(s: string) {
    && 1 <= |s| <= 9 && 'A' <= s[0] <= 'Z'
    && forall i | 0 <= i < |s| :: 'A' <= s[i] <= 'Z' || '0' <= s[i] <= '9' || s[i] == '_'
  }

  predicate SprsOk(m: seq<SprInfo>) { forall i | 0 <= i < |m| :: RegisterName(m[i].name) }

  lemma SprsOkNames(m: seq<SprInfo>)
    requires SprsOk(m)
    ensures Capitalised(m) && NamesAreWords(m)
  {
    forall i | 0 <= i < |m| ensures IsWord(m[i].name) {
      forall c | c in m[i].name ensures WordChar(c) {
        var k :| 0 <= k < |m[i].name| && m[i].name[k] == c;
      }
    }
  }

  /** The names are lower case, distinct and do not start with a digit; so are the numbers. */
  predicate LowerCase(m: seq<SprInfo>) {
    && (forall i | 0 <= i < |m| ::
          m[i].name != "" && !IsDigit(m[i].name[0]) && Lower(m[i].name) == m[i].name && m[i].val < 1024)
    && (forall i, j | 0 <= i < j < |m| :: m[i].name != m[j].name && m[i].val != m[j].val)
  }

  predicate Named(m: seq<SprInfo>, spr: nat) { exists i | 0 <= i < |m| :: m[i].val == spr }

  lemma {:induction false} NameOfFinds(m: seq<SprInfo>, spr: nat)
    ensures NameOf(m, spr).Some? == Named(m, spr)
    ensures NameOf(m, spr).Some? ==>
              exists i | 0 <= i < |m| :: m[i].val == spr && m[i].name == NameOf(m, spr).value
  {
    if m != [] && m[0].val != spr {
      var rest := m[1..];
      NameOfFinds(rest, spr);
      if Named(m, spr) {
        var i :| 0 <= i < |m| && m[i].val == spr;
        assert rest[i - 1].val == spr;
      }
      if NameOf(rest, spr).Some? {
        var i :| 0 <= i < |rest| && rest[i].val == spr && rest[i].name == NameOf(rest, spr).value;
        assert m[i + 1] == rest[i];
      }
    }
  }

  /** A lowered name is never found in a capitalised map. */
  lemma {:induction false} LoweredNotFound(m: seq<SprInfo>, name: string)
    requires Capitalised(m)
    ensures ValueOf(m, Lower(name)) == None
  {
    if m != [] {
      LoweredNotFound(m[1..], name);
    }
  }

  lemma {:induction false} ValueOfFinds(m: seq<SprInfo>, i: nat)
    requires i < |m| && forall j, k | 0 <= j < k < |m| :: m[j].name != m[k].name
    ensures ValueOf(m, m[i].name) == Some(m[i].val)
  {
    if i > 0 {
      ValueOfFinds(m[1..], i - 1);
    }
  }

  lemma DecimalSprValue(m: seq<SprInfo>, n: Word)
    ensures SprValue(m, Format(n, 10)) == Swap(n)
  {
    var s := Format(n, 10);
    assert s[0] in s;
    ReadNumberDecimal(n);
  }

  /** The number of a register that has no name is printed in decimal and read back. */
  lemma UnnamedSprValue(m: seq<SprInfo>, v: nat)
    requires Swap(v) < 1024 && !Named(m, Swap(v))
    ensures SprValue(m, SprName(m, v)) == Swap(Swap(v))
  {
    NameOfFinds(m, Swap(v));
    DecimalSprValue(m, Swap(v));
  }

  lemma NamedSprValue(m: seq<SprInfo>, v: nat)
    requires LowerCase(m) && Named(m, Swap(v))
    ensures SprValue(m, SprName(m, v)) == Swap(Swap(v))
  {
    NameOfFinds(m, Swap(v));
    var i :| 0 <= i < |m| && m[i].val == Swap(v) && m[i].name == SprName(m, v);
    ValueOfFinds(m, i);
  }

  /** With the capitalised names of the shipped map, a nonzero field is read back exactly when the
      register has no name. */
  lemma SprRoundTripIff(m: seq<SprInfo>, v: nat)
    requires Capitalised(m) && 0 < v < 1024
    ensures SprValue(m, SprName(m, v)) == (if Named(m, Swap(v)) then 0 else v)
    ensures SprValue(m, SprName(m, v)) == v <==> !Named(m, Swap(v))
  {
    SwapInvolution(v);
    if Named(m, Swap(v)) {
      NameOfFinds(m, Swap(v));
      LoweredNotFound(m, SprName(m, v));
    } else {
      UnnamedSprValue(m, v);
    }
  }

  /** With lower case names the two functions would be inverse on every field. */
  lemma SprRoundTripLowerCase(m: seq<SprInfo>, v: nat)
    requires LowerCase(m) && v < 1024
    ensures SprValue(m, SprName(m, v)) == v
  {
    SwapInvolution(v);
    if Named(m, Swap(v)) {
      NamedSprValue(m, v);
    } else {
      UnnamedSprValue(m, v);
    }
  }

  /** A time base field is read back exactly when it is one of the two registers (or zero). */
  lemma TbrRoundTripIff(v: nat)
    requires 0 < v < 1024
    ensures TbrValue(TbrName(v)) == (if Swap(v) == 268 || Swap(v) == 269 then v else 0)
    ensures TbrValue(TbrName(v)) == v <==> Swap(v) in {268, 269}
  {
    SwapInvolution(v);
    assert Lower("TBL") == "tbl";
    assert Lower("TBU") == "tbu";
    assert Lower("???")[0] == '?';
  }
}
