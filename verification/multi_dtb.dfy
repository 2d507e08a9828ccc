/** Choosing a device tree blob from a packed table by the three parts of `aml_dt`. */
module MultiDtb {
  import opened Bits
  import opened Wrappers
  import opened Text

  const DT_HEADER_MAGIC: Word := 0xedfe_0dd0
  const AML_DT_HEADER_MAGIC: Word := 0x5f4c_4d41

  const AML_DT_ID_VARI_TOTAL: nat := 3
  const AML_DT_FIRST_DTB_OFFSET: nat := 12

  /** What readl finds at an address. */
  type Memory = Word -> Word

  // ----- the parts of aml_dt -----

  /** strsep: the text before the first underscore, and what stands behind it. */
  function Before(s: string): (r: string)
    ensures |r| <= |s| && r == s[..|r|] && '_' !in r
    ensures |r| < |s| ==> s[|r|] == '_'
  {
    if s == "" || s[0] == '_' then "" else [s[0]] + Before(s[1..])
  }

  function Behind(s: string): Option<string> {
    if |Before(s)| == |s| then None else Some(s[|Before(s)| + 1..])
  }

  /** Two underscores at least. */
  predicate ThreeParts(s: string) {
    Behind(s).Some? && Behind(Behind(s).value).Some?
  }

  /** The text, and what stands behind its first and its second underscore. */
  function Rests(s: string): seq<string>
    requires ThreeParts(s)
  {
    [s, Behind(s).value, Behind(Behind(s).value).value]
  }

  /** The parts before the underscores, and the third part. */
  function Parts(s: string): (r: seq<string>)
    requires ThreeParts(s)
    ensures |r| == AML_DT_ID_VARI_TOTAL
  {
    [Before(Rests(s)[0]), Before(Rests(s)[1]), Before(Rests(s)[2])]
  }

  // ----- the table in memory -----

  function IdLength(version: nat): nat { if version == 1 then 4 else 16 }

  function HeaderSize(len: nat): nat { 8 + len * AML_DT_ID_VARI_TOTAL }

  /** The address of byte `at` of the `i`th entry. */
  function EntryAddress(base: Word, len: nat, i: nat, at: nat): Word {
    Wrap(base + AML_DT_FIRST_DTB_OFFSET + i * HeaderSize(len) + at)
  }

  /** Byte `k` of a word, counted from the most significant one. */
  function ByteOf(w: Word, k: nat): char
    requires k < 4
  {
    (w / (if k == 0 then 0x100_0000 else if k == 1 then 0x1_0000 else if k == 2 then 0x100 else 1) % 0x100) as char
  }

  /** Character `k` of the `x`th identifier of an entry: each word is turned round. */
  function IdChar(mem: Memory, base: Word, len: nat, i: nat, x: nat, k: nat): char {
    ByteOf(mem(EntryAddress(base, len, i, x * len + k / 4 * 4)), k % 4)
  }

  function Id(mem: Memory, base: Word, len: nat, i: nat, x: nat): (r: string)
    ensures |r| == len && forall k | 0 <= k < len :: r[k] == IdChar(mem, base, len, i, x, k)
  {
    seq(len, k requires 0 <= k < len => IdChar(mem, base, len, i, x, k))
  }

  /** The identifiers of the first `n` entries. */
  function Table(mem: Memory, base: Word, len: nat, n: nat): (r: seq<seq<string>>)
    ensures |r| == n
    ensures forall i | 0 <= i < n :: r[i] == [Id(mem, base, len, i, 0), Id(mem, base, len, i, 1), Id(mem, base, len, i, 2)]
  {
    seq(n, i requires 0 <= i < n => [Id(mem, base, len, i, 0), Id(mem, base, len, i, 1), Id(mem, base, len, i, 2)])
  }

  function OffsetField(mem: Memory, base: Word, len: nat, i: nat): Word {
    mem(EntryAddress(base, len, i, len * AML_DT_ID_VARI_TOTAL))
  }

  // ----- the search, on a list -----

  /** Every part is a prefix of the identifier in its place. */
  predicate PartsMatch(tokens: seq<string>, ids: seq<string>) {
    |tokens| == |ids| && forall x | 0 <= x < |ids| :: tokens[x] <= ids[x]
  }

  /** The last entry that matches. */
  function LastMatch(tokens: seq<string>, entries: seq<seq<string>>): Option<nat> {
    if entries == [] then None
    else
      var n := |entries| - 1;
      if PartsMatch(tokens, entries[n]) then Some(n) else LastMatch(tokens, entries[..n])
  }

  lemma {:induction false} LastMatchIsLast(tokens: seq<string>, entries: seq<seq<string>>)
    ensures
      match LastMatch(tokens, entries)
      case None => forall i | 0 <= i < |entries| :: !PartsMatch(tokens, entries[i])
      case Some(k) =>
        && k < |entries| && PartsMatch(tokens, entries[k])
        && forall i | k < i < |entries| :: !PartsMatch(tokens, entries[i])
    decreases |entries|
  {
    if entries != [] && !PartsMatch(tokens, entries[|entries| - 1]) {
      LastMatchIsLast(tokens, entries[..|entries| - 1]);
    }
  }

  /** What the table is for: the blob of the last entry that matches, or the table itself. */
  function Chosen(mem: Memory, base: Word, len: nat, found: Option<nat>): Word {
    match found
    case None => base
    case Some(k) => Wrap(base + OffsetField(mem, base, len, k))
  }

  /** What the code returns: the number 0xffff stands for no entry. */
  function Returned(mem: Memory, base: Word, len: nat, found: Option<nat>): Word {
    if found == Some(0xffff) then base else Chosen(mem, base, len, found)
  }

  // ----- a table written for a list of entries -----

  datatype Blob = Blob(ids: seq<string>, offset: Word)

  /** Three identifiers of full length, in bytes. */
  predicate BlobOk(b: Blob, len: nat) {
    && |b.ids| == AML_DT_ID_VARI_TOTAL
    && forall x | 0 <= x < |b.ids| :: |b.ids[x]| == len && forall k | 0 <= k < len :: b.ids[x][k] as int < 256
  }

  /** Four characters as a word, the first one on top. */
  function Pack(s: string): Word
    requires |s| == 4 && forall k | 0 <= k < 4 :: s[k] as int < 256
  {
    0x100_0000 * s[0] as int + 0x1_0000 * s[1] as int + 0x100 * s[2] as int + s[3] as int
  }

  lemma PackUnpack(s: string, k: nat)
    requires |s| == 4 && k < 4 && forall k | 0 <= k < 4 :: s[k] as int < 256
    ensures ByteOf(Pack(s), k) == s[k]
  {
    var a, b, c, d := s[0] as int, s[1] as int, s[2] as int, s[3] as int;
    var w := Pack(s);
    assert w / 0x100_0000 == a && w / 0x1_0000 == 0x100 * a + b && w / 0x100 == 0x1_0000 * a + 0x100 * b + c;
  }

  /** The `j`th word of an identifier stands in its place. */
  predicate HoldsWord(mem: Memory, base: Word, len: nat, i: nat, ids: seq<string>, x: nat, j: nat)
    requires |ids| == AML_DT_ID_VARI_TOTAL && x < |ids| && |ids[x]| == len && 4 * j + 4 <= len
    requires forall k | 0 <= k < len :: ids[x][k] as int < 256
  {
    mem(EntryAddress(base, len, i, x * len + j * 4)) == Pack(ids[x][4 * j..4 * j + 4])
  }

  ghost predicate Holds(mem: Memory, base: Word, len: nat, blobs: seq<Blob>) {
    && (forall i | 0 <= i < |blobs| :: BlobOk(blobs[i], len))
    && (forall i: nat, x: nat, j: nat | i < |blobs| && x < AML_DT_ID_VARI_TOTAL && 4 * j + 4 <= len ::
          HoldsWord(mem, base, len, i, blobs[i].ids, x, j))
    && (forall i | 0 <= i < |blobs| :: OffsetField(mem, base, len, i) == blobs[i].offset)
  }

  function Ids(blobs: seq<Blob>): (r: seq<seq<string>>)
    ensures |r| == |blobs| && forall i | 0 <= i < |blobs| :: r[i] == blobs[i].ids
  {
    seq(|blobs|, i requires 0 <= i < |blobs| => blobs[i].ids)
  }

  lemma IdIs(mem: Memory, base: Word, len: nat, blobs: seq<Blob>, i: nat, x: nat)
    requires Holds(mem, base, len, blobs) && i < |blobs| && x < AML_DT_ID_VARI_TOTAL && len % 4 == 0
    ensures Id(mem, base, len, i, x) == blobs[i].ids[x]
  {
    var id := blobs[i].ids[x];
    assert BlobOk(blobs[i], len);
    forall k | 0 <= k < len ensures IdChar(mem, base, len, i, x, k) == id[k] {
      var j := k / 4;
      assert 4 * j + 4 <= len;
      assert HoldsWord(mem, base, len, i, blobs[i].ids, x, j);
      PackUnpack(id[4 * j..4 * j + 4], k % 4);
    }
  }

  /** The table is read back as the list that it was written for. */
  lemma TableIs(mem: Memory, base: Word, len: nat, blobs: seq<Blob>)
    requires Holds(mem, base, len, blobs) && len % 4 == 0
    ensures Table(mem, base, len, |blobs|) == Ids(blobs)
  {
    forall i | 0 <= i < |blobs| ensures Table(mem, base, len, |blobs|)[i] == Ids(blobs)[i] {
      assert BlobOk(blobs[i], len);
      IdIs(mem, base, len, blobs, i, 0);
      IdIs(mem, base, len, blobs, i, 1);
      IdIs(mem, base, len, blobs, i, 2);
    }
  }

  /** The address of the blob that was found in the list, or that of the table. */
  function Wanted(base: Word, blobs: seq<Blob>, found: Option<nat>): Word
    requires found.Some? ==> found.value < |blobs|
  {
    match found
    case None => base
    case Some(k) => Wrap(base + blobs[k].offset)
  }

  lemma ChosenIsWanted(mem: Memory, base: Word, len: nat, blobs: seq<Blob>, found: Option<nat>)
    requires Holds(mem, base, len, blobs) && (found.Some? ==> found.value < |blobs|)
    ensures Chosen(mem, base, len, found) == Wanted(base, blobs, found)
  {
  }

  /** The search in the words of the table is the search in the list it was written for. */
  lemma LookupOnList(mem: Memory, base: Word, len: nat, blobs: seq<Blob>, tokens: seq<string>, found: Option<nat>)
    requires Holds(mem, base, len, blobs) && len % 4 == 0 && found == LastMatch(tokens, Ids(blobs))
    ensures LastMatch(tokens, Table(mem, base, len, |blobs|)) == found
    ensures (found.Some? ==> found.value < |blobs|) && Chosen(mem, base, len, found) == Wanted(base, blobs, found)
  {
    TableIs(mem, base, len, blobs);
    LastMatchIsLast(tokens, Ids(blobs));
    ChosenIsWanted(mem, base, len, blobs, found);
  }

  // ----- implementation: splitting aml_dt -----

  lemma {:induction false} BeforeIs(s: string, n: nat)
    requires n <= |s| && '_' !in s[..n] && (n == |s| || s[n] == '_')
    ensures Before(s) == s[..n]
  {
    if n > 0 {
      assert s[0] in s[..n] && s[1..][..n - 1] == s[..n][1..];
      BeforeIs(s[1..], n - 1);
    }
  }

  /** The string at `p` is split at its first underscore, which becomes a NUL. */
  ghost predicate SplitAt(was: seq<char>, now: seq<char>, p: nat, rest: Option<nat>)
    requires p <= |was|
  {
    var text := StringAt(was, p);
    match Behind(text)
    case None => now == was && rest == None
    case Some(behind) =>
      var e := p + |Before(text)|;
      && e < |was| && now == was[e := '\0'] && rest == Some(e + 1)
  }

  /** strpbrk for one underscore: where the text before it ends. */
  method FindUnderscore(buf: array<char>, s: nat) returns (end: nat)
    requires s <= buf.Length && s + |StringAt(buf[..], s)| < buf.Length
    ensures end == s + |Before(StringAt(buf[..], s))| <= s + |StringAt(buf[..], s)|
    ensures buf[end] == '\0' <==> Behind(StringAt(buf[..], s)) == None
  {
    ghost var text := StringAt(buf[..], s);
    StringAtHas(buf[..], s);
    end := s;
    while buf[end] != '\0' && buf[end] != '_'
      invariant s <= end <= s + |text| && '_' !in text[..end - s]
      decreases s + |text| - end
    {
      assert text[..end + 1 - s] == text[..end - s] + [text[end - s]];
      end := end + 1;
    }
    if end - s < |text| { assert text[end - s] in text; }
    BeforeIs(text, end - s);
  }

  method StrSep(buf: array<char>, s: nat) returns (rest: Option<nat>)
    requires s <= buf.Length && s + |StringAt(buf[..], s)| < buf.Length
    modifies buf
    ensures SplitAt(old(buf[..]), buf[..], s, rest)
  {
    var end := FindUnderscore(buf, s);
    if buf[end] == '\0' {
      return None;
    }
    buf[end] := '\0';
    return Some(end + 1);
  }

  /** A split makes the text before the underscore a string. */
  lemma SplitFirst(was: seq<char>, now: seq<char>, p: nat, rest: Option<nat>)
    requires p <= |was| && p + |StringAt(was, p)| < |was| && SplitAt(was, now, p, rest)
    ensures |now| == |was| && StringAt(now, p) == Before(StringAt(was, p))
  {
    var text := StringAt(was, p);
    StringAtHas(was, p);
    if Behind(text).Some? {
      var first := Before(text);
      forall k | 0 <= k < |first| ensures now[p + k] == first[k] != '\0' {
        assert first[k] == text[k] && text[k] in text;
      }
      StringAtIs(now, p, first);
    }
  }

  /** And it leaves the string behind the underscore. */
  lemma SplitRest(was: seq<char>, now: seq<char>, p: nat, rest: Option<nat>)
    requires p <= |was| && p + |StringAt(was, p)| < |was| && SplitAt(was, now, p, rest) && rest.Some?
    ensures Behind(StringAt(was, p)).Some? && rest.value == p + |Before(StringAt(was, p))| + 1 <= |now|
    ensures StringAt(now, rest.value) == Behind(StringAt(was, p)).value
    ensures rest.value + |StringAt(now, rest.value)| < |now|
  {
    var text := StringAt(was, p);
    StringAtHas(was, p);
    var at, behind := |Before(text)| + 1, Behind(text).value;
    forall k | 0 <= k < |behind| ensures now[rest.value + k] == behind[k] != '\0' {
      assert behind[k] == text[at + k] && text[at + k] in text;
      assert was[p + (at + k)] == text[at + k];
    }
    StringAtIs(now, rest.value, behind);
  }

  /** A string that ends before the split stays. */
  lemma EarlierStringStays(was: seq<char>, now: seq<char>, p: nat, rest: Option<nat>, q: nat)
    requires p <= |was| && p + |StringAt(was, p)| < |was| && SplitAt(was, now, p, rest)
    requires q <= |was| && q + |StringAt(was, q)| < p
    ensures StringAt(now, q) == StringAt(was, q)
  {
    StringAtHas(was, q);
    StringAtIs(now, q, StringAt(was, q));
  }

  /** The strings in the buffer that the parts of aml_dt become. */
  ghost predicate Tokens(buf: seq<char>, at: seq<nat>, parts: seq<string>) {
    |at| == |parts| && forall x | 0 <= x < |at| :: at[x] <= |buf| && StringAt(buf, at[x]) == parts[x]
  }

  /** They end before `s`. */
  ghost predicate EndBefore(at: seq<nat>, parts: seq<string>, s: nat) {
    |at| == |parts| && forall x | 0 <= x < |at| :: at[x] + |parts[x]| < s
  }

  lemma OneMore(was: seq<char>, now: seq<char>, p: nat, rest: Option<nat>, at: seq<nat>, parts: seq<string>)
    requires p <= |was| && p + |StringAt(was, p)| < |was| && SplitAt(was, now, p, rest)
    requires Tokens(was, at, parts) && EndBefore(at, parts, p)
    ensures Tokens(now, at + [p], parts + [Before(StringAt(was, p))])
    ensures rest.Some? ==> EndBefore(at + [p], parts + [Before(StringAt(was, p))], rest.value)
  {
    SplitFirst(was, now, p, rest);
    if rest.Some? { SplitRest(was, now, p, rest); }
    forall x | 0 <= x < |at| ensures StringAt(now, at[x]) == parts[x] {
      EarlierStringStays(was, now, p, rest, at[x]);
    }
  }

  /** Each rest begins with its part, and the next rest stands behind it. */
  ghost predicate Chain(rests: seq<string>, parts: seq<string>) {
    && |rests| == |parts|
    && (forall i | 0 <= i < |rests| :: parts[i] == Before(rests[i]))
    && (forall i | 0 < i < |rests| :: Behind(rests[i - 1]) == Some(rests[i]))
  }

  /** The first `i` parts are split off, and the `i`th rest stands at `s`. */
  ghost predicate Splitting(rests: seq<string>, parts: seq<string>, buf: seq<char>, at: seq<nat>, s: nat, i: nat) {
    && i < |rests| == |parts|
    && Tokens(buf, at, parts[..i]) && EndBefore(at, parts[..i], s)
    && s + |rests[i]| < |buf| && StringAt(buf, s) == rests[i]
  }

  lemma SplitStep(rests: seq<string>, parts: seq<string>, was: seq<char>, now: seq<char>, at: seq<nat>, s: nat, i: nat, rest: Option<nat>)
    requires Chain(rests, parts) && Splitting(rests, parts, was, at, s, i) && SplitAt(was, now, s, rest)
    ensures if i + 1 == |rests| then Tokens(now, at + [s], parts)
            else rest.Some? && Splitting(rests, parts, now, at + [s], rest.value, i + 1)
  {
    OneMore(was, now, s, rest, at, parts[..i]);
    assert parts[..i + 1] == parts[..i] + [parts[i]];
    if i + 1 < |rests| {
      assert Behind(rests[i + 1 - 1]) == Some(rests[i + 1]);
      SplitRest(was, now, s, rest);
    } else {
      assert parts[..i + 1] == parts;
    }
  }

  lemma PartsChain(text: string)
    requires ThreeParts(text)
    ensures Chain(Rests(text), Parts(text)) && |Rests(text)| == AML_DT_ID_VARI_TOTAL && Rests(text)[0] == text
  {
  }

  /** The calls of strsep. */
  method SplitParts(buf: array<char>, ghost rests: seq<string>, ghost parts: seq<string>) returns (tokens: array<nat>)
    requires Chain(rests, parts) && |rests| == AML_DT_ID_VARI_TOTAL
    requires StringAt(buf[..], 0) == rests[0] && |rests[0]| < buf.Length
    modifies buf
    ensures fresh(tokens) && tokens.Length == AML_DT_ID_VARI_TOTAL && Tokens(buf[..], tokens[..], parts)
  {
    tokens := new nat[AML_DT_ID_VARI_TOTAL];
    var s: Option<nat> := Some(0);
    ghost var at: seq<nat> := [];
    var i := 0;
    while i < tokens.Length
      invariant i <= tokens.Length && tokens[..i] == at
      invariant if i < |rests| then s.Some? && Splitting(rests, parts, buf[..], at, s.value, i)
                else Tokens(buf[..], at, parts)
    {
      ghost var was := buf[..];
      tokens[i] := s.value;
      var rest := StrSep(buf, s.value);
      SplitStep(rests, parts, was, buf[..], at, s.value, i, rest);
      at, s, i := at + [s.value], rest, i + 1;
    }
    assert tokens[..] == at;
  }

  // ----- implementation: walking the table -----

  ghost function Row(info: array2<char>, x: nat): (r: string)
    requires x < info.Length0
    reads info
    ensures |r| == info.Length1 && forall k | 0 <= k < info.Length1 :: r[k] == info[x, k]
  {
    seq(info.Length1, k requires 0 <= k < info.Length1 reads info => info[x, k])
  }

  lemma IdCharIs(mem: Memory, base: Word, len: nat, i: nat, x: nat, y: nat, j: nat)
    requires y % 4 == 0 && j < 4
    ensures IdChar(mem, base, len, i, x, y + j) == ByteOf(mem(EntryAddress(base, len, i, x * len + y)), j)
  {
    assert (y + j) / 4 * 4 == y && (y + j) % 4 == j;
  }

  lemma NextWord(y: nat, len: nat)
    requires y % 4 == 0 && len % 4 == 0 && y < len
    ensures (y + 4) % 4 == 0 && y + 4 <= len
  {
  }

  lemma FourChars(mem: Memory, base: Word, len: nat, i: nat, x: nat, y: nat, w: Word)
    requires y % 4 == 0 && w == mem(EntryAddress(base, len, i, x * len + y))
    ensures IdChar(mem, base, len, i, x, y) == ByteOf(w, 0) && IdChar(mem, base, len, i, x, y + 1) == ByteOf(w, 1)
    ensures IdChar(mem, base, len, i, x, y + 2) == ByteOf(w, 2) && IdChar(mem, base, len, i, x, y + 3) == ByteOf(w, 3)
  {
    IdCharIs(mem, base, len, i, x, y, 0);
    IdCharIs(mem, base, len, i, x, y, 1);
    IdCharIs(mem, base, len, i, x, y, 2);
    IdCharIs(mem, base, len, i, x, y, 3);
  }

  /** Four assignments in a row. */
  method StoreChars(info: array2<char>, x: nat, y: nat, a: char, b: char, c: char, d: char)
    requires x < info.Length0 && y + 4 <= info.Length1
    modifies info
    ensures info[x, y] == a && info[x, y + 1] == b && info[x, y + 2] == c && info[x, y + 3] == d
    ensures forall u, k | 0 <= u < info.Length0 && 0 <= k < info.Length1 && !(u == x && y <= k < y + 4) ::
              info[u, k] == old(info[u, k])
  {
    info[x, y] := a;
    info[x, y + 1] := b;
    info[x, y + 2] := c;
    info[x, y + 3] := d;
  }

  /** One round of the inner loop: a word of an identifier. */
  method UnpackWord(mem: Memory, base: Word, len: nat, i: nat, x: nat, y: nat, info: array2<char>)
    requires x < info.Length0 && y % 4 == 0 && y + 4 <= info.Length1
    modifies info
    ensures forall k | y <= k < y + 4 :: info[x, k] == IdChar(mem, base, len, i, x, k)
    ensures forall u, k | 0 <= u < info.Length0 && 0 <= k < info.Length1 && !(u == x && y <= k < y + 4) ::
              info[u, k] == old(info[u, k])
  {
    var readData := mem(EntryAddress(base, len, i, x * len + y));
    FourChars(mem, base, len, i, x, y, readData);
    StoreChars(info, x, y, ByteOf(readData, 0), ByteOf(readData, 1), ByteOf(readData, 2), ByteOf(readData, 3));
  }

  /** The inner loop: an identifier of the `i`th entry, a word at a time. */
  method UnpackId(mem: Memory, base: Word, len: nat, i: nat, x: nat, info: array2<char>)
    requires x < info.Length0 && info.Length1 == len && len % 4 == 0
    modifies info
    ensures Row(info, x) == Id(mem, base, len, i, x)
    ensures forall u | 0 <= u < info.Length0 && u != x :: Row(info, u) == old(Row(info, u))
  {
    var y := 0;
    while y < len
      invariant y <= len && y % 4 == 0
      invariant forall k | 0 <= k < y :: info[x, k] == IdChar(mem, base, len, i, x, k)
      invariant forall u, k | 0 <= u < info.Length0 && u != x && 0 <= k < len :: info[u, k] == old(info[u, k])
    {
      NextWord(y, len);
      UnpackWord(mem, base, len, i, x, y, info);
      y := y + 4;
    }
    forall u | 0 <= u < info.Length0 && u != x ensures Row(info, u) == old(Row(info, u)) {
      assert forall k | 0 <= k < len :: Row(info, u)[k] == old(Row(info, u))[k];
    }
  }

  /** The identifiers of the `i`th entry. */
  method UnpackEntry(mem: Memory, base: Word, len: nat, i: nat, info: array2<char>)
    requires info.Length0 == AML_DT_ID_VARI_TOTAL && info.Length1 == len && len % 4 == 0
    modifies info
    ensures forall x | 0 <= x < AML_DT_ID_VARI_TOTAL :: Row(info, x) == Id(mem, base, len, i, x)
  {
    var x := 0;
    while x < AML_DT_ID_VARI_TOTAL
      invariant x <= AML_DT_ID_VARI_TOTAL
      invariant forall u | 0 <= u < x :: Row(info, u) == Id(mem, base, len, i, u)
    {
      UnpackId(mem, base, len, i, x, info);
      x := x + 1;
    }
  }

  /** `!strncmp(token, dt_info[x], strlen(token))` */
  method StartsWith(info: array2<char>, x: nat, token: string) returns (equal: bool)
    requires x < info.Length0 && |token| <= info.Length1
    ensures equal == (token <= Row(info, x))
  {
    var k := 0;
    while k < |token|
      invariant k <= |token| && forall j | 0 <= j < k :: token[j] == Row(info, x)[j]
    {
      if token[k] != info[x, k] {
        assert token[k] != Row(info, x)[k];
        return false;
      }
      k := k + 1;
    }
    return true;
  }

  method MatchesParts(info: array2<char>, buf: array<char>, tokens: array<nat>, ghost parts: seq<string>, ghost ids: seq<string>)
    returns (all: bool)
    requires info.Length0 == tokens.Length == |parts| == |ids| == AML_DT_ID_VARI_TOTAL
    requires Tokens(buf[..], tokens[..], parts)
    requires forall x | 0 <= x < AML_DT_ID_VARI_TOTAL :: |parts[x]| <= info.Length1 && Row(info, x) == ids[x]
    ensures all == PartsMatch(parts, ids)
  {
    var x := 0;
    while x < AML_DT_ID_VARI_TOTAL
      invariant x <= AML_DT_ID_VARI_TOTAL && forall u | 0 <= u < x :: parts[u] <= ids[u]
    {
      assert tokens[..][x] == tokens[x];
      var equal := StartsWith(info, x, StringAt(buf[..], tokens[x]));
      if !equal {
        return false;
      }
      x := x + 1;
    }
    return true;
  }

  /** The number of the last entry that matches, or 0xffff. */
  method FindMatch(mem: Memory, base: Word, len: nat, total: nat, buf: array<char>, tokens: array<nat>, ghost parts: seq<string>)
    returns (num: nat)
    requires len % 4 == 0 && tokens.Length == |parts| == AML_DT_ID_VARI_TOTAL && Tokens(buf[..], tokens[..], parts)
    requires forall x | 0 <= x < |parts| :: |parts[x]| <= len
    ensures num == match LastMatch(parts, Table(mem, base, len, total)) case None => 0xffff case Some(k) => k
  {
    var info := new char[AML_DT_ID_VARI_TOTAL, len];
    num := 0xffff;
    var i := 0;
    while i < total
      invariant i <= total && Tokens(buf[..], tokens[..], parts)
      invariant num == match LastMatch(parts, Table(mem, base, len, i)) case None => 0xffff case Some(k) => k
    {
      UnpackEntry(mem, base, len, i, info);
      ghost var ids := [Id(mem, base, len, i, 0), Id(mem, base, len, i, 1), Id(mem, base, len, i, 2)];
      var all := MatchesParts(info, buf, tokens, parts, ids);
      assert Table(mem, base, len, i + 1)[..i] == Table(mem, base, len, i);
      if all {
        num := i;
      }
      i := i + 1;
    }
  }

  method SelectEntry(mem: Memory, base: Word, len: nat, total: nat, buf: array<char>, tokens: array<nat>, ghost parts: seq<string>)
    returns (addr: Word)
    requires len % 4 == 0 && tokens.Length == |parts| == AML_DT_ID_VARI_TOTAL && Tokens(buf[..], tokens[..], parts)
    requires forall x | 0 <= x < |parts| :: |parts[x]| <= len
    ensures addr == Returned(mem, base, len, LastMatch(parts, Table(mem, base, len, total)))
  {
    var num := FindMatch(mem, base, len, total, buf, tokens, parts);
    if num != 0xffff {
      return Wrap(base + mem(EntryAddress(base, len, num, len * AML_DT_ID_VARI_TOTAL)));
    }
    return base;
  }

  /** What get_multi_dt_entry relies on: a known table, and a value of aml_dt in three parts that are
      no longer than the identifiers and fit the buffer. */
  ghost predicate Supported(mem: Memory, base: Word, amlDt: string) {
    mem(base) == DT_HEADER_MAGIC || (
      && mem(base) == AML_DT_HEADER_MAGIC
      && (mem(Wrap(base + 4)) == 1 || mem(Wrap(base + 4)) == 2)
      && '\0' !in amlDt && |amlDt| < 64
      && (amlDt != "" ==>
            && ThreeParts(amlDt)
            && forall x | 0 <= x < AML_DT_ID_VARI_TOTAL ::
                 |Parts(amlDt)[x]| <= IdLength(mem(Wrap(base + 4)))))
  }

  /** The address that get_multi_dt_entry returns. */
  function DtEntry(mem: Memory, base: Word, amlDt: string): Word
    requires amlDt == "" || ThreeParts(amlDt)
  {
    var len := IdLength(mem(Wrap(base + 4)));
    if mem(base) == DT_HEADER_MAGIC || amlDt == "" then base
    else Returned(mem, base, len, LastMatch(Parts(amlDt), Table(mem, base, len, mem(Wrap(base + 8)))))
  }

  method GetMultiDtEntry(mem: Memory, fdtAddr: Word, amlDt: string) returns (addr: Word)
    requires Supported(mem, fdtAddr, amlDt)
    ensures mem(fdtAddr) == DT_HEADER_MAGIC || amlDt == "" ==> addr == fdtAddr
    ensures mem(fdtAddr) == AML_DT_HEADER_MAGIC ==> addr == DtEntry(mem, fdtAddr, amlDt)
  {
    if mem(fdtAddr) == DT_HEADER_MAGIC {
      return fdtAddr;
    }
    var len := if mem(Wrap(fdtAddr + 4)) == 1 then 4 else 16;
    var total := mem(Wrap(fdtAddr + 8));
    var buf := new char[64];
    forall i | 0 <= i < |amlDt| {
      buf[i] := amlDt[i];
    }
    buf[|amlDt|] := '\0';
    StringAtIs(buf[..], 0, amlDt);
    if amlDt == "" {
      return fdtAddr;
    }
    PartsChain(amlDt);
    var tokens := SplitParts(buf, Rests(amlDt), Parts(amlDt));
    addr := SelectEntry(mem, fdtAddr, len, total, buf, tokens, Parts(amlDt));
  }

  lemma DtEntryIs(mem: Memory, base: Word, amlDt: string, len: nat, total: nat, parts: seq<string>)
    requires mem(base) != DT_HEADER_MAGIC && amlDt != "" && ThreeParts(amlDt)
    requires len == IdLength(mem(Wrap(base + 4))) && total == mem(Wrap(base + 8))
    requires parts == Parts(amlDt)
    ensures DtEntry(mem, base, amlDt) == Returned(mem, base, len, LastMatch(parts, Table(mem, base, len, total)))
  {
  }

  /** What a sentinel makes of the address of a blob. */
  lemma SentinelIff(mem: Memory, base: Word, len: nat, blobs: seq<Blob>, found: Option<nat>)
    requires (found.Some? ==> found.value < |blobs|) && Chosen(mem, base, len, found) == Wanted(base, blobs, found)
    ensures Returned(mem, base, len, found) == (if found == Some(0xffff) then base else Wanted(base, blobs, found))
    ensures Returned(mem, base, len, found) == Wanted(base, blobs, found) <==>
              found != Some(0xffff) || blobs[0xffff].offset == 0
  {
  }

  /** A table written for a list of blobs, in version 1 or 2: the address is that of the last blob
      whose three identifiers start with the parts, or that of the table when there is none, exactly
      unless that blob has the number that stands for "none" and an address of its own. */
  lemma MultiDtbLookup(mem: Memory, base: Word, blobs: seq<Blob>, amlDt: string, parts: seq<string>, found: Option<nat>)
    requires Supported(mem, base, amlDt) && amlDt != "" && mem(base) == AML_DT_HEADER_MAGIC
    requires parts == Parts(amlDt) && found == LastMatch(parts, Ids(blobs))
    requires mem(Wrap(base + 8)) == |blobs| && Holds(mem, base, IdLength(mem(Wrap(base + 4))), blobs)
    ensures found.Some? ==> found.value < |blobs|
    ensures DtEntry(mem, base, amlDt) == (if found == Some(0xffff) then base else Wanted(base, blobs, found))
    ensures DtEntry(mem, base, amlDt) == Wanted(base, blobs, found) <==>
              found != Some(0xffff) || blobs[0xffff].offset == 0
  {
    EntryOnList(mem, base, IdLength(mem(Wrap(base + 4))), blobs, amlDt, parts, found, DtEntry(mem, base, amlDt));
  }

  lemma EntryOnList(mem: Memory, base: Word, len: nat, blobs: seq<Blob>, amlDt: string, parts: seq<string>, found: Option<nat>, entry: Word)
    requires mem(base) != DT_HEADER_MAGIC && amlDt != "" && ThreeParts(amlDt) && parts == Parts(amlDt)
    requires len == IdLength(mem(Wrap(base + 4))) && mem(Wrap(base + 8)) == |blobs| && Holds(mem, base, len, blobs)
    requires found == LastMatch(parts, Ids(blobs)) && entry == DtEntry(mem, base, amlDt)
    ensures found.Some? ==> found.value < |blobs|
    ensures entry == (if found == Some(0xffff) then base else Wanted(base, blobs, found))
    ensures entry == Wanted(base, blobs, found) <==> found != Some(0xffff) || blobs[0xffff].offset == 0
  {
    DtEntryIs(mem, base, amlDt, len, |blobs|, parts);
    ReturnedOnList(mem, base, len, blobs, parts, found, entry);
  }

  lemma ReturnedOnList(mem: Memory, base: Word, len: nat, blobs: seq<Blob>, parts: seq<string>, found: Option<nat>, entry: Word)
    requires Holds(mem, base, len, blobs) && len % 4 == 0 && found == LastMatch(parts, Ids(blobs))
    requires entry == Returned(mem, base, len, LastMatch(parts, Table(mem, base, len, |blobs|)))
    ensures found.Some? ==> found.value < |blobs|
    ensures entry == (if found == Some(0xffff) then base else Wanted(base, blobs, found))
    ensures entry == Wanted(base, blobs, found) <==> found != Some(0xffff) || blobs[0xffff].offset == 0
  {
    LookupOnList(mem, base, len, blobs, parts, found);
    SentinelIff(mem, base, len, blobs, found);
  }

  /** So with up to 0xffff blobs it always is. */
  lemma ShortTable(mem: Memory, base: Word, blobs: seq<Blob>, amlDt: string, parts: seq<string>)
    requires Supported(mem, base, amlDt) && amlDt != "" && mem(base) == AML_DT_HEADER_MAGIC
    requires parts == Parts(amlDt)
    requires mem(Wrap(base + 8)) == |blobs| <= 0xffff && Holds(mem, base, IdLength(mem(Wrap(base + 4))), blobs)
    ensures
      var found := LastMatch(parts, Ids(blobs));
      (found.Some? ==> found.value < |blobs|) && DtEntry(mem, base, amlDt) == Wanted(base, blobs, found)
  {
    LastMatchIsLast(parts, Ids(blobs));
    MultiDtbLookup(mem, base, blobs, amlDt, parts, LastMatch(parts, Ids(blobs)));
  }

  /** And with that number the blob is missed. */
  lemma LastBlobMissed(mem: Memory, base: Word, blobs: seq<Blob>, amlDt: string, parts: seq<string>)
    requires Supported(mem, base, amlDt) && amlDt != "" && mem(base) == AML_DT_HEADER_MAGIC
    requires parts == Parts(amlDt) && LastMatch(parts, Ids(blobs)) == Some(0xffff)
    requires mem(Wrap(base + 8)) == |blobs| && Holds(mem, base, IdLength(mem(Wrap(base + 4))), blobs)
    ensures DtEntry(mem, base, amlDt) == base
    ensures 0xffff < |blobs| && Wanted(base, blobs, Some(0xffff)) == Wrap(base + blobs[0xffff].offset)
  {
    MultiDtbLookup(mem, base, blobs, amlDt, parts, Some(0xffff));
  }

  // ----- a table whose last blob is missed -----

  const LONG_BASE: Word := 0x1000_0000
  const LONG_TOTAL: nat := 0x1_0000

  /** The identifiers and the offset of every blob. */
  const LONG_BLOB: Blob := Blob(["soc1", "plat", "vari"], 0x100)

  function LongEntryWord(at: nat): Word {
    if at == 0 then Pack(LONG_BLOB.ids[0])
    else if at == 4 then Pack(LONG_BLOB.ids[1])
    else if at == 8 then Pack(LONG_BLOB.ids[2])
    else if at == 12 then LONG_BLOB.offset
    else 0
  }

  /** A version 1 table of 0x10000 such blobs. */
  function LongTable(addr: Word): Word {
    if addr == LONG_BASE then AML_DT_HEADER_MAGIC
    else if addr == LONG_BASE + 4 then 1
    else if addr == LONG_BASE + 8 then LONG_TOTAL
    else if LONG_BASE + 12 <= addr then LongEntryWord((addr - LONG_BASE - 12) % 20)
    else 0
  }

  function LongBlobs(): (r: seq<Blob>)
    ensures |r| == LONG_TOTAL && forall i | 0 <= i < |r| :: r[i] == LONG_BLOB
  {
    seq(LONG_TOTAL, _ => LONG_BLOB)
  }

  lemma LongWord(i: nat, at: nat)
    requires i < LONG_TOTAL && at < 20
    ensures LongTable(EntryAddress(LONG_BASE, 4, i, at)) == LongEntryWord(at)
  {
    var addr := LONG_BASE + 12 + i * 20 + at;
    assert Wrap(addr) == addr;
    assert (i * 20 + at) % 20 == at;
  }

  lemma LongTableHolds()
    ensures Holds(LongTable, LONG_BASE, 4, LongBlobs())
  {
    var blobs := LongBlobs();
    forall i: nat, x: nat, j: nat | i < |blobs| && x < AML_DT_ID_VARI_TOTAL && 4 * j + 4 <= 4
      ensures HoldsWord(LongTable, LONG_BASE, 4, i, blobs[i].ids, x, j)
    {
      LongWord(i, x * 4);
      assert j == 0 && blobs[i].ids[x][0..4] == LONG_BLOB.ids[x];
    }
    forall i | 0 <= i < |blobs| ensures OffsetField(LongTable, LONG_BASE, 4, i) == blobs[i].offset {
      LongWord(i, 12);
    }
  }

  lemma LongParts()
    ensures ThreeParts("s_p_v") && Parts("s_p_v") == ["s", "p", "v"]
  {
    assert Before("s_p_v") == "s" && Behind("s_p_v") == Some("p_v");
    assert Before("p_v") == "p" && Behind("p_v") == Some("v");
    assert Before("v") == "v";
  }

  lemma LongMatch(parts: seq<string>, ids: seq<seq<string>>)
    requires parts == ["s", "p", "v"] && |ids| == LONG_TOTAL && ids[0xffff] == LONG_BLOB.ids
    ensures LastMatch(parts, ids) == Some(0xffff)
  {
    assert forall x | 0 <= x < 3 :: parts[x] <= LONG_BLOB.ids[x];
  }

  lemma LongSupported(amlDt: string)
    requires amlDt == "s_p_v"
    ensures Supported(LongTable, LONG_BASE, amlDt)
  {
    LongParts();
  }

  /** Its last blob matches `s_p_v`, and the address of the table is returned instead. */
  lemma LongTableMissed(amlDt: string, blobs: seq<Blob>, parts: seq<string>)
    requires amlDt == "s_p_v" && parts == ["s", "p", "v"] && blobs == LongBlobs()
    ensures Supported(LongTable, LONG_BASE, amlDt) && Parts(amlDt) == parts && Holds(LongTable, LONG_BASE, 4, blobs)
    ensures LastMatch(parts, Ids(blobs)) == Some(0xffff) && blobs[0xffff].offset == 0x100
    ensures DtEntry(LongTable, LONG_BASE, amlDt) == LONG_BASE
  {
    LongSupported(amlDt);
    LongParts();
    LongTableHolds();
    LongMatch(parts, Ids(blobs));
    LastBlobMissed(LongTable, LONG_BASE, blobs, amlDt, parts);
  }
}
