/** The answer of get_multi_dt_entry in terms of the bytes of the table and the text of aml_dt. */
module MultiDtbAnswer {
  import opened Bits
  import opened Wrappers
  import opened Text
  import opened MultiDtb

  /** An identifier of `len` bytes stands at `start`, four characters to a word. */
  ghost predicate IdAt(mem: Memory, start: int, id: string, len: nat) {
    && |id| == len && (forall k | 0 <= k < len :: id[k] as int < 256)
    && forall j: nat | 4 * j + 4 <= len ::
         mem(Wrap(start + 4 * j)) ==
           0x100_0000 * id[4 * j] as int + 0x1_0000 * id[4 * j + 1] as int + 0x100 * id[4 * j + 2] as int + id[4 * j + 3] as int
  }

  /** Three identifiers and the offset of the blob. */
  ghost predicate BlobAt(mem: Memory, start: int, b: Blob, len: nat) {
    && |b.ids| == 3
    && IdAt(mem, start, b.ids[0], len) && IdAt(mem, start + len, b.ids[1], len) && IdAt(mem, start + 2 * len, b.ids[2], len)
    && mem(Wrap(start + 3 * len)) == b.offset
  }

  /** The magic number, the version, the number of blobs, and for each blob its identifiers, its offset
      and one word more. Version 1 has identifiers of 4 bytes, version 2 of 16. */
  ghost predicate TableAt(mem: Memory, base: Word, version: nat, len: nat, blobs: seq<Blob>) {
    && mem(base) == AML_DT_HEADER_MAGIC
    && mem(Wrap(base + 4)) == version && ((version == 1 && len == 4) || (version == 2 && len == 16))
    && mem(Wrap(base + 8)) == |blobs|
    && forall i | 0 <= i < |blobs| :: BlobAt(mem, base + 12 + i * (3 * len + 8), blobs[i], len)
  }

  lemma EntryStart(base: Word, len: nat, i: nat, at: nat)
    ensures EntryAddress(base, len, i, at) == Wrap(base + 12 + i * (3 * len + 8) + at)
  {
    assert HeaderSize(len) == 3 * len + 8;
  }

  lemma IdOf(mem: Memory, start: int, b: Blob, len: nat, x: nat)
    requires BlobAt(mem, start, b, len) && x < 3
    ensures IdAt(mem, start + x * len, b.ids[x], len)
  {
    if x == 0 {
      assert start + x * len == start;
    } else if x == 1 {
      assert start + x * len == start + len;
    }
  }

  lemma WordOf(mem: Memory, start: int, id: string, len: nat, j: nat, s: string)
    requires IdAt(mem, start, id, len) && 4 * j + 4 <= len && s == id[4 * j..4 * j + 4]
    ensures (forall k | 0 <= k < 4 :: s[k] as int < 256) && mem(Wrap(start + 4 * j)) == Pack(s)
  {
    assert s[0] == id[4 * j] && s[1] == id[4 * j + 1] && s[2] == id[4 * j + 2] && s[3] == id[4 * j + 3];
  }

  lemma IdHolds(mem: Memory, base: Word, len: nat, b: Blob, i: nat, x: nat, j: nat, start: int)
    requires BlobAt(mem, start, b, len) && start == base + 12 + i * (3 * len + 8) && x < 3 && 4 * j + 4 <= len
    ensures |b.ids[x]| == len && (forall k | 0 <= k < len :: b.ids[x][k] as int < 256)
    ensures HoldsWord(mem, base, len, i, b.ids, x, j)
  {
    IdOf(mem, start, b, len, x);
    EntryStart(base, len, i, x * len + j * 4);
    WordOf(mem, start + x * len, b.ids[x], len, j, b.ids[x][4 * j..4 * j + 4]);
  }

  lemma TableHolds(mem: Memory, base: Word, version: nat, len: nat, blobs: seq<Blob>)
    requires TableAt(mem, base, version, len, blobs)
    ensures len == IdLength(mem(Wrap(base + 4))) && Holds(mem, base, len, blobs)
  {
    forall i: nat, x: nat, j: nat | i < |blobs| && x < AML_DT_ID_VARI_TOTAL && 4 * j + 4 <= len
      ensures |blobs[i].ids| == 3 && HoldsWord(mem, base, len, i, blobs[i].ids, x, j)
    {
      IdHolds(mem, base, len, blobs[i], i, x, j, base + 12 + i * (3 * len + 8));
    }
    forall i | 0 <= i < |blobs| ensures BlobOk(blobs[i], len) && OffsetField(mem, base, len, i) == blobs[i].offset {
      EntryStart(base, len, i, len * AML_DT_ID_VARI_TOTAL);
    }
  }

  // ----- the text -----

  /** The text before the first underscore, between the first two, and behind the second up to the next. */
  predicate Splits(amlDt: string, p: seq<string>, more: string) {
    && |p| == 3 && '_' !in p[0] && '_' !in p[1] && '_' !in p[2]
    && (more == "" || more[0] == '_')
    && amlDt == p[0] + "_" + (p[1] + "_" + (p[2] + more))
  }

  lemma OneSplit(first: string, rest: string)
    requires '_' !in first
    ensures Before(first + "_" + rest) == first && Behind(first + "_" + rest) == Some(rest)
  {
    var s := first + "_" + rest;
    assert s[..|first|] == first && s[|first| + 1..] == rest;
    BeforeIs(s, |first|);
  }

  lemma LastSplit(last: string, more: string)
    requires '_' !in last && (more == "" || more[0] == '_')
    ensures Before(last + more) == last
  {
    assert (last + more)[..|last|] == last;
    BeforeIs(last + more, |last|);
  }

  lemma SplitsParts(amlDt: string, p: seq<string>, more: string)
    requires Splits(amlDt, p, more)
    ensures amlDt != "" && ThreeParts(amlDt) && Parts(amlDt) == p
  {
    OneSplit(p[0], p[1] + "_" + (p[2] + more));
    OneSplit(p[1], p[2] + more);
    LastSplit(p[2], more);
  }

  // ----- the answer -----

  /** The three identifiers start with the three parts. */
  predicate Fits(b: Blob, p: seq<string>)
    requires |b.ids| == 3 && |p| == 3
  {
    p[0] <= b.ids[0] && p[1] <= b.ids[1] && p[2] <= b.ids[2]
  }

  lemma FitsIsMatch(b: Blob, p: seq<string>)
    requires |b.ids| == 3 && |p| == 3
    ensures PartsMatch(p, b.ids) <==> Fits(b, p)
  {
    if Fits(b, p) {
      forall x | 0 <= x < 3 ensures p[x] <= b.ids[x] {
        assert x == 0 || x == 1 || x == 2;
      }
    }
  }

  lemma {:induction false} LastIs(p: seq<string>, entries: seq<seq<string>>, k: nat)
    requires k < |entries| && PartsMatch(p, entries[k]) && forall i | k < i < |entries| :: !PartsMatch(p, entries[i])
    ensures LastMatch(p, entries) == Some(k)
    decreases |entries|
  {
    if k < |entries| - 1 {
      LastIs(p, entries[..|entries| - 1], k);
    }
  }

  /** The last blob that fits, if any. */
  lemma ListAnswer(p: seq<string>, blobs: seq<Blob>, ids: seq<seq<string>>, k: nat)
    requires |p| == 3 && ids == Ids(blobs) && forall i | 0 <= i < |blobs| :: |blobs[i].ids| == 3
    ensures (forall i | 0 <= i < |blobs| :: !Fits(blobs[i], p)) ==> LastMatch(p, ids) == None
    ensures k < |blobs| && Fits(blobs[k], p) && (forall i | k < i < |blobs| :: !Fits(blobs[i], p)) ==>
              LastMatch(p, ids) == Some(k)
  {
    forall i | 0 <= i < |blobs| ensures PartsMatch(p, ids[i]) <==> Fits(blobs[i], p) {
      FitsIsMatch(blobs[i], p);
    }
    LastMatchIsLast(p, ids);
    if k < |blobs| && Fits(blobs[k], p) && forall i | k < i < |blobs| :: !Fits(blobs[i], p) {
      LastIs(p, ids, k);
    }
  }

  lemma TextSupported(mem: Memory, base: Word, version: nat, len: nat, blobs: seq<Blob>, amlDt: string, p: seq<string>, more: string)
    requires TableAt(mem, base, version, len, blobs) && Splits(amlDt, p, more)
    requires '\0' !in amlDt && |amlDt| < 64 && forall x | 0 <= x < 3 :: |p[x]| <= len
    ensures Supported(mem, base, amlDt) && amlDt != "" && Parts(amlDt) == p
  {
    SplitsParts(amlDt, p, more);
  }

  lemma EntryAnswer(base: Word, blobs: seq<Blob>, p: seq<string>, ids: seq<seq<string>>, found: Option<nat>, entry: Word, k: nat)
    requires |p| == 3 && ids == Ids(blobs) && forall i | 0 <= i < |blobs| :: |blobs[i].ids| == 3
    requires found == LastMatch(p, ids) && (found.Some? ==> found.value < |blobs|)
    requires entry == if found == Some(0xffff) then base else Wanted(base, blobs, found)
    ensures (forall i | 0 <= i < |blobs| :: !Fits(blobs[i], p)) ==> entry == base
    ensures k < |blobs| && Fits(blobs[k], p) && (forall i | k < i < |blobs| :: !Fits(blobs[i], p)) ==>
              entry == if k == 0xffff then base else Wrap(base + blobs[k].offset)
  {
    ListAnswer(p, blobs, ids, k);
  }

  /** For a table and a text that are as described: no blob fits and the address of the table is
      returned, or `k` is the last that fits and its address is returned, unless `k` is 0xffff. */
  lemma Answer(mem: Memory, base: Word, version: nat, len: nat, blobs: seq<Blob>, amlDt: string, p: seq<string>, more: string, k: nat)
    requires TableAt(mem, base, version, len, blobs) && Splits(amlDt, p, more)
    requires '\0' !in amlDt && |amlDt| < 64 && forall x | 0 <= x < 3 :: |p[x]| <= len
    ensures Supported(mem, base, amlDt)
    ensures (forall i | 0 <= i < |blobs| :: !Fits(blobs[i], p)) ==> DtEntry(mem, base, amlDt) == base
    ensures k < |blobs| && Fits(blobs[k], p) && (forall i | k < i < |blobs| :: !Fits(blobs[i], p)) ==>
              DtEntry(mem, base, amlDt) == if k == 0xffff then base else Wrap(base + blobs[k].offset)
  {
    TextSupported(mem, base, version, len, blobs, amlDt, p, more);
    TableHolds(mem, base, version, len, blobs);
    var found, entry := LastMatch(p, Ids(blobs)), DtEntry(mem, base, amlDt);
    EntryOnList(mem, base, len, blobs, amlDt, p, found, entry);
    EntryAnswer(base, blobs, p, Ids(blobs), found, entry, k);
  }
}
