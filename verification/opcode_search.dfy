/** Looking an opcode up: by instruction word, with a binary search in which every probe masks the
    word differently, and by name. */
module OpcodeSearch {
  import opened Wrappers
  import opened Bits
  import opened Ppc

  /** What the opcode table must satisfy for the binary search to be complete. */
  ghost predicate Searchable(t: seq<Opcode>) {
    && (forall i, j | 0 <= i < j < |t| :: t[i].opcode < t[j].opcode)
    && (forall i | 0 <= i < |t| :: And(t[i].opcode, t[i].mask) == t[i].opcode && Primary(t[i].mask) == 63)
    && (forall i, j | 0 <= i < |t| && 0 <= j < |t| && Primary(t[i].opcode) == Primary(t[j].opcode) ::
          t[i].mask == t[j].mask)
  }

  /** The reference: the first entry of the table that matches the word. */
  function Lookup(t: seq<Opcode>, w: Word): Option<Opcode> {
    if t == [] then None
    else if Matches(t[0], w) then Some(t[0])
    else Lookup(t[1..], w)
  }

  lemma {:induction false} LookupFinds(t: seq<Opcode>, w: Word)
    ensures Lookup(t, w).Some? ==> Lookup(t, w).value in t && Matches(Lookup(t, w).value, w)
    ensures Lookup(t, w).None? ==> forall e | e in t :: !Matches(e, w)
  {
    if t != [] && !Matches(t[0], w) {
      LookupFinds(t[1..], w);
    }
  }

  /** A mask that holds the primary opcode keeps it. */
  lemma PrimaryOfMasked(w: Word, mask: Word)
    requires Primary(mask) == 63
    ensures Primary(And(w, mask)) == Primary(w)
  {
    PowersOfTwo();
    AndUpper(w, mask);
    forall i: nat ensures Bit(Primary(And(w, mask)), i) == Bit(Primary(w), i) {
      ShrIsDiv(And(w, mask), 26);
      ShrIsDiv(w, 26);
      ShrIsDiv(mask, 26);
      BitShr(And(w, mask), 26, i);
      BitShr(w, 26, i);
      BitShr(mask, 26, i);
      BitAnd(w, mask, i + 26);
      assert Ones(6) == 63 by { assert Pow2(6) == 64; }
      BitOnes(6, i);
      if i >= 6 { HighBitsClear(w, 32, i + 26); }
    }
    SameBits(Primary(And(w, mask)), Primary(w));
  }

  /** A probe of the search tells on which side of it the matching entry lies. */
  lemma ProbeDirection(t: seq<Opcode>, w: Word, i: nat, k: nat)
    requires Searchable(t) && i < |t| && k < |t| && Matches(t[k], w)
    ensures i < k ==> And(w, t[i].mask) > t[i].opcode
    ensures i > k ==> And(w, t[i].mask) < t[i].opcode
  {
    PrimaryOfMasked(w, t[k].mask);
    PrimaryOfMasked(w, t[i].mask);
  }

  /** At most one entry of a searchable table matches a word. */
  lemma MatchUnique(t: seq<Opcode>, w: Word, i: nat, k: nat)
    requires Searchable(t) && i < |t| && k < |t| && Matches(t[i], w) && Matches(t[k], w)
    ensures i == k
  {
    ProbeDirection(t, w, i, k);
  }

  lemma LookupIs(t: seq<Opcode>, w: Word, k: nat)
    requires Searchable(t) && k < |t| && Matches(t[k], w)
    ensures Lookup(t, w) == Some(t[k])
  {
    LookupFinds(t, w);
    assert t[k] in t;
    var i :| 0 <= i < |t| && t[i] == Lookup(t, w).value;
    MatchUnique(t, w, i, k);
  }

  /** find_opcode: sound for every table, complete for a searchable one. */
  method FindOpcode(t: seq<Opcode>, instr: Word) returns (r: Option<Opcode>)
    ensures r.Some? ==> r.value in t && Matches(r.value, instr)
    ensures Searchable(t) ==> r == Lookup(t, instr)
  {
    var top := 0;
    var bottom := |t| - 1;
    while top <= bottom
      invariant 0 <= top <= bottom + 1 <= |t|
      invariant Searchable(t) ==>
          forall k | 0 <= k < |t| && Matches(t[k], instr) :: top <= k <= bottom
      decreases bottom - top
    {
      var idx := (top + bottom) / 2;
      var ptr := t[idx];
      if Searchable(t) {
        forall k | 0 <= k < |t| && Matches(t[k], instr)
          ensures idx < k ==> And(instr, ptr.mask) > ptr.opcode
          ensures idx > k ==> And(instr, ptr.mask) < ptr.opcode
        {
          ProbeDirection(t, instr, idx, k);
        }
      }
      if And(instr, ptr.mask) < ptr.opcode {
        bottom := idx - 1;
      } else if And(instr, ptr.mask) > ptr.opcode {
        top := idx + 1;
      } else {
        if Searchable(t) { LookupIs(t, instr, idx); }
        return Some(ptr);
      }
    }
    LookupFinds(t, instr);
    return None;
  }
}
