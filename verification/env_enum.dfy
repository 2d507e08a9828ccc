/** Enumerating the environment: entries `name=value`, each ended by a NUL, and one NUL more. */
module EnvEnum {
  import opened Wrappers

  /** What the call stores in `*next`: NULL, the address of an entry, or the argument itself. */
  datatype Next = NoMore | Entry(offset: nat) | SameAsLast

  // ----- specification -----

  /** The characters that env_get_char reads; `size` is CONFIG_ENV_SIZE, and the scan looks at two
      characters more at most. */
  predicate Readable(env: seq<char>, size: nat) { size + 1 < |env| }

  /** The text up to the first `=`. */
  function NameOf(s: string): string {
    if s == "" || s[0] == '=' then "" else [s[0]] + NameOf(s[1..])
  }

  lemma {:induction false} NamePrefix(s: string)
    ensures '=' !in NameOf(s) && NameOf(s) <= s
    ensures |NameOf(s)| < |s| ==> s[|NameOf(s)|] == '='
  {
    if s != "" && s[0] != '=' {
      NamePrefix(s[1..]);
    }
  }

  /** The characters from `i` to `n`. */
  function Text(env: seq<char>, i: nat, n: nat): (r: string)
    requires n <= |env|
    decreases n - i
  {
    if i >= n then "" else [env[i]] + Text(env, i + 1, n)
  }

  lemma {:induction false} TextIsSlice(env: seq<char>, i: nat, n: nat)
    requires i <= n <= |env|
    ensures Text(env, i, n) == env[i..n]
    decreases n - i
  {
    if i < n {
      TextIsSlice(env, i + 1, n);
      assert env[i..n] == [env[i]] + env[i + 1..n];
    }
  }

  predicate NoNul(env: seq<char>, i: nat, n: nat)
    requires n <= |env|
  {
    forall k | i <= k < n :: env[k] != '\0'
  }

  /** The place of the first NUL from `n` on, or where the scan gives up looking for it. */
  function EndOf(env: seq<char>, size: nat, n: nat): (r: nat)
    requires Readable(env, size) && n <= size + 1
    ensures n <= r <= size + 1 && (env[r] == '\0' || size <= r)
    ensures forall k | n <= k < r :: env[k] != '\0'
    ensures n < r ==> r <= size
    decreases size + 1 - n
  {
    if env[n] == '\0' || n >= size then n else EndOf(env, size, n + 1)
  }

  /** The entry has the name that `last` gives, as a name or as a whole entry. */
  predicate Answers(last: string, text: string) {
    '=' in text && NameOf(last) == NameOf(text)
  }

  /** The scan of API_env_enum from the entry at `i` on. */
  function Scan(env: seq<char>, size: nat, last: string, i: nat): Next
    requires Readable(env, size) && i <= size + 1
    decreases size + 1 - i
  {
    var n := EndOf(env, size, i);
    if env[i] == '\0' || env[n] != '\0' then SameAsLast
    else if !Answers(last, Text(env, i, n)) then Scan(env, size, last, n + 1)
    else if env[n + 1] == '\0' then NoMore
    else Entry(n + 1)
  }

  function EnvNext(env: seq<char>, size: nat, last: Option<string>): Next
    requires Readable(env, size)
  {
    match last
    case None => Entry(0)
    case Some(s) => Scan(env, size, s, 0)
  }

  /** No entry that the scan looks at is `last` itself without an `=`: comparing the two would not
      stop at their ends. */
  ghost predicate ScanDefined(env: seq<char>, size: nat, last: string, i: nat)
    requires Readable(env, size) && i <= size + 1
    decreases size + 1 - i
  {
    var n := EndOf(env, size, i);
    env[i] == '\0' || env[n] != '\0' ||
      (('=' in last || Text(env, i, n) != last) && (Answers(last, Text(env, i, n)) || ScanDefined(env, size, last, n + 1)))
  }

  // ----- implementation -----

  /** The first `k` characters agree and none of them is `=`. */
  ghost predicate Agree(s: string, text: string, k: nat) {
    k <= |s| && k <= |text| && s[..k] == text[..k] && '=' !in s[..k]
  }

  lemma {:induction false} NameIs(s: string, k: nat)
    requires k <= |s| && '=' !in s[..k] && (k == |s| || s[k] == '=')
    ensures NameOf(s) == s[..k]
  {
    if k > 0 {
      assert s[0] in s[..k];
      assert s[1..][..k - 1] == s[..k][1..];
      NameIs(s[1..], k - 1);
    }
  }

  lemma NoAnswer(s: string, text: string, k: nat)
    requires Agree(s, text, k)
    requires if k == |s| then k == |text| || text[k] != '=' else k == |text| || s[k] != text[k]
    requires k < |s| || k < |text| || '=' !in text
    ensures !Answers(s, text)
  {
    NamePrefix(s);
    NamePrefix(text);
  }

  /** envmatch: the place behind the `=` of an entry that answers, or -1. */
  method EnvMatch(env: seq<char>, s1: string, start: nat, ghost end: nat) returns (r: int)
    requires start <= end < |env| && env[end] == '\0' && NoNul(env, start, end)
    requires '\0' !in s1 && ('=' in s1 || Text(env, start, end) != s1)
    ensures r >= 0 <==> Answers(s1, Text(env, start, end))
    ensures r >= 0 ==> r == start + |NameOf(s1)| + 1
  {
    ghost var text := Text(env, start, end);
    TextIsSlice(env, start, end);
    var p, i2 := 0, start;
    while p < |s1| && s1[p] == env[i2]
      invariant p <= |s1| && i2 == start + p <= end && Agree(s1, text, p)
      decreases |s1| - p
    {
      assert s1[p] in s1;
      assert text[p] == env[i2];
      p, i2 := p + 1, i2 + 1;
      if s1[p - 1] == '=' {
        NameIs(s1, p - 1);
        NameIs(text, p - 1);
        return i2;
      }
      assert s1[..p] == s1[..p - 1] + [s1[p - 1]] && text[..p] == text[..p - 1] + [text[p - 1]];
    }
    if p == |s1| && env[i2] == '=' {
      NameIs(s1, p);
      assert text[p] == '=';
      NameIs(text, p);
      return i2 + 1;
    }
    NoAnswer(s1, text, p);
    return -1;
  }

  /** API_env_enum; the entries are compared with `last` as far as ScanDefined says. */
  method ApiEnvEnum(env: seq<char>, size: nat, last: Option<string>) returns (next: Next)
    requires Readable(env, size)
    requires last.Some? ==> '\0' !in last.value && ScanDefined(env, size, last.value, 0)
    ensures next == EnvNext(env, size, last)
  {
    if last.None? {
      return Entry(0);
    }
    ghost var goal := EnvNext(env, size, last);
    next := SameAsLast;
    var i, n := 0, 0;
    while env[i] != '\0'
      invariant i <= size + 1 && ScanDefined(env, size, last.value, i)
      invariant Scan(env, size, last.value, i) == goal
      decreases size + 1 - i
    {
      n := i;
      while env[n] != '\0'
        invariant i <= n <= size + 1 && EndOf(env, size, n) == EndOf(env, size, i)
        decreases size + 1 - n
      {
        if n >= size {
          return SameAsLast;
        }
        n := n + 1;
      }
      var m := EnvMatch(env, last.value, i, n);
      if m < 0 {
        i := n + 1;
        continue;
      }
      i := n + 1;
      if env[i] == '\0' {
        return NoMore;
      }
      return Entry(i);
    }
  }

  // ----- a well-formed environment is a list -----

  predicate EntryOk(text: string) { '\0' !in text && '=' in text }

  /** The bytes of the first `k` entries, with a NUL behind each. */
  function Bytes(entries: seq<string>, k: nat): seq<char>
    requires k <= |entries|
  {
    if k == 0 then [] else Bytes(entries, k - 1) + entries[k - 1] + ['\0']
  }

  /** The bytes of the environment. */
  function Layout(entries: seq<string>): seq<char> { Bytes(entries, |entries|) + ['\0'] }

  /** Where the `k`th entry starts. */
  function Start(entries: seq<string>, k: nat): nat
    requires k <= |entries|
  {
    if k == 0 then 0 else Start(entries, k - 1) + |entries[k - 1]| + 1
  }

  predicate TextAt(env: seq<char>, i: nat, text: string) {
    i + |text| < |env| && (forall k | 0 <= k < |text| :: env[i + k] == text[k]) && env[i + |text|] == '\0'
  }

  predicate Placed(env: seq<char>, entries: seq<string>, k: nat)
    requires k < |entries|
  {
    EntryOk(entries[k]) && TextAt(env, Start(entries, k), entries[k])
  }

  predicate Distinct(entries: seq<string>, j: nat, k: nat)
    requires j < |entries| && k < |entries|
  {
    NameOf(entries[j]) != NameOf(entries[k])
  }

  /** A well-formed environment: `name=value` entries with distinct names lie in memory one behind the
      other, and a NUL ends them. */
  ghost predicate Holds(env: seq<char>, entries: seq<string>) {
    && (forall k | 0 <= k < |entries| :: Placed(env, entries, k))
    && (forall j, k | 0 <= j < k < |entries| :: Distinct(entries, j, k))
    && Start(entries, |entries|) < |env| && env[Start(entries, |entries|)] == '\0'
  }

  lemma {:induction false} BytesLength(entries: seq<string>, k: nat)
    requires k <= |entries|
    ensures |Bytes(entries, k)| == Start(entries, k)
  {
    if k > 0 {
      BytesLength(entries, k - 1);
    }
  }

  lemma {:induction false} BytesGrow(entries: seq<string>, j: nat, k: nat)
    requires j <= k <= |entries|
    ensures Bytes(entries, j) <= Bytes(entries, k)
    decreases k - j
  {
    if j < k {
      BytesGrow(entries, j, k - 1);
    }
  }

  /** A memory that starts with the bytes of such entries is well formed. */
  lemma LayoutHolds(env: seq<char>, entries: seq<string>)
    requires Layout(entries) <= env
    requires forall k | 0 <= k < |entries| :: EntryOk(entries[k])
    requires forall j, k | 0 <= j < k < |entries| :: Distinct(entries, j, k)
    ensures Holds(env, entries)
  {
    var n := |entries|;
    BytesLength(entries, n);
    assert env[Start(entries, n)] == Layout(entries)[Start(entries, n)];
    forall k | 0 <= k < n ensures Placed(env, entries, k) {
      BytesLength(entries, k);
      BytesLength(entries, k + 1);
      BytesGrow(entries, k + 1, n);
      var i, text, bytes := Start(entries, k), entries[k], Bytes(entries, k + 1);
      assert bytes <= env;
      assert forall j | 0 <= j < |text| :: bytes[i + j] == text[j];
      assert bytes[i + |text|] == '\0';
    }
  }

  lemma {:induction false} StartsGrow(entries: seq<string>, j: nat, k: nat)
    requires j < k <= |entries|
    ensures Start(entries, j) + |entries[j]| + 1 <= Start(entries, k)
    decreases k - j
  {
    if j + 1 < k {
      StartsGrow(entries, j, k - 1);
    }
  }

  /** Behind an entry comes the next one, or the final NUL. */
  lemma Follows(env: seq<char>, entries: seq<string>, k: nat)
    requires Holds(env, entries) && k < |entries|
    ensures Start(entries, k + 1) < |env|
    ensures env[Start(entries, k + 1)] == '\0' <==> k + 1 == |entries|
  {
    if k + 1 < |entries| {
      assert Placed(env, entries, k + 1);
      var i, text := Start(entries, k + 1), entries[k + 1];
      assert text[0] in text && env[i + 0] == text[0];
    }
  }

  // ----- one round of the scan -----

  ghost predicate EntryHere(env: seq<char>, size: nat, i: nat, text: string) {
    Readable(env, size) && i <= size + 1 && TextAt(env, i, text) && EntryOk(text)
  }

  lemma {:induction false} EndIs(env: seq<char>, size: nat, i: nat, n: nat)
    requires Readable(env, size) && i <= size + 1 && i <= n < |env|
    requires env[n] == '\0' && NoNul(env, i, n)
    ensures env[EndOf(env, size, i)] == '\0' <==> n <= size || i == n
    ensures n <= size ==> EndOf(env, size, i) == n
    decreases n - i
  {
    if i < size && i < n {
      EndIs(env, size, i + 1, n);
    }
  }

  lemma {:induction false} TextIs(env: seq<char>, i: nat, text: string)
    requires TextAt(env, i, text)
    ensures Text(env, i, i + |text|) == text
    decreases |text|
  {
    if text != "" {
      assert env[i + 0] == text[0];
      forall k | 0 <= k < |text| - 1 ensures env[i + 1 + k] == text[1..][k] {
        assert env[i + (k + 1)] == text[k + 1];
      }
      TextIs(env, i + 1, text[1..]);
    }
  }

  lemma EndOfEntry(env: seq<char>, size: nat, i: nat, text: string)
    requires EntryHere(env, size, i, text)
    ensures env[i] != '\0'
    ensures env[EndOf(env, size, i)] == '\0' <==> i + |text| <= size
    ensures i + |text| <= size ==> EndOf(env, size, i) == i + |text|
    ensures Text(env, i, i + |text|) == text
  {
    forall k | i <= k < i + |text| ensures env[k] != '\0' {
      assert env[i + (k - i)] == text[k - i] && text[k - i] in text;
    }
    EndIs(env, size, i, i + |text|);
    TextIs(env, i, text);
  }

  lemma ScanGivesUp(env: seq<char>, size: nat, last: string, i: nat, text: string)
    requires EntryHere(env, size, i, text) && i + |text| > size
    ensures Scan(env, size, last, i) == SameAsLast && ScanDefined(env, size, last, i)
  {
    EndOfEntry(env, size, i, text);
  }

  lemma ScanSkips(env: seq<char>, size: nat, last: string, i: nat, text: string)
    requires EntryHere(env, size, i, text) && i + |text| <= size && !Answers(last, text)
    ensures Scan(env, size, last, i) == Scan(env, size, last, i + |text| + 1)
  {
    EndOfEntry(env, size, i, text);
  }

  lemma ScanAnswers(env: seq<char>, size: nat, last: string, i: nat, text: string)
    requires EntryHere(env, size, i, text) && i + |text| <= size && Answers(last, text)
    ensures Scan(env, size, last, i) == if env[i + |text| + 1] == '\0' then NoMore else Entry(i + |text| + 1)
  {
    EndOfEntry(env, size, i, text);
  }

  lemma ScanDefinedHere(env: seq<char>, size: nat, last: string, i: nat, text: string)
    requires EntryHere(env, size, i, text) && i + |text| <= size
    requires ScanDefined(env, size, last, i + |text| + 1)
    ensures ScanDefined(env, size, last, i)
  {
    EndOfEntry(env, size, i, text);
  }

  // ----- the whole scan -----

  /** The limit is not reached before the NUL behind the `k`th entry. */
  predicate Reaches(size: nat, entries: seq<string>, k: nat)
    requires k < |entries|
  {
    Start(entries, k) + |entries[k]| <= size
  }

  /** What the call gives for the name of the `k`th entry. */
  function After(size: nat, entries: seq<string>, k: nat): Next
    requires k < |entries|
  {
    if !Reaches(size, entries, k) then SameAsLast
    else if k + 1 < |entries| then Entry(Start(entries, k + 1))
    else NoMore
  }

  lemma {:induction false} ScanFrom(env: seq<char>, size: nat, entries: seq<string>, j: nat, k: nat, last: string)
    requires Readable(env, size) && Holds(env, entries) && j <= k < |entries| && Start(entries, j) <= size + 1
    requires NameOf(last) == NameOf(entries[k])
    ensures Scan(env, size, last, Start(entries, j)) == After(size, entries, k)
    decreases k - j
  {
    var i, text := Start(entries, j), entries[j];
    assert Placed(env, entries, j);
    if j < k { StartsGrow(entries, j, k); }
    if i + |text| > size {
      ScanGivesUp(env, size, last, i, text);
    } else if j < k {
      assert Distinct(entries, j, k);
      ScanSkips(env, size, last, i, text);
      ScanFrom(env, size, entries, j + 1, k, last);
    } else {
      ScanAnswers(env, size, last, i, text);
      Follows(env, entries, k);
    }
  }

  /** A name that no entry has is handed back. */
  lemma {:induction false} UnknownFrom(env: seq<char>, size: nat, entries: seq<string>, j: nat, last: string)
    requires Readable(env, size) && Holds(env, entries) && j <= |entries| && Start(entries, j) <= size + 1
    requires forall k | 0 <= k < |entries| :: NameOf(last) != NameOf(entries[k])
    ensures Scan(env, size, last, Start(entries, j)) == SameAsLast
    decreases |entries| - j
  {
    if j < |entries| {
      var i, text := Start(entries, j), entries[j];
      assert Placed(env, entries, j);
      if i + |text| > size {
        ScanGivesUp(env, size, last, i, text);
      } else {
        ScanSkips(env, size, last, i, text);
        UnknownFrom(env, size, entries, j + 1, last);
      }
    }
  }

  /** In a well-formed environment every comparison stops. */
  lemma {:induction false} DefinedFrom(env: seq<char>, size: nat, entries: seq<string>, j: nat, last: string)
    requires Readable(env, size) && Holds(env, entries) && j <= |entries| && Start(entries, j) <= size + 1
    ensures ScanDefined(env, size, last, Start(entries, j))
    decreases |entries| - j
  {
    if j < |entries| {
      var i, text := Start(entries, j), entries[j];
      assert Placed(env, entries, j);
      if i + |text| > size {
        ScanGivesUp(env, size, last, i, text);
      } else {
        DefinedFrom(env, size, entries, j + 1, last);
        ScanDefinedHere(env, size, last, i, text);
      }
    }
  }

  /** One call, for a whole entry or its name: the next entry in the order of the buffer, NULL behind
      the last one, and `last` itself when the scan gives up or no entry has the name. */
  lemma NextIs(env: seq<char>, size: nat, entries: seq<string>, last: string)
    requires Readable(env, size) && Holds(env, entries)
    ensures ScanDefined(env, size, last, 0)
    ensures forall k | 0 <= k < |entries| && NameOf(entries[k]) == NameOf(last) ::
              EnvNext(env, size, Some(last)) == After(size, entries, k)
    ensures (forall k | 0 <= k < |entries| :: NameOf(entries[k]) != NameOf(last)) ==>
              EnvNext(env, size, Some(last)) == SameAsLast
  {
    DefinedFrom(env, size, entries, 0, last);
    forall k | 0 <= k < |entries| && NameOf(entries[k]) == NameOf(last)
      ensures EnvNext(env, size, Some(last)) == After(size, entries, k)
    {
      ScanFrom(env, size, entries, 0, k, last);
    }
    if forall k | 0 <= k < |entries| :: NameOf(entries[k]) != NameOf(last) {
      UnknownFrom(env, size, entries, 0, last);
    }
  }

  // ----- stepping through the environment -----

  /** Stepping on from `last` gives entries with exactly these texts and then NULL, whether the
      client hands back the entry or only its name. */
  ghost predicate Walk(env: seq<char>, size: nat, last: Option<string>, texts: seq<string>)
    requires Readable(env, size)
    decreases texts
  {
    var next := EnvNext(env, size, last);
    if texts == [] then next == NoMore
    else
      && next.Entry? && TextAt(env, next.offset, texts[0])
      && forall s | NameOf(s) == NameOf(texts[0]) :: Walk(env, size, Some(s), texts[1..])
  }

  lemma {:induction false} ReachesAll(size: nat, entries: seq<string>, k: nat)
    requires k < |entries| && Reaches(size, entries, |entries| - 1)
    ensures Reaches(size, entries, k)
  {
    if k + 1 < |entries| { StartsGrow(entries, k, |entries| - 1); }
  }

  lemma WalkStep(env: seq<char>, size: nat, last: Option<string>, offset: nat, texts: seq<string>)
    requires Readable(env, size) && texts != []
    requires EnvNext(env, size, last) == Entry(offset) && TextAt(env, offset, texts[0])
    requires forall s | NameOf(s) == NameOf(texts[0]) :: Walk(env, size, Some(s), texts[1..])
    ensures Walk(env, size, last, texts)
  {
  }

  /** The walk on from the `k`th entry. */
  lemma {:induction false} WalkFrom(env: seq<char>, size: nat, entries: seq<string>, k: nat, last: string)
    requires Readable(env, size) && Holds(env, entries) && k < |entries|
    requires NameOf(last) == NameOf(entries[k]) && Reaches(size, entries, |entries| - 1)
    ensures Walk(env, size, Some(last), entries[k + 1..])
    decreases |entries| - k
  {
    ReachesAll(size, entries, k);
    ScanFrom(env, size, entries, 0, k, last);
    if k + 1 < |entries| {
      var rest := entries[k + 1..];
      assert rest[1..] == entries[k + 2..] && Placed(env, entries, k + 1);
      forall s | NameOf(s) == NameOf(rest[0]) ensures Walk(env, size, Some(s), rest[1..]) {
        WalkFrom(env, size, entries, k + 1, s);
      }
      WalkStep(env, size, Some(last), Start(entries, k + 1), rest);
    }
  }

  /** A walk that ends has reached the end of the last entry. */
  lemma {:induction false} WalkReaches(env: seq<char>, size: nat, entries: seq<string>, k: nat)
    requires Readable(env, size) && Holds(env, entries) && k < |entries|
    requires Walk(env, size, Some(entries[k]), entries[k + 1..])
    ensures Reaches(size, entries, |entries| - 1)
    decreases |entries| - k
  {
    ScanFrom(env, size, entries, 0, k, entries[k]);
    if k + 1 < |entries| {
      var rest := entries[k + 1..];
      assert rest[1..] == entries[k + 2..] && NameOf(rest[0]) == NameOf(entries[k + 1]);
      WalkReaches(env, size, entries, k + 1);
    }
  }

  /** Stepping from NULL visits every entry once, in the order of the buffer, and then ends, exactly
      when the last entry ends within the limit. */
  lemma WalkVisitsAll(env: seq<char>, size: nat, entries: seq<string>)
    requires Readable(env, size) && entries != [] && Holds(env, entries)
    ensures Walk(env, size, None, entries) <==> |Layout(entries)| <= size + 2
  {
    BytesLength(entries, |entries|);
    if Reaches(size, entries, |entries| - 1) {
      assert Placed(env, entries, 0);
      forall s | NameOf(s) == NameOf(entries[0]) ensures Walk(env, size, Some(s), entries[1..]) {
        WalkFrom(env, size, entries, 0, s);
      }
    } else if Walk(env, size, None, entries) {
      assert NameOf(entries[0]) == NameOf(entries[0]);
      WalkReaches(env, size, entries, 0);
    }
  }

  /** In an empty environment the first step gives the address of the final NUL. */
  lemma EmptyEnvironment(env: seq<char>, size: nat)
    requires Readable(env, size) && Holds(env, [])
    ensures EnvNext(env, size, None) == Entry(0) && TextAt(env, 0, "")
  {
  }

  // ----- a call that hands `last` back -----

  const ONE_ENTRY: string := "a=1\0\0"

  lemma OneEntryHolds()
    ensures Holds(ONE_ENTRY, ["a=1"])
  {
    assert Start(["a=1"], 0) == 0 && Start(["a=1"], 1) == 4;
    assert Placed(ONE_ENTRY, ["a=1"], 0);
  }

  /** With a limit of two characters the walk through the environment `a=1` does not end: the call
      hands the only entry back. So it does with a name that the environment does not have. */
  lemma HandedBack(entries: seq<string>, env: seq<char>)
    requires entries == ["a=1"] && env == ONE_ENTRY
    ensures !Walk(env, 2, None, entries) && EnvNext(env, 2, Some("a=1")) == SameAsLast
    ensures Walk(env, 3, None, entries) && EnvNext(env, 3, Some("b")) == SameAsLast
  {
    OneEntryHolds();
    assert |Layout(entries)| == 5;
    WalkVisitsAll(env, 2, entries);
    WalkVisitsAll(env, 3, entries);
    NextIs(env, 2, entries, "a=1");
    assert NameOf("b") == "b" && NameOf(entries[0]) == "a";
    NextIs(env, 3, entries, "b");
  }
}
