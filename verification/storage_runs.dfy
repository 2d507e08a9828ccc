/** Whole enumeration runs: they end, and from the start they visit the first slot of each group. */
module StorageRuns {
  import opened StorageProtocol

  // ----- every successful call makes progress -----

  /** No device stands in two slots of a group. */
  predicate DistinctSlots(d: Devices) {
    forall g, i, j | 0 <= g < |d.groups| && 0 <= i < j < |d.groups[g].slots| ::
      d.groups[g].slots[i] == d.groups[g].slots[j] ==> d.groups[g].slots[i] == NULL
  }

  function Clear(flag: bool): nat { if flag then 0 else 1 }

  /** The number of flags that are not set. */
  function Unset(flags: seq<Flags>): nat {
    if flags == [] then 0 else Clear(flags[0].started) + Clear(flags[0].ended) + Unset(flags[1..])
  }

  lemma {:induction false} UnsetFalls(a: seq<Flags>, b: seq<Flags>)
    requires Grown(a, b)
    ensures Unset(b) <= Unset(a)
    ensures a != b ==> Unset(b) < Unset(a)
  {
    if a != [] {
      UnsetFalls(a[1..], b[1..]);
      if a[1..] == b[1..] {
        assert a == [a[0]] + a[1..] && b == [b[0]] + b[1..];
      }
    }
  }

  /** The slots from the cookie on that its group may still return. */
  function Left(d: Devices, s: State): nat
    requires |d.groups| == ENUM_MAX && ValidState(s)
  {
    var t := TypeOf(d, s.info.cookie);
    if t < ENUM_MAX && !s.flags[t].ended then d.groups[t].maxDev - IndexOf(d, t, s.info.cookie) else 0
  }

  lemma SlotIndex(d: Devices, g: nat, i: nat)
    requires |d.groups| == ENUM_MAX && g < ENUM_MAX && i < d.groups[g].maxDev
    ensures IndexOf(d, g, GetDev(d, g, i)) <= i && TypeOf(d, GetDev(d, g, i)) <= g
  {
    var dd := GetDev(d, g, i);
    assert IndexOf(d, g, dd) <= i;
    assert InGroup(d, g, dd);
  }

  lemma DistinctIndex(d: Devices, g: nat, i: nat)
    requires |d.groups| == ENUM_MAX && g < ENUM_MAX && DistinctSlots(d)
    requires i < d.groups[g].maxDev && GetDev(d, g, i) != NULL
    ensures IndexOf(d, g, GetDev(d, g, i)) == i
  {
    SlotIndex(d, g, i);
    var k := IndexOf(d, g, GetDev(d, g, i));
    assert GetDev(d, g, k) == GetDev(d, g, i);
  }

  /** A device that an earlier group has makes no later group go on unless a flag is set. */
  lemma {:induction false} NoneAfter(d: Devices, g: nat, s: State)
    requires |d.groups| == ENUM_MAX && g <= ENUM_MAX && ValidState(s)
    requires s.info.cookie != NULL && TypeOf(d, s.info.cookie) < g
    requires EnumFrom(d, g, s).found
    ensures EnumFrom(d, g, s).state.flags != s.flags
    decreases ENUM_MAX - g
  {
    var r := EnumGroup(d, g, s);
    if s.flags[g].ended {
      NoneAfter(d, g + 1, s);
    } else {
      ChangeStays(d, g, s);
    }
  }

  /** A flag that a group sets stays set to the end of the call. */
  lemma ChangeStays(d: Devices, g: nat, s: State)
    requires |d.groups| == ENUM_MAX && g < ENUM_MAX && ValidState(s)
    ensures EnumGroup(d, g, s).state.flags[g] != s.flags[g] ==> EnumFrom(d, g, s).state.flags != s.flags
  {
    var r := EnumGroup(d, g, s);
    GroupGrows(d, g, s);
    EnumFromGrows(d, g + 1, r.state);
    assert Grown(s.flags, r.state.flags);
  }

  /** A call that returns a device and sets no flag went on in the group of the cookie, and the
      groups before that are ended. */
  lemma {:induction false} OnlyContinues(d: Devices, g: nat, s: State)
    requires |d.groups| == ENUM_MAX && g <= ENUM_MAX && ValidState(s) && s.info.cookie != NULL
    requires EnumFrom(d, g, s).found && EnumFrom(d, g, s).state.flags == s.flags
    ensures
      var t := TypeOf(d, s.info.cookie);
      && g <= t < ENUM_MAX && !s.flags[t].ended && (forall j | g <= j < t :: s.flags[j].ended)
      && Get(d, t, false, s.info).found && Get(d, t, false, s.info).more
      && EnumFrom(d, g, s).state.info == Get(d, t, false, s.info).info
    decreases ENUM_MAX - g
  {
    var t := TypeOf(d, s.info.cookie);
    var r := EnumGroup(d, g, s);
    ChangeStays(d, g, s);
    if s.flags[g].ended {
      if t <= g { NoneAfter(d, g + 1, s); }
      OnlyContinues(d, g + 1, s);
    } else if !r.found {
      assert t == g && r.state.flags == s.flags;
      var i := IndexOf(d, g, s.info.cookie) + 1;
      SlotIndex(d, g, i);
      NoneAfter(d, g + 1, r.state);
    }
  }

  lemma NextSlotLeavesLess(d: Devices, s: State, s': State, t: nat)
    requires Valid(d) && DistinctSlots(d) && ValidState(s) && ValidState(s')
    requires t == TypeOf(d, s.info.cookie) < ENUM_MAX && !s.flags[t].ended
    requires s'.flags == s.flags && forall j | 0 <= j < t :: s.flags[j].ended
    requires Get(d, t, false, s.info).found && s'.info == Get(d, t, false, s.info).info
    ensures Left(d, s') < Left(d, s)
  {
    var i := IndexOf(d, t, s.info.cookie) + 1;
    SlotIndex(d, t, i);
    DistinctIndex(d, t, i);
  }

  /** Each call that gives a cookie back sets a flag, or moves on in the group of the cookie. */
  lemma Progress(d: Devices, s: State)
    requires Valid(d) && DistinctSlots(d) && ValidState(s) && s.info.cookie != NULL
    requires Enum(d, s).info.cookie != NULL
    ensures
      || Unset(Enum(d, s).flags) < Unset(s.flags)
      || (Enum(d, s).flags == s.flags && Left(d, Enum(d, s)) < Left(d, s))
  {
    var r := Enum(d, s);
    EnumGrows(d, s);
    UnsetFalls(s.flags, r.flags);
    if r.flags == s.flags {
      OnlyContinues(d, 0, s);
      NextSlotLeavesLess(d, s, r, TypeOf(d, s.info.cookie));
    }
  }

  // ----- runs -----

  /** Feeding each cookie back gives exactly these cookies and then NULL. */
  ghost predicate IsRun(d: Devices, s: State, cookies: seq<Pointer>)
    requires |d.groups| == ENUM_MAX && ValidState(s)
    decreases cookies
  {
    var r := Enum(d, s);
    if cookies == [] then r.info.cookie == NULL
    else r.info.cookie == cookies[0] != NULL && IsRun(d, r, cookies[1..])
  }

  lemma {:induction false} RunIsUnique(d: Devices, s: State, a: seq<Pointer>, b: seq<Pointer>)
    requires |d.groups| == ENUM_MAX && ValidState(s) && IsRun(d, s, a) && IsRun(d, s, b)
    ensures a == b
    decreases a
  {
    if a != [] && b != [] {
      RunIsUnique(d, Enum(d, s), a[1..], b[1..]);
    }
  }

  /** The rest of a run. */
  function Rest(d: Devices, s: State): seq<Pointer>
    requires Valid(d) && DistinctSlots(d) && ValidState(s) && s.info.cookie != NULL
    decreases Unset(s.flags), Left(d, s)
  {
    var r := Enum(d, s);
    if r.info.cookie == NULL then []
    else
      Progress(d, s);
      [r.info.cookie] + Rest(d, r)
  }

  /** From any flags and any cookie the run ends. */
  lemma {:induction false} EveryRunEnds(d: Devices, s: State)
    requires Valid(d) && DistinctSlots(d) && ValidState(s) && s.info.cookie != NULL
    ensures IsRun(d, s, Rest(d, s))
    decreases Unset(s.flags), Left(d, s)
  {
    var r := Enum(d, s);
    if r.info.cookie != NULL {
      Progress(d, s);
      EveryRunEnds(d, r);
      assert Rest(d, s)[1..] == Rest(d, r);
    }
  }

  lemma LeftIsSmall(d: Devices, s: State, m: nat)
    requires Valid(d) && ValidState(s) && forall g | 0 <= g < ENUM_MAX :: d.groups[g].maxDev <= m
    ensures Left(d, s) <= m
  {
  }

  lemma OneStep(a: nat, b: nat, k: nat)
    requires a < b
    ensures a * k + k <= b * k
  {
    assert b * k == a * k + k + (b - a - 1) * k;
  }

  function Budget(d: Devices, s: State, m: nat): nat
    requires |d.groups| == ENUM_MAX && ValidState(s)
  {
    Unset(s.flags) * (m + 1) + Left(d, s)
  }

  lemma BudgetFalls(d: Devices, s: State, m: nat)
    requires Valid(d) && DistinctSlots(d) && ValidState(s) && s.info.cookie != NULL && Enum(d, s).info.cookie != NULL
    requires forall g | 0 <= g < ENUM_MAX :: d.groups[g].maxDev <= m
    ensures Budget(d, Enum(d, s), m) < Budget(d, s, m)
  {
    var r := Enum(d, s);
    Progress(d, s);
    LeftIsSmall(d, r, m);
    if Unset(r.flags) < Unset(s.flags) { OneStep(Unset(r.flags), Unset(s.flags), m + 1); }
  }

  /** The number of calls is bounded by the flags that are not set and the size of the groups. */
  lemma {:induction false} RunLength(d: Devices, s: State, m: nat)
    requires Valid(d) && DistinctSlots(d) && ValidState(s) && s.info.cookie != NULL
    requires forall g | 0 <= g < ENUM_MAX :: d.groups[g].maxDev <= m
    ensures |Rest(d, s)| <= Budget(d, s, m)
    decreases Unset(s.flags), Left(d, s)
  {
    if Enum(d, s).info.cookie != NULL {
      BudgetFalls(d, s, m);
      Progress(d, s);
      RunLength(d, Enum(d, s), m);
    }
  }

  /** With a device in two slots a run need not end: the call returns what it was given. */
  lemma DuplicatesLoop(d: Devices, s: State)
    requires Valid(d) && d.groups[0].maxDev == 3 && d.groups[0].slots == [7, 7, 8]
    requires !d.desc(7).unknown
    requires s == State(CLEAR, Info(7, d.groups[0].kind, Stor(d.desc(7).lba, d.desc(7).blksz)))
    ensures Enum(d, s) == s
  {
    assert GetDev(d, 0, 0) == 7 && GetDev(d, 0, 1) == 7;
    assert TypeOf(d, 7) == 0;
    assert Enum(d, s).flags == CLEAR;
  }

  // ----- the run from the start -----

  predicate Active(d: Devices, g: nat)
    requires g < |d.groups|
  {
    GetDev(d, g, 0) != NULL && !d.desc(GetDev(d, g, 0)).unknown
  }

  /** The first slots of the groups from `g` on that hold an active device. */
  function FirstSlots(d: Devices, g: nat): seq<Pointer>
    requires |d.groups| == ENUM_MAX && g <= ENUM_MAX
    decreases ENUM_MAX - g
  {
    if g == ENUM_MAX then []
    else (if Active(d, g) then [GetDev(d, g, 0)] else []) + FirstSlots(d, g + 1)
  }

  function Canonical(d: Devices): seq<Pointer>
    requires |d.groups| == ENUM_MAX
  {
    (if d.net != NULL then [d.net] else []) + FirstSlots(d, 0)
  }

  /** The groups before `g` are done, the others untouched, and none of the others knows the cookie. */
  ghost predicate Before(d: Devices, s: State, g: nat)
    requires |d.groups| == ENUM_MAX && ValidState(s) && g <= ENUM_MAX
  {
    && (forall k | 0 <= k < g :: s.flags[k].ended)
    && (forall k | g <= k < ENUM_MAX :: s.flags[k] == Flags(false, false))
    && (s.info.cookie != NULL ==> TypeOf(d, s.info.cookie) < g || TypeOf(d, s.info.cookie) == ENUM_MAX)
  }

  /** An untouched group gives its first slot, or nothing, and is done. */
  lemma FirstTime(d: Devices, s: State, g: nat)
    requires Valid(d) && ValidState(s) && g < ENUM_MAX && Before(d, s, g)
    ensures
      var r := EnumGroup(d, g, s);
      Before(d, r.state, g + 1) && r.found == Active(d, g) && (r.found ==> r.state.info.cookie == GetDev(d, g, 0))
  {
    if GetDev(d, g, 0) != NULL {
      assert ValidGroup(d.groups[g]);
      SlotIndex(d, g, 0);
    }
  }

  /** The next call passes over the groups that are done. */
  lemma {:induction false} SkipDone(d: Devices, s: State, k: nat, g: nat)
    requires Valid(d) && ValidState(s) && k <= g <= ENUM_MAX && Before(d, s, g) && s.info.cookie != NULL
    ensures EnumFrom(d, k, s) == EnumFrom(d, g, s)
    decreases g - k
  {
    if k < g {
      SkipDone(d, s, k + 1, g);
    }
  }

  /** From group `g` on: the first active slot, or none. */
  lemma {:induction false} NextActive(d: Devices, s: State, g: nat) returns (next: nat)
    requires Valid(d) && ValidState(s) && g <= ENUM_MAX && Before(d, s, g)
    ensures
      var r := EnumFrom(d, g, s);
      if r.found then
        g < next <= ENUM_MAX && Before(d, r.state, next) && r.state.info.cookie != NULL
        && FirstSlots(d, g) == [r.state.info.cookie] + FirstSlots(d, next)
      else FirstSlots(d, g) == []
    decreases ENUM_MAX - g
  {
    next := g;
    if g < ENUM_MAX {
      var r := EnumGroup(d, g, s);
      FirstTime(d, s, g);
      if r.found {
        next := g + 1;
      } else {
        next := NextActive(d, r.state, g + 1);
        assert FirstSlots(d, g) == FirstSlots(d, g + 1);
      }
    }
  }

  lemma {:induction false} RunFrom(d: Devices, s: State, g: nat)
    requires Valid(d) && ValidState(s) && g <= ENUM_MAX && Before(d, s, g) && s.info.cookie != NULL
    ensures IsRun(d, s, FirstSlots(d, g))
    decreases ENUM_MAX - g
  {
    SkipDone(d, s, 0, g);
    var next := NextActive(d, s, g);
    if EnumFrom(d, g, s).found {
      RunFrom(d, Enum(d, s), next);
      assert FirstSlots(d, g)[1..] == FirstSlots(d, next);
    }
  }

  /** A run from NULL, whatever the old flags, returns the network device if there is one, then the
      active first slots in the order of the groups, then NULL. */
  lemma CanonicalRun(d: Devices, s: State)
    requires Valid(d) && ValidState(s) && s.info.cookie == NULL
    requires d.net != NULL ==> TypeOf(d, d.net) == ENUM_MAX
    ensures IsRun(d, s, Canonical(d))
  {
    var s1 := State(CLEAR, EnumNet(d, s.info));
    assert Before(d, s1, 0);
    if d.net != NULL {
      RunFrom(d, s1, 0);
      assert Canonical(d)[1..] == FirstSlots(d, 0);
    } else {
      assert Canonical(d) == FirstSlots(d, 0);
      var next := NextActive(d, s1, 0);
      if EnumFrom(d, 0, s1).found {
        RunFrom(d, Enum(d, s), next);
        assert FirstSlots(d, 0)[1..] == FirstSlots(d, next);
      }
    }
  }

  // ----- which devices such a run finds -----

  predicate ActiveAt(d: Devices, g: nat, i: nat)
    requires g < |d.groups|
  {
    i < d.groups[g].maxDev && GetDev(d, g, i) != NULL && !d.desc(GetDev(d, g, i)).unknown
  }

  /** No device is in two places. */
  ghost predicate Disjoint(d: Devices)
    requires |d.groups| == ENUM_MAX
  {
    forall g, i, h, j | 0 <= g < ENUM_MAX && 0 <= h < ENUM_MAX && 0 <= i && 0 <= j && GetDev(d, g, i) != NULL
      && GetDev(d, g, i) == GetDev(d, h, j) :: g == h && i == j
  }

  lemma {:induction false} InFirstSlots(d: Devices, g: nat, h: nat)
    requires Valid(d) && g <= h < ENUM_MAX && Active(d, h)
    ensures GetDev(d, h, 0) in FirstSlots(d, g)
    decreases ENUM_MAX - g
  {
    if g < h {
      InFirstSlots(d, g + 1, h);
    }
  }

  lemma {:induction false} FirstSlotOf(d: Devices, g: nat, dd: Pointer) returns (h: nat)
    requires Valid(d) && g <= ENUM_MAX && dd in FirstSlots(d, g)
    ensures g <= h < ENUM_MAX && Active(d, h) && GetDev(d, h, 0) == dd
    decreases ENUM_MAX - g
  {
    h := g;
    if !Active(d, g) || GetDev(d, g, 0) != dd {
      h := FirstSlotOf(d, g + 1, dd);
    }
  }

  /** The device is the first slot of some group. */
  predicate IsFirstSlot(d: Devices, dd: Pointer)
    requires |d.groups| == ENUM_MAX
  {
    exists h | 0 <= h < ENUM_MAX :: GetDev(d, h, 0) == dd
  }

  lemma InCanonicalIff(d: Devices, g: nat, i: nat)
    requires Valid(d) && g < ENUM_MAX && ActiveAt(d, g, i)
    requires d.net != NULL ==> TypeOf(d, d.net) == ENUM_MAX
    ensures GetDev(d, g, i) in Canonical(d) <==> IsFirstSlot(d, GetDev(d, g, i))
  {
    var dd := GetDev(d, g, i);
    SlotIndex(d, g, i);
    if IsFirstSlot(d, dd) {
      var h :| 0 <= h < ENUM_MAX && GetDev(d, h, 0) == dd;
      InFirstSlots(d, 0, h);
    } else if dd in Canonical(d) {
      var h := FirstSlotOf(d, 0, dd);
      assert false;
    }
  }

  /** A run from NULL finds every active storage device exactly when each is the first slot of some
      group: each group ends with its first slot. When no device is in two places, those are the
      devices in slot 0. */
  lemma FindsAllIff(d: Devices, s: State, cookies: seq<Pointer>)
    requires Valid(d) && ValidState(s) && s.info.cookie == NULL && IsRun(d, s, cookies)
    requires d.net != NULL ==> TypeOf(d, d.net) == ENUM_MAX
    ensures (forall g: nat, i: nat | g < ENUM_MAX && ActiveAt(d, g, i) :: GetDev(d, g, i) in cookies) <==>
            (forall g: nat, i: nat | g < ENUM_MAX && ActiveAt(d, g, i) :: IsFirstSlot(d, GetDev(d, g, i)))
    ensures Disjoint(d) ==> forall g: nat, i: nat | g < ENUM_MAX && ActiveAt(d, g, i) ::
              IsFirstSlot(d, GetDev(d, g, i)) <==> i == 0
  {
    CanonicalRun(d, s);
    RunIsUnique(d, s, cookies, Canonical(d));
    forall g: nat, i: nat | g < ENUM_MAX && ActiveAt(d, g, i)
      ensures GetDev(d, g, i) in cookies <==> IsFirstSlot(d, GetDev(d, g, i))
    {
      InCanonicalIff(d, g, i);
    }
  }

  /** Two active devices in the first group: a run from NULL returns the first and ends. */
  lemma SecondDeviceMissed(d: Devices, s: State)
    requires Valid(d) && ValidState(s) && s.info.cookie == NULL && d.net == NULL
    requires d.groups[0].maxDev == 2 && d.groups[0].slots == [7, 8] && !d.desc(7).unknown && !d.desc(8).unknown
    requires forall g | 0 < g < ENUM_MAX :: d.groups[g].slots == []
    ensures ActiveAt(d, 0, 1) && IsRun(d, s, [7])
  {
    CanonicalRun(d, s);
    assert FirstSlots(d, 4) == [] && FirstSlots(d, 3) == [] && FirstSlots(d, 2) == [] && FirstSlots(d, 1) == [];
    assert GetDev(d, 0, 0) == 7;
    assert Canonical(d) == [7];
  }
}
