/** Enumerating on from a device in the middle of a group. */
module StorageContinued {
  import opened StorageProtocol
  import opened StorageRuns
  import opened StorageReachable
  import opened StorageLoops

  /** The slots behind `i` and before `n` hold active devices that stand nowhere before, and at `n` the
      group ends or has an empty slot. */
  predicate Stretch(d: Devices, g: nat, i: nat, n: nat)
    requires |d.groups| == ENUM_MAX && g < ENUM_MAX
  {
    && i < n <= d.groups[g].maxDev
    && (forall k | i < k < n :: Own(d, g, k))
    && (n < d.groups[g].maxDev ==> GetDev(d, g, n) == NULL)
  }

  /** The devices of the slots from `i` to `n`. */
  function Slots(d: Devices, g: nat, i: nat, n: nat): seq<Pointer>
    requires |d.groups| == ENUM_MAX && g < ENUM_MAX
    decreases n - i
  {
    if i >= n then [] else [GetDev(d, g, i)] + Slots(d, g, i + 1, n)
  }

  /** The cookie is the device of slot `i`, and the groups before it are ended, the others untouched. */
  ghost predicate At(d: Devices, s: State, g: nat, i: nat)
    requires |d.groups| == ENUM_MAX && ValidState(s)
  {
    && g < ENUM_MAX && i < d.groups[g].maxDev && Exactly(s.flags, g)
    && s.info.cookie == GetDev(d, g, i) != NULL
    && TypeOf(d, s.info.cookie) == g && IndexOf(d, g, s.info.cookie) == i
  }

  /** Behind the last device of the stretch the groups that follow are enumerated. */
  lemma StretchEnds(d: Devices, s: State, g: nat, i: nat)
    requires Valid(d) && ValidState(s) && At(d, s, g, i)
    requires i + 1 == d.groups[g].maxDev || GetDev(d, g, i + 1) == NULL
    ensures IsRun(d, s, FirstSlots(d, g + 1))
  {
    SkipToOpen(d, s, 0, g);
    var r := EnumGroup(d, g, s);
    assert Before(d, r.state, g + 1);
    var next := NextActive(d, r.state, g + 1);
    if EnumFrom(d, g + 1, r.state).found {
      RunFrom(d, Enum(d, s), next);
      assert FirstSlots(d, g + 1)[1..] == FirstSlots(d, next);
    }
  }

  /** The answer of the group itself: the next slot. */
  lemma NextOfStretch(d: Devices, s: State, g: nat, i: nat)
    requires Valid(d) && ValidState(s) && At(d, s, g, i) && i + 1 < d.groups[g].maxDev && Own(d, g, i + 1)
    ensures
      var r := EnumGroup(d, g, s);
      && r.found && r.state.info.cookie == GetDev(d, g, i + 1)
      && r.state.flags == s.flags[g := Flags(false, i + 2 == d.groups[g].maxDev)]
  {
  }

  lemma NextInStretch(d: Devices, s: State, g: nat, i: nat)
    requires Valid(d) && ValidState(s) && At(d, s, g, i) && i + 1 < d.groups[g].maxDev && Own(d, g, i + 1)
    ensures
      var r := Enum(d, s);
      && r.info.cookie == GetDev(d, g, i + 1) != NULL
      && r.flags == s.flags[g := Flags(false, i + 2 == d.groups[g].maxDev)]
  {
    SkipToOpen(d, s, 0, g);
    NextOfStretch(d, s, g, i);
  }

  /** Where the run stands behind the next slot: in the group, or behind it. */
  lemma StandsNext(d: Devices, s: State, g: nat, i: nat, r: State)
    requires Valid(d) && ValidState(s) && At(d, s, g, i) && i + 1 < d.groups[g].maxDev && Own(d, g, i + 1)
    requires r == Enum(d, s)
    ensures r.info.cookie == GetDev(d, g, i + 1) != NULL
    ensures if i + 2 < d.groups[g].maxDev then At(d, r, g, i + 1) else Before(d, r, g + 1)
  {
    NextInStretch(d, s, g, i);
  }

  lemma Prepend(d: Devices, s: State, r: State, cookie: Pointer, rest: seq<Pointer>, all: seq<Pointer>)
    requires |d.groups| == ENUM_MAX && ValidState(s) && r == Enum(d, s)
    requires r.info.cookie == cookie != NULL && IsRun(d, r, rest) && all == [cookie] + rest
    ensures IsRun(d, s, all)
  {
    assert all[1..] == rest;
  }

  /** From a device in a group, with the groups before it ended, a run returns the devices behind it up to
      the first empty slot and then the active first slots of the groups that follow. */
  lemma {:induction false} ContinuedRun(d: Devices, s: State, g: nat, i: nat, n: nat, firsts: seq<Pointer>)
    requires Valid(d) && ValidState(s) && At(d, s, g, i) && Stretch(d, g, i, n) && firsts == FirstSlots(d, g + 1)
    ensures IsRun(d, s, Slots(d, g, i + 1, n) + firsts)
    decreases n - i
  {
    if i + 1 == n {
      StretchEnds(d, s, g, i);
      assert [] + firsts == firsts;
    } else {
      var r := Enum(d, s);
      assert Own(d, g, i + 1);
      StandsNext(d, s, g, i, r);
      if i + 2 < d.groups[g].maxDev {
        ContinuedRun(d, r, g, i + 1, n, firsts);
      } else {
        BehindGroup(d, r, g, i + 2, n, firsts);
      }
      SlotsJoin(d, g, i + 1, n, firsts);
      Prepend(d, s, r, GetDev(d, g, i + 1), Slots(d, g, i + 2, n) + firsts, Slots(d, g, i + 1, n) + firsts);
    }
  }

  lemma SlotsJoin(d: Devices, g: nat, i: nat, n: nat, firsts: seq<Pointer>)
    requires |d.groups| == ENUM_MAX && g < ENUM_MAX && i < n
    ensures Slots(d, g, i, n) + firsts == [GetDev(d, g, i)] + (Slots(d, g, i + 1, n) + firsts)
  {
    JoinRight([GetDev(d, g, i)], Slots(d, g, i + 1, n), firsts);
  }

  lemma JoinRight(a: seq<Pointer>, b: seq<Pointer>, c: seq<Pointer>)
    ensures (a + b) + c == a + (b + c)
  {
  }

  lemma BehindGroup(d: Devices, r: State, g: nat, i: nat, n: nat, firsts: seq<Pointer>)
    requires Valid(d) && ValidState(r) && g < ENUM_MAX && Before(d, r, g + 1) && r.info.cookie != NULL
    requires n <= i && firsts == FirstSlots(d, g + 1)
    ensures IsRun(d, r, Slots(d, g, i, n) + firsts)
  {
    RunFrom(d, r, g + 1);
    assert [] + firsts == firsts;
  }
}
