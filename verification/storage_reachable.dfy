/** The flags that the calls of a client can leave behind, whatever cookies it passes. */
module StorageReachable {
  import opened StorageProtocol
  import opened StorageRuns

  /** The flags after some calls. */
  function After(d: Devices, flags: seq<Flags>, infos: seq<Info>): (r: seq<Flags>)
    requires |d.groups| == ENUM_MAX && |flags| == ENUM_MAX
    ensures |r| == ENUM_MAX
    decreases |infos|
  {
    if infos == [] then flags else After(d, Enum(d, State(flags, infos[0])).flags, infos[1..])
  }

  /** Initialisation clears the flags. */
  ghost predicate Reachable(d: Devices, flags: seq<Flags>)
    requires |d.groups| == ENUM_MAX
  {
    exists infos :: After(d, CLEAR, infos) == flags
  }

  lemma {:induction false} AfterSnoc(d: Devices, flags: seq<Flags>, infos: seq<Info>, info: Info)
    requires |d.groups| == ENUM_MAX && |flags| == ENUM_MAX
    ensures After(d, flags, infos + [info]) == Enum(d, State(After(d, flags, infos), info)).flags
    decreases |infos|
  {
    if infos == [] {
      assert infos + [info] == [info];
    } else {
      assert (infos + [info])[1..] == infos[1..] + [info];
      AfterSnoc(d, Enum(d, State(flags, infos[0])).flags, infos[1..], info);
    }
  }

  /** Some cookie makes a call return the last slot of the group, which ends it. */
  predicate EndsWithLast(d: Devices, g: nat)
    requires |d.groups| == ENUM_MAX && g < ENUM_MAX
  {
    var n := d.groups[g].maxDev;
    n >= 2 && ActiveAt(d, g, n - 1) && GetDev(d, g, n - 2) != NULL
    && TypeOf(d, GetDev(d, g, n - 2)) == g && IndexOf(d, g, GetDev(d, g, n - 2)) == n - 2
  }

  /** The groups before this one can all be ended while it is not. A group that ends without
      returning a device drags the next one along. */
  predicate Enterable(d: Devices, g: nat)
    requires |d.groups| == ENUM_MAX && g <= ENUM_MAX
  {
    g == 0 || Active(d, g - 1) || (Enterable(d, g - 1) && EndsWithLast(d, g - 1))
  }

  predicate StartedIsEnded(flags: seq<Flags>) { forall g | 0 <= g < |flags| :: flags[g].started ==> flags[g].ended }

  /** What all calls keep: a group that was started is ended, and where open groups follow ended ones
      the first of them is enterable. */
  predicate Ordered(d: Devices, flags: seq<Flags>)
    requires |d.groups| == ENUM_MAX
  {
    && |flags| == ENUM_MAX && StartedIsEnded(flags)
    && forall g | 0 <= g < ENUM_MAX && !flags[g].ended && (g > 0 ==> flags[g - 1].ended) :: Enterable(d, g)
  }

  /** The group is the first that is not ended. */
  predicate InFront(flags: seq<Flags>, g: nat) {
    |flags| == ENUM_MAX && g < ENUM_MAX && !flags[g].ended && forall h | 0 <= h < g :: flags[h].ended
  }

  // ----- every call keeps it -----

  /** The cookie is NULL or no device of a group from `g` on. */
  predicate Foreign(d: Devices, cookie: Pointer, g: nat)
    requires |d.groups| == ENUM_MAX
  {
    cookie != NULL ==> TypeOf(d, cookie) < g || TypeOf(d, cookie) == ENUM_MAX
  }

  /** The groups from `g` to `k` are ended, and the flags of the others are as they were. */
  predicate EndedUpTo(was: seq<Flags>, now: seq<Flags>, g: nat, k: nat) {
    && |now| == |was| && g <= k <= |was|
    && forall h | 0 <= h < |was| :: if g <= h < k then now[h].ended else now[h] == was[h]
  }

  lemma FirstOrSkip(d: Devices, g: nat, s: State)
    requires Valid(d) && ValidState(s) && g < ENUM_MAX && StartedIsEnded(s.flags) && Foreign(d, s.info.cookie, g)
    ensures
      var r := EnumGroup(d, g, s);
      && EndedUpTo(s.flags, r.state.flags, g, g + 1) && StartedIsEnded(r.state.flags)
      && (if r.found then Active(d, g) else Foreign(d, r.state.info.cookie, g + 1))
  {
    if GetDev(d, g, 0) != NULL {
      assert ValidGroup(d.groups[g]);
      SlotIndex(d, g, 0);
    }
  }

  /** Once the cookie belongs to no group ahead, the groups end one after the other up to the first
      that returns a device. */
  lemma {:induction false} Cascade(d: Devices, g: nat, s: State) returns (k: nat)
    requires Valid(d) && ValidState(s) && g <= ENUM_MAX && StartedIsEnded(s.flags) && Foreign(d, s.info.cookie, g)
    ensures
      var r := EnumFrom(d, g, s);
      && EndedUpTo(s.flags, r.state.flags, g, k) && StartedIsEnded(r.state.flags)
      && (if r.found then k > g && Active(d, k - 1) else k == ENUM_MAX)
    decreases ENUM_MAX - g
  {
    k := g;
    if g < ENUM_MAX {
      FirstOrSkip(d, g, s);
      var r := EnumGroup(d, g, s);
      if r.found {
        k := g + 1;
      } else {
        k := Cascade(d, g + 1, r.state);
      }
    }
  }

  /** Behind the cookie: the last slot, one before it, or a cookie that no group ahead knows. */
  lemma NextOfGroup(d: Devices, g: nat, info: Info, i: nat, r: Found)
    requires Valid(d) && g < ENUM_MAX && info.cookie != NULL && TypeOf(d, info.cookie) == g
    requires i == IndexOf(d, g, info.cookie) + 1 && r == Get(d, g, false, info)
    ensures if r.found then r.more || EndsWithLast(d, g) else Foreign(d, r.info.cookie, g + 1)
  {
    var n := d.groups[g].maxDev;
    assert InGroup(d, g, info.cookie) && GetDev(d, g, i - 1) == info.cookie;
    if i < n {
      SlotIndex(d, g, i);
      if r.found && !r.more {
        assert i == n - 1 && ActiveAt(d, g, i);
      }
    }
  }

  /** The first open group: it may stay open, it may end with a device, or it passes a cookie on that
      no group ahead knows. */
  lemma AtFirstOpen(d: Devices, g: nat, s: State)
    requires Valid(d) && ValidState(s) && g < ENUM_MAX && StartedIsEnded(s.flags)
    requires s.info.cookie != NULL && !s.flags[g].ended
    ensures
      var r := EnumGroup(d, g, s);
      && StartedIsEnded(r.state.flags)
      && (forall h | 0 <= h < ENUM_MAX && h != g :: r.state.flags[h] == s.flags[h])
      && (if r.found then r.state.flags[g].ended ==> Active(d, g) || EndsWithLast(d, g)
          else Foreign(d, r.state.info.cookie, g + 1))
  {
    if TypeOf(d, s.info.cookie) == g {
      NextOfGroup(d, g, s.info, IndexOf(d, g, s.info.cookie) + 1, Get(d, g, false, s.info));
    } else {
      FirstOfUntouched(d, g, s);
    }
  }

  lemma FirstOfUntouched(d: Devices, g: nat, s: State)
    requires Valid(d) && ValidState(s) && g < ENUM_MAX && !s.flags[g].started && !s.flags[g].ended
    requires s.info.cookie != NULL && TypeOf(d, s.info.cookie) != g
    ensures var r := EnumGroup(d, g, s); if r.found then Active(d, g) else Foreign(d, r.state.info.cookie, g + 1)
  {
    if GetDev(d, g, 0) != NULL {
      assert ValidGroup(d.groups[g]);
      SlotIndex(d, g, 0);
    }
  }

  lemma OneEnds(d: Devices, was: seq<Flags>, now: seq<Flags>, g: nat)
    requires |d.groups| == ENUM_MAX && g < ENUM_MAX && Ordered(d, was)
    requires InFront(was, g) && |now| == ENUM_MAX && StartedIsEnded(now)
    requires forall h | 0 <= h < ENUM_MAX && h != g :: now[h] == was[h]
    requires now[g].ended ==> Active(d, g) || EndsWithLast(d, g)
    ensures Ordered(d, now)
  {
    assert !was[g].ended && (g > 0 ==> was[g - 1].ended);
    forall h | 0 <= h < ENUM_MAX && !now[h].ended && (h > 0 ==> now[h - 1].ended) ensures Enterable(d, h) {
      if h != g && h != g + 1 { assert !was[h].ended && (h > 0 ==> was[h - 1].ended); }
    }
  }

  lemma SomeEnd(d: Devices, was: seq<Flags>, mid: seq<Flags>, now: seq<Flags>, g: nat, k: nat)
    requires |d.groups| == ENUM_MAX && g < ENUM_MAX && Ordered(d, was)
    requires InFront(was, g) && |mid| == ENUM_MAX && StartedIsEnded(now)
    requires forall h | 0 <= h < ENUM_MAX && h != g :: mid[h] == was[h]
    requires EndedUpTo(mid, now, g + 1, k) && (k < ENUM_MAX ==> k > g + 1 && Active(d, k - 1))
    ensures Ordered(d, now)
  {
    assert !was[g].ended && (g > 0 ==> was[g - 1].ended);
    forall h | 0 <= h < ENUM_MAX && !now[h].ended && (h > 0 ==> now[h - 1].ended) ensures Enterable(d, h) {
      if h > k { assert now[h] == was[h] && now[h - 1] == was[h - 1]; }
    }
  }

  lemma {:induction false} FrontKeeps(d: Devices, g: nat, s: State)
    requires Valid(d) && g <= ENUM_MAX && ValidState(s) && s.info.cookie != NULL
    requires Ordered(d, s.flags) && forall h | 0 <= h < g :: s.flags[h].ended
    ensures Ordered(d, EnumFrom(d, g, s).state.flags)
    decreases ENUM_MAX - g
  {
    if g < ENUM_MAX {
      if s.flags[g].ended {
        FrontKeeps(d, g + 1, s);
      } else {
        AtFirstOpen(d, g, s);
        var r := EnumGroup(d, g, s);
        if r.found {
          OneEnds(d, s.flags, r.state.flags, g);
        } else {
          var k := Cascade(d, g + 1, r.state);
          SomeEnd(d, s.flags, r.state.flags, EnumFrom(d, g + 1, r.state).state.flags, g, k);
        }
      }
    }
  }

  lemma CallKeeps(d: Devices, s: State)
    requires Valid(d) && ValidState(s) && Ordered(d, s.flags)
    ensures Ordered(d, Enum(d, s).flags)
  {
    if s.info.cookie != NULL {
      FrontKeeps(d, 0, s);
    } else if d.net == NULL {
      var s1 := State(CLEAR, EnumNet(d, s.info));
      ClearIs(s1.flags);
      var k := Cascade(d, 0, s1);
      FromClear(d, s1.flags, EnumFrom(d, 0, s1).state.flags, k);
    } else {
      ClearOrdered(d, Enum(d, s).flags);
    }
  }

  lemma ClearOrdered(d: Devices, flags: seq<Flags>)
    requires |d.groups| == ENUM_MAX && flags == CLEAR
    ensures Ordered(d, flags)
  {
    ClearIs(flags);
    FromClear(d, flags, flags, 0);
  }

  lemma ClearIs(flags: seq<Flags>)
    requires flags == CLEAR
    ensures |flags| == ENUM_MAX && forall g | 0 <= g < ENUM_MAX :: flags[g] == Flags(false, false)
  {
  }

  lemma FromClear(d: Devices, was: seq<Flags>, now: seq<Flags>, k: nat)
    requires |d.groups| == ENUM_MAX && |was| == ENUM_MAX && forall g | 0 <= g < ENUM_MAX :: was[g] == Flags(false, false)
    requires EndedUpTo(was, now, 0, k) && StartedIsEnded(now) && (0 < k < ENUM_MAX ==> Active(d, k - 1))
    ensures Ordered(d, now)
  {
  }

  lemma {:induction false} CallsKeep(d: Devices, flags: seq<Flags>, infos: seq<Info>)
    requires Valid(d) && Ordered(d, flags)
    ensures Ordered(d, After(d, flags, infos))
    decreases |infos|
  {
    if infos != [] {
      CallKeeps(d, State(flags, infos[0]));
      CallsKeep(d, Enum(d, State(flags, infos[0])).flags, infos[1..]);
    }
  }

  /** Reachable flags are ordered. */
  lemma ReachableOrdered(d: Devices, flags: seq<Flags>)
    requires Valid(d) && Reachable(d, flags)
    ensures Ordered(d, flags)
  {
    var infos :| After(d, CLEAR, infos) == flags;
    ClearOrdered(d, CLEAR);
    CallsKeep(d, CLEAR, infos);
  }

  // ----- every enterable group is entered -----

  /** Exactly the groups before `g` are ended, and the others untouched. */
  predicate Exactly(flags: seq<Flags>, g: nat) {
    && |flags| == ENUM_MAX
    && forall h | 0 <= h < ENUM_MAX :: if h < g then flags[h].ended else flags[h] == Flags(false, false)
  }

  /** From group `g` on, a call stops at an active first slot at the latest. */
  lemma {:induction false} UpToActive(d: Devices, s: State, g: nat, h: nat) returns (next: nat)
    requires Valid(d) && ValidState(s) && g <= h < ENUM_MAX && Before(d, s, g) && Active(d, h)
    ensures
      var r := EnumFrom(d, g, s);
      r.found && g < next <= h + 1 && Before(d, r.state, next) && r.state.info.cookie != NULL
    decreases h - g
  {
    var r := EnumGroup(d, g, s);
    FirstTime(d, s, g);
    if r.found {
      next := g + 1;
    } else {
      next := UpToActive(d, r.state, g + 1, h);
    }
  }

  /** A client that feeds the cookies back ends the groups up to every active first slot. */
  lemma {:induction false} Advance(d: Devices, s: State, p: nat, g: nat) returns (infos: seq<Info>)
    requires Valid(d) && ValidState(s) && p <= g <= ENUM_MAX && Before(d, s, p) && s.info.cookie != NULL
    requires p < g ==> Active(d, g - 1)
    ensures Exactly(After(d, s.flags, infos), g)
    decreases g - p
  {
    infos := [];
    if p < g {
      SkipDone(d, s, 0, p);
      var next := UpToActive(d, s, p, g - 1);
      var rest := Advance(d, Enum(d, s), next, g);
      infos := [s.info] + rest;
      assert infos[1..] == rest;
    }
  }

  lemma ReachActive(d: Devices, g: nat) returns (infos: seq<Info>)
    requires Valid(d) && 0 < g <= ENUM_MAX && Active(d, g - 1)
    requires d.net != NULL ==> TypeOf(d, d.net) == ENUM_MAX
    ensures Exactly(After(d, CLEAR, infos), g)
  {
    var s := State(CLEAR, Info(NULL, 0, Details.Unset));
    var s1 := State(CLEAR, EnumNet(d, s.info));
    assert Before(d, s1, 0);
    var rest;
    if d.net != NULL {
      rest := Advance(d, Enum(d, s), 0, g);
    } else {
      var next := UpToActive(d, s1, 0, g - 1);
      rest := Advance(d, Enum(d, s), next, g);
    }
    infos := [s.info] + rest;
    assert infos[1..] == rest;
  }

  /** The cookie of the last slot but one. */
  lemma LastEnds(d: Devices, flags: seq<Flags>, g: nat, info: Info)
    requires Valid(d) && g < ENUM_MAX && EndsWithLast(d, g) && Exactly(flags, g)
    requires info.cookie == GetDev(d, g, d.groups[g].maxDev - 2)
    ensures Exactly(Enum(d, State(flags, info)).flags, g + 1)
  {
    SkipToOpen(d, State(flags, info), 0, g);
  }

  lemma {:induction false} SkipToOpen(d: Devices, s: State, h: nat, g: nat)
    requires |d.groups| == ENUM_MAX && ValidState(s) && h <= g <= ENUM_MAX && s.info.cookie != NULL
    requires forall k | 0 <= k < g :: s.flags[k].ended
    ensures EnumFrom(d, h, s) == EnumFrom(d, g, s)
    decreases g - h
  {
    if h < g {
      SkipToOpen(d, s, h + 1, g);
    }
  }

  lemma {:induction false} Reach(d: Devices, g: nat) returns (infos: seq<Info>)
    requires Valid(d) && g <= ENUM_MAX && Enterable(d, g)
    requires d.net != NULL ==> TypeOf(d, d.net) == ENUM_MAX
    ensures Exactly(After(d, CLEAR, infos), g)
    decreases g
  {
    infos := [];
    if g > 0 && Active(d, g - 1) {
      infos := ReachActive(d, g);
    } else if g > 0 {
      var rest := Reach(d, g - 1);
      var info := Info(GetDev(d, g - 1, d.groups[g - 1].maxDev - 2), 0, Details.Unset);
      infos := rest + [info];
      AfterSnoc(d, CLEAR, rest, info);
      LastEnds(d, After(d, CLEAR, rest), g - 1, info);
    }
  }

  /** All groups before a group can be ended while it is open exactly when it is enterable. */
  lemma EnterableIff(d: Devices, g: nat)
    requires Valid(d) && g < ENUM_MAX
    requires d.net != NULL ==> TypeOf(d, d.net) == ENUM_MAX
    ensures Enterable(d, g) <==> exists flags: seq<Flags> :: Reachable(d, flags) && InFront(flags, g)
  {
    if Enterable(d, g) {
      var infos := Reach(d, g);
      assert Reachable(d, After(d, CLEAR, infos)) && InFront(After(d, CLEAR, infos), g);
    }
    forall flags: seq<Flags> | Reachable(d, flags) && InFront(flags, g) ensures Enterable(d, g) {
      ReachableOrdered(d, flags);
      assert !flags[g].ended && (g > 0 ==> flags[g - 1].ended);
    }
  }
}
