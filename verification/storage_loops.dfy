/** When every enumeration run ends: the exact condition on the device tables. */
module StorageLoops {
  import opened StorageProtocol
  import opened StorageRuns
  import opened StorageReachable

  /** The slot holds an active device that no earlier slot and no earlier group holds. */
  predicate Own(d: Devices, g: nat, m: nat)
    requires |d.groups| == ENUM_MAX && g < ENUM_MAX
  {
    ActiveAt(d, g, m) && IndexOf(d, g, GetDev(d, g, m)) == m && TypeOf(d, GetDev(d, g, m)) == g
  }

  /** The slots from `j` to `k` are their own, the slot behind `k` holds the device of slot `j`
      again, and it is not the last one. */
  predicate Loops(d: Devices, g: nat, j: nat, k: nat)
    requires |d.groups| == ENUM_MAX
  {
    && g < ENUM_MAX && j <= k && k + 2 < d.groups[g].maxDev
    && (forall m | j <= m <= k :: Own(d, g, m))
    && GetDev(d, g, k + 1) == GetDev(d, g, j)
  }

  ghost predicate HasLoop(d: Devices)
    requires |d.groups| == ENUM_MAX
  {
    exists g: nat, j: nat, k: nat :: Loops(d, g, j, k)
  }

  ghost predicate LoopFree(d: Devices, g: nat)
    requires |d.groups| == ENUM_MAX
  {
    forall j: nat, k: nat :: !Loops(d, g, j, k)
  }

  /** No group that can be entered with reachable flags has a loop. */
  ghost predicate EnterableLoopFree(d: Devices)
    requires |d.groups| == ENUM_MAX
  {
    forall g: nat | g < ENUM_MAX && Enterable(d, g) :: LoopFree(d, g)
  }

  /** Without duplicates there is no loop. */
  lemma DistinctLoopFree(d: Devices)
    requires Valid(d) && DistinctSlots(d)
    ensures !HasLoop(d)
  {
    if HasLoop(d) {
      var g: nat, j: nat, k: nat :| Loops(d, g, j, k);
      assert Own(d, g, j);
      DistinctIndex(d, g, k + 1);
      DistinctIndex(d, g, j);
      assert false;
    }
  }

  // ----- without a loop every run ends -----

  /** Where the stretch of own slots that reaches up to `i` starts; behind `i` when that is not own. */
  function Block(d: Devices, g: nat, i: nat): (r: nat)
    requires |d.groups| == ENUM_MAX && g < ENUM_MAX
    ensures r <= i + 1 && (Own(d, g, i) ==> r <= i && forall m | r <= m <= i :: Own(d, g, m))
  {
    if !Own(d, g, i) then i + 1
    else if i > 0 && Own(d, g, i - 1) then Block(d, g, i - 1)
    else i
  }

  function Rank(d: Devices, s: State): nat
    requires |d.groups| == ENUM_MAX && ValidState(s)
  {
    var t := TypeOf(d, s.info.cookie);
    if t < ENUM_MAX && !s.flags[t].ended then Block(d, t, IndexOf(d, t, s.info.cookie)) else 0
  }

  predicate Lower(r': nat, l': nat, r: nat, l: nat) { r' < r || (r' == r && l' < l) }

  /** The next slot of the same group: one place further in its stretch, or in an earlier stretch. */
  lemma NextSlot(d: Devices, t: nat, i: nat, i': nat)
    requires Valid(d) && t < ENUM_MAX && LoopFree(d, t)
    requires i + 2 < d.groups[t].maxDev && ActiveAt(d, t, i + 1)
    requires TypeOf(d, GetDev(d, t, i + 1)) == t && i' == IndexOf(d, t, GetDev(d, t, i + 1))
    ensures i' < d.groups[t].maxDev
    ensures Lower(Block(d, t, i'), d.groups[t].maxDev - i', Block(d, t, i), d.groups[t].maxDev - i)
  {
    SlotIndex(d, t, i + 1);
    assert GetDev(d, t, i') == GetDev(d, t, i + 1) && Own(d, t, i');
    if i' <= i && Block(d, t, i) <= i' {
      assert Loops(d, t, i', i);
    }
  }

  lemma StepFalls(d: Devices, s: State)
    requires Valid(d) && ValidState(s) && s.info.cookie != NULL
    requires Enum(d, s).info.cookie != NULL && Enum(d, s).flags == s.flags
    requires forall g: nat | InFront(s.flags, g) :: LoopFree(d, g)
    ensures Lower(Rank(d, Enum(d, s)), Left(d, Enum(d, s)), Rank(d, s), Left(d, s))
  {
    OnlyContinues(d, 0, s);
    var t := TypeOf(d, s.info.cookie);
    assert InFront(s.flags, t);
    ContinuedFalls(d, s, Enum(d, s), t, IndexOf(d, t, s.info.cookie));
  }

  lemma ContinuedFalls(d: Devices, s: State, s': State, t: nat, i: nat)
    requires Valid(d) && ValidState(s) && s.info.cookie != NULL && InFront(s.flags, t) && LoopFree(d, t)
    requires t == TypeOf(d, s.info.cookie) && i == IndexOf(d, t, s.info.cookie) && s'.flags == s.flags
    requires Get(d, t, false, s.info).found && Get(d, t, false, s.info).more && s'.info == Get(d, t, false, s.info).info
    ensures Lower(Rank(d, s'), Left(d, s'), Rank(d, s), Left(d, s))
  {
    RankIs(d, s, t, i);
    SlotIndex(d, t, i + 1);
    var t' := TypeOf(d, GetDev(d, t, i + 1));
    var i' := IndexOf(d, t', GetDev(d, t, i + 1));
    if t' == t {
      NextSlot(d, t, i, i');
      RankIs(d, s', t, i');
    }
  }

  lemma RankIs(d: Devices, s: State, t: nat, i: nat)
    requires |d.groups| == ENUM_MAX && ValidState(s) && t < ENUM_MAX && !s.flags[t].ended
    requires t == TypeOf(d, s.info.cookie) && i == IndexOf(d, t, s.info.cookie)
    ensures Rank(d, s) == Block(d, t, i) && Left(d, s) == d.groups[t].maxDev - i > 0
  {
  }

  /** The group in front has no loop, now and after every call. */
  ghost predicate Guarded(d: Devices, flags: seq<Flags>)
    requires |d.groups| == ENUM_MAX
  {
    !HasLoop(d) || (Ordered(d, flags) && EnterableLoopFree(d))
  }

  lemma GuardedFront(d: Devices, flags: seq<Flags>, g: nat)
    requires |d.groups| == ENUM_MAX && Guarded(d, flags) && InFront(flags, g)
    ensures LoopFree(d, g)
  {
    assert !flags[g].ended && (g > 0 ==> flags[g - 1].ended);
  }

  ghost predicate Ends(d: Devices, s: State)
    requires |d.groups| == ENUM_MAX && ValidState(s)
  {
    exists cookies :: IsRun(d, s, cookies)
  }

  /** From any such flags and any cookie. */
  lemma {:induction false} LoopFreeEnds(d: Devices, s: State)
    requires Valid(d) && Guarded(d, s.flags) && ValidState(s) && s.info.cookie != NULL
    ensures Ends(d, s)
    decreases StorageRuns.Unset(s.flags), Rank(d, s), Left(d, s)
  {
    var r := Enum(d, s);
    if r.info.cookie == NULL {
      assert IsRun(d, s, []);
    } else {
      EnumGrows(d, s);
      UnsetFalls(s.flags, r.flags);
      if r.flags == s.flags {
        forall g: nat | InFront(s.flags, g) ensures LoopFree(d, g) { GuardedFront(d, s.flags, g); }
        StepFalls(d, s);
      }
      if HasLoop(d) { CallKeeps(d, s); }
      LoopFreeEnds(d, r);
      var rest :| IsRun(d, r, rest);
      assert ([r.info.cookie] + rest)[1..] == rest;
      assert IsRun(d, s, [r.info.cookie] + rest);
    }
  }

  // ----- with a loop some run does not -----

  /** A call inside the loop stays inside it. */
  lemma LoopStep(d: Devices, s: State, g: nat, j: nat, k: nat, m: nat)
    requires Valid(d) && ValidState(s) && Loops(d, g, j, k) && InFront(s.flags, g)
    requires j <= m <= k && s.info.cookie == GetDev(d, g, m)
    ensures Enum(d, s).flags == s.flags && Enum(d, s).info.cookie == GetDev(d, g, m + 1) != NULL
  {
    assert Own(d, g, m) && Own(d, g, j);
    if m < k { assert Own(d, g, m + 1); }
    SkipToOpen(d, s, 0, g);
    assert EnumGroup(d, g, s).state.flags == s.flags;
  }

  lemma {:induction false} LoopNeverEnds(d: Devices, s: State, g: nat, j: nat, k: nat, m: nat, cookies: seq<Pointer>)
    requires Valid(d) && ValidState(s) && Loops(d, g, j, k) && InFront(s.flags, g)
    requires j <= m <= k && s.info.cookie == GetDev(d, g, m)
    ensures !IsRun(d, s, cookies)
    decreases cookies
  {
    LoopStep(d, s, g, j, k, m);
    if cookies != [] {
      LoopNeverEnds(d, Enum(d, s), g, j, k, if m < k then m + 1 else j, cookies[1..]);
    }
  }

  /** The loop of a group, with flags that open it. */
  lemma LoopHangs(d: Devices, flags: seq<Flags>, g: nat, j: nat, k: nat) returns (s: State)
    requires Valid(d) && Loops(d, g, j, k) && InFront(flags, g)
    ensures s.flags == flags && s.info.cookie != NULL && ValidState(s) && !Ends(d, s)
  {
    assert Own(d, g, j);
    s := State(flags, Info(GetDev(d, g, j), 0, Details.Unset));
    forall cookies ensures !IsRun(d, s, cookies) {
      LoopNeverEnds(d, s, g, j, k, j, cookies);
    }
  }

  /** Every run from a cookie ends, whatever the flags and the cookie, exactly when no group leads
      back from a slot before its last to an own slot. */
  lemma EveryRunEndsIff(d: Devices)
    requires Valid(d)
    ensures (forall s | ValidState(s) && s.info.cookie != NULL :: Ends(d, s)) <==> !HasLoop(d)
  {
    if !HasLoop(d) {
      forall s | ValidState(s) && s.info.cookie != NULL ensures Ends(d, s) {
        LoopFreeEnds(d, s);
      }
    } else {
      var g: nat, j: nat, k: nat :| Loops(d, g, j, k);
      var s := LoopHangs(d, seq(ENUM_MAX, h => Flags(true, h != g)), g, j, k);
      assert !Ends(d, s);
    }
  }

  /** The same over the flags that calls can leave: then the loop has to be in a group that can be
      entered, which is one whose predecessor can end with a device. */
  lemma ReachableRunsEndIff(d: Devices)
    requires Valid(d)
    requires d.net != NULL ==> TypeOf(d, d.net) == ENUM_MAX
    ensures (forall s | ValidState(s) && Reachable(d, s.flags) && s.info.cookie != NULL :: Ends(d, s)) <==>
              EnterableLoopFree(d)
  {
    if EnterableLoopFree(d) {
      forall s | ValidState(s) && Reachable(d, s.flags) && s.info.cookie != NULL ensures Ends(d, s) {
        ReachableOrdered(d, s.flags);
        LoopFreeEnds(d, s);
      }
    } else {
      var g: nat :| g < ENUM_MAX && Enterable(d, g) && !LoopFree(d, g);
      var j: nat, k: nat :| Loops(d, g, j, k);
      var infos := Reach(d, g);
      var s := LoopHangs(d, After(d, CLEAR, infos), g, j, k);
      assert Reachable(d, s.flags) && !Ends(d, s);
    }
  }

  /** The slots A, A, B make a loop, and the slots A, A do not. */
  lemma LoopExamples(d: Devices, a: Pointer, b: Pointer)
    requires Valid(d) && a != NULL && b != NULL && a != b && !d.desc(a).unknown
    ensures d.groups[0].maxDev == 3 && d.groups[0].slots == [a, a, b] ==> HasLoop(d)
    ensures d.groups[0].maxDev == 2 && d.groups[0].slots == [a, a] ==> forall j: nat, k: nat :: !Loops(d, 0, j, k)
  {
    if d.groups[0].maxDev == 3 && d.groups[0].slots == [a, a, b] {
      assert GetDev(d, 0, 0) == a && GetDev(d, 0, 1) == a;
      SlotIndex(d, 0, 0);
      assert Loops(d, 0, 0, 0);
    }
  }

  lemma EmptyLoopFree(d: Devices, g: nat)
    requires |d.groups| == ENUM_MAX && g < ENUM_MAX && d.groups[g].slots == []
    ensures LoopFree(d, g)
  {
    forall j: nat, k: nat ensures !Loops(d, g, j, k) {
      assert !Own(d, g, j);
    }
  }

  /** Behind an empty group the slots A, A, B are a loop that no client enters. */
  lemma LoopNotEntered(d: Devices, a: Pointer, b: Pointer)
    requires Valid(d) && a != NULL && b != NULL && a != b && !d.desc(a).unknown
    requires d.groups[1].maxDev == 3 && d.groups[1].slots == [a, a, b]
    requires forall g | 0 <= g < ENUM_MAX && g != 1 :: d.groups[g].slots == []
    ensures HasLoop(d) && EnterableLoopFree(d)
  {
    assert GetDev(d, 1, 0) == a && GetDev(d, 1, 1) == a;
    SlotIndex(d, 1, 0);
    assert !InGroup(d, 0, a);
    assert Loops(d, 1, 0, 0);
    assert !Enterable(d, 1);
    forall g: nat | g < ENUM_MAX && g != 1 ensures LoopFree(d, g) { EmptyLoopFree(d, g); }
  }
}
