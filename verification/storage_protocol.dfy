/** The device enumeration protocol as a state machine: the client hands back the cookie it was given
    last, and the groups of storage devices remember where their enumeration stands. */
module StorageProtocol {

  /** Addresses of device structures; they double as cookies. */
  type Pointer = nat
  const NULL: Pointer := 0

  /** The groups are IDE, USB, SCSI, MMC and SATA, in this order. */
  const ENUM_MAX: nat := 5

  const DEV_TYP_NET: nat := 0x1
  const DEV_TYP_STOR: nat := 0x2

  /** `kind & DEV_TYP_STOR` */
  predicate IsStorKind(kind: nat) { kind / DEV_TYP_STOR % 2 == 1 }

  /** `kind & DEV_TYP_NET` */
  predicate IsNetKind(kind: nat) { kind / DEV_TYP_NET % 2 == 1 }

  datatype Desc = Desc(unknown: bool, lba: nat, blksz: nat, blockRead: bool)

  /** A group of the table `specs`, without its flags, and the devices that get_dev has for it. */
  datatype Group = Group(maxDev: nat, kind: nat, slots: seq<Pointer>)

  datatype Devices = Devices(groups: seq<Group>, desc: Pointer -> Desc, net: Pointer, hwaddr: seq<nat>)

  /** get_dev has no device past `max_dev`, and a group with room for devices has been initialised. */
  predicate ValidGroup(g: Group) {
    |g.slots| <= g.maxDev && (g.maxDev > 0 ==> IsStorKind(g.kind))
  }

  predicate Valid(d: Devices) {
    |d.groups| == ENUM_MAX && forall g | 0 <= g < ENUM_MAX :: ValidGroup(d.groups[g])
  }

  function GetDev(d: Devices, g: nat, i: nat): Pointer
    requires g < |d.groups|
  {
    if i < |d.groups[g].slots| then d.groups[g].slots[i] else NULL
  }

  // ----- searching the groups -----

  /** The first slot from `i` on that holds the device, or `maxDev`. */
  function IndexFrom(d: Devices, g: nat, dd: Pointer, i: nat): (r: nat)
    requires g < |d.groups| && i <= d.groups[g].maxDev
    ensures i <= r <= d.groups[g].maxDev
    ensures r < d.groups[g].maxDev ==> GetDev(d, g, r) == dd
    ensures forall j | i <= j < r :: GetDev(d, g, j) != dd
    decreases d.groups[g].maxDev - i
  {
    if i == d.groups[g].maxDev || GetDev(d, g, i) == dd then i else IndexFrom(d, g, dd, i + 1)
  }

  function IndexOf(d: Devices, g: nat, dd: Pointer): nat
    requires g < |d.groups|
  {
    IndexFrom(d, g, dd, 0)
  }

  predicate InGroup(d: Devices, g: nat, dd: Pointer)
    requires g < |d.groups|
  {
    IndexOf(d, g, dd) < d.groups[g].maxDev
  }

  /** dev_stor_type: the first group that has the device, or ENUM_MAX. */
  function TypeFrom(d: Devices, dd: Pointer, g: nat): (r: nat)
    requires |d.groups| == ENUM_MAX && g <= ENUM_MAX
    ensures g <= r <= ENUM_MAX
    ensures r < ENUM_MAX ==> InGroup(d, r, dd)
    ensures forall k | g <= k < r :: !InGroup(d, k, dd)
    decreases ENUM_MAX - g
  {
    if g == ENUM_MAX || InGroup(d, g, dd) then g else TypeFrom(d, dd, g + 1)
  }

  function TypeOf(d: Devices, dd: Pointer): (r: nat)
    requires |d.groups| == ENUM_MAX
  {
    TypeFrom(d, dd, 0)
  }

  // ----- one call -----

  datatype Details = Unset | Stor(blockCount: nat, blockSize: nat) | Net(hwaddr: seq<nat>)

  /** What the client passes in and gets back. */
  datatype Info = Info(cookie: Pointer, kind: nat, details: Details)

  datatype Flags = Flags(started: bool, ended: bool)

  datatype Found = Found(found: bool, more: bool, info: Info)

  /** The end of dev_stor_get, for a device that exists. */
  function Describe(d: Devices, g: nat, info: Info, more: bool): Found
    requires g < |d.groups|
  {
    var dd := d.desc(info.cookie);
    if dd.unknown then Found(false, more, info.(kind := d.groups[g].kind))
    else Found(true, more, Info(info.cookie, d.groups[g].kind, Stor(dd.lba, dd.blksz)))
  }

  /** dev_stor_get: the first device of the group, or the one behind the cookie. */
  function Get(d: Devices, g: nat, first: bool, info: Info): Found
    requires g < |d.groups|
  {
    var i := if first then 0 else IndexOf(d, g, info.cookie) + 1;
    if !first && i >= d.groups[g].maxDev then Found(false, false, info.(cookie := NULL))
    else if GetDev(d, g, i) == NULL then Found(false, false, info.(cookie := NULL))
    else Describe(d, g, info.(cookie := GetDev(d, g, i)), !first && i + 1 < d.groups[g].maxDev)
  }

  datatype State = State(flags: seq<Flags>, info: Info)

  datatype Step = Step(state: State, found: bool)

  predicate ValidState(s: State) { |s.flags| == ENUM_MAX }

  /** dev_enum_stor */
  function EnumGroup(d: Devices, g: nat, s: State): (r: Step)
    requires |d.groups| == ENUM_MAX && g < ENUM_MAX && ValidState(s)
    ensures ValidState(r.state)
  {
    var f := s.flags[g];
    if s.info.cookie == NULL then
      var r := Get(d, g, true, s.info);
      Step(State(s.flags[g := Flags(true, !r.more)], r.info), r.found)
    else if f.ended then Step(s, false)
    else if TypeOf(d, s.info.cookie) == g then
      var r := Get(d, g, false, s.info);
      Step(State(s.flags[g := Flags(f.started, !r.more)], r.info), r.found)
    else if !f.started then
      var r := Get(d, g, true, s.info);
      Step(State(s.flags[g := Flags(true, !r.more)], r.info), r.found)
    else Step(s.(flags := s.flags[g := Flags(true, true)]), false)
  }

  /** dev_enum_storage, from group `g` on. */
  function EnumFrom(d: Devices, g: nat, s: State): (r: Step)
    requires |d.groups| == ENUM_MAX && g <= ENUM_MAX && ValidState(s)
    ensures ValidState(r.state)
    decreases ENUM_MAX - g
  {
    if g == ENUM_MAX then Step(s, false)
    else
      var r := EnumGroup(d, g, s);
      if r.found then r else EnumFrom(d, g + 1, r.state)
  }

  const CLEAR: seq<Flags> := [Flags(false, false), Flags(false, false), Flags(false, false), Flags(false, false), Flags(false, false)]

  /** dev_enum_net */
  function EnumNet(d: Devices, info: Info): Info {
    Info(d.net, DEV_TYP_NET, if d.net == NULL then info.details else Net(d.hwaddr))
  }

  /** The storage part of API_dev_enum. */
  function EnumStorage(d: Devices, s: State): (r: State)
    requires |d.groups| == ENUM_MAX && ValidState(s)
    ensures ValidState(r)
  {
    var r := EnumFrom(d, 0, s);
    if r.found then r.state else r.state.(info := r.state.info.(cookie := NULL))
  }

  /** API_dev_enum */
  function Enum(d: Devices, s: State): (r: State)
    requires |d.groups| == ENUM_MAX && ValidState(s)
    ensures ValidState(r)
  {
    if s.info.cookie != NULL then EnumStorage(d, s)
    else
      var s1 := State(CLEAR, EnumNet(d, s.info));
      if d.net != NULL then s1 else EnumStorage(d, s1)
  }

  // ----- what a returned cookie is -----

  /** The cookie is an active device in a slot of a group, and the rest of the answer is about it. */
  ghost predicate Answers(d: Devices, info: Info, g: nat, i: nat)
    requires |d.groups| == ENUM_MAX
  {
    && g < ENUM_MAX && i < d.groups[g].maxDev
    && info.cookie == GetDev(d, g, i) != NULL
    && !d.desc(info.cookie).unknown
    && info.kind == d.groups[g].kind && IsStorKind(info.kind)
    && info.details == Stor(d.desc(info.cookie).lba, d.desc(info.cookie).blksz)
  }

  ghost predicate Answer(d: Devices, info: Info)
    requires |d.groups| == ENUM_MAX
  {
    exists g, i :: Answers(d, info, g, i)
  }

  lemma GetAnswers(d: Devices, g: nat, first: bool, info: Info)
    requires Valid(d) && g < ENUM_MAX && Get(d, g, first, info).found
    ensures Answer(d, Get(d, g, first, info).info)
  {
    var i := if first then 0 else IndexOf(d, g, info.cookie) + 1;
    assert ValidGroup(d.groups[g]);
    assert Answers(d, Get(d, g, first, info).info, g, i);
  }

  lemma {:induction false} EnumFromAnswers(d: Devices, g: nat, s: State)
    requires Valid(d) && g <= ENUM_MAX && ValidState(s) && EnumFrom(d, g, s).found
    ensures Answer(d, EnumFrom(d, g, s).state.info)
    decreases ENUM_MAX - g
  {
    var r := EnumGroup(d, g, s);
    if r.found {
      if s.info.cookie == NULL || TypeOf(d, s.info.cookie) != g {
        GetAnswers(d, g, true, s.info);
      } else {
        GetAnswers(d, g, false, s.info);
      }
    } else {
      EnumFromAnswers(d, g + 1, r.state);
    }
  }

  /** Whatever the flags and whatever cookie the client passes: a cookie that comes back is the
      network device, at the start of an enumeration only, or an active storage device whose type,
      block count and block size come with it. */
  lemma EnumAnswers(d: Devices, s: State)
    requires Valid(d) && ValidState(s) && Enum(d, s).info.cookie != NULL
    ensures
      var info := Enum(d, s).info;
      Answer(d, info) || (s.info.cookie == NULL && info == Info(d.net, DEV_TYP_NET, Net(d.hwaddr)))
  {
    if s.info.cookie != NULL {
      EnumFromAnswers(d, 0, s);
    } else if d.net == NULL {
      EnumFromAnswers(d, 0, State(CLEAR, EnumNet(d, s.info)));
    }
  }

  // ----- the flags -----

  /** Flags are only ever set. */
  predicate Grown(a: seq<Flags>, b: seq<Flags>) {
    |a| == |b| && forall g | 0 <= g < |a| :: (a[g].started ==> b[g].started) && (a[g].ended ==> b[g].ended)
  }

  lemma GroupGrows(d: Devices, g: nat, s: State)
    requires |d.groups| == ENUM_MAX && g < ENUM_MAX && ValidState(s)
    ensures Grown(s.flags, EnumGroup(d, g, s).state.flags)
  {
  }

  lemma {:induction false} EnumFromGrows(d: Devices, g: nat, s: State)
    requires |d.groups| == ENUM_MAX && g <= ENUM_MAX && ValidState(s)
    ensures Grown(s.flags, EnumFrom(d, g, s).state.flags)
    decreases ENUM_MAX - g
  {
    if g < ENUM_MAX && !EnumGroup(d, g, s).found {
      GroupGrows(d, g, s);
      EnumFromGrows(d, g + 1, EnumGroup(d, g, s).state);
    }
  }

  /** Between resets, that is as long as the client passes a cookie, flags are only set. */
  lemma EnumGrows(d: Devices, s: State)
    requires |d.groups| == ENUM_MAX && ValidState(s) && s.info.cookie != NULL
    ensures Grown(s.flags, Enum(d, s).flags)
  {
    EnumFromGrows(d, 0, s);
  }
}
