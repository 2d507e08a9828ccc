/** The storage and device calls of the API, which keep the flags of the groups between calls. */
module Storage {
  import opened StorageProtocol
  import opened StorageRuns

  const API_OK: nat := 0
  const API_EINVAL: nat := 1
  const API_ENODEV: nat := 2
  const API_EBUSY: nat := 4
  const API_EIO: nat := 5

  /** The structure that the client owns and the calls fill in. */
  class DeviceInfo {
    var cookie: Pointer
    var kind: nat
    var details: Details
    var open: bool

    function Value(): Info
      reads this
    {
      Info(cookie, kind, details)
    }

    constructor (cookie: Pointer, kind: nat)
      ensures Value() == Info(cookie, kind, Unset) && !open
    {
      this.cookie, this.kind, details, open := cookie, kind, Details.Unset, false;
    }
  }

  /** What dev_read_stor asks of the driver of the device, if it asks at all. */
  datatype BlockRead = NoRead | BlockRead(dev: nat, start: nat, len: nat)

  /** The cookie is an active device of some group. */
  ghost predicate IsActiveDevice(d: Devices, dd: Pointer)
    requires |d.groups| == ENUM_MAX
  {
    exists g: nat, i: nat :: g < ENUM_MAX && ActiveAt(d, g, i) && GetDev(d, g, i) == dd
  }

  class Api {
    const d: Devices
    const specs: array<Flags>

    constructor (d: Devices)
      requires Valid(d)
      ensures this.d == d && fresh(specs) && Ready() && specs[..] == CLEAR
    {
      this.d := d;
      specs := new Flags[ENUM_MAX](_ => Flags(false, false));
    }

    ghost predicate Ready() { Valid(d) && specs.Length == ENUM_MAX }

    ghost function Now(di: DeviceInfo): State
      reads specs, di
    {
      State(specs[..], di.Value())
    }

    // ----- looking devices up -----

    method DevStorType(dd: Pointer) returns (t: nat)
      requires Ready()
      ensures t == TypeOf(d, dd)
    {
      t := 0;
      while t < ENUM_MAX
        invariant t <= ENUM_MAX && TypeFrom(d, dd, t) == TypeOf(d, dd)
      {
        var j := 0;
        while j < d.groups[t].maxDev
          invariant j <= d.groups[t].maxDev && IndexFrom(d, t, dd, j) == IndexOf(d, t, dd)
        {
          if dd == GetDev(d, t, j) {
            return t;
          }
          j := j + 1;
        }
        t := t + 1;
      }
    }

    method DevStorIsValid(g: nat, dd: Pointer) returns (valid: bool)
      requires Ready() && g < ENUM_MAX
      ensures valid == (InGroup(d, g, dd) && !d.desc(dd).unknown)
    {
      var i := 0;
      while i < d.groups[g].maxDev
        invariant i <= d.groups[g].maxDev
        invariant IndexFrom(d, g, dd, i) < d.groups[g].maxDev || d.desc(dd).unknown <==> InGroup(d, g, dd) || d.desc(dd).unknown
      {
        if dd == GetDev(d, g, i) {
          if !d.desc(dd).unknown {
            return true;
          }
        }
        i := i + 1;
      }
      return false;
    }

    method DevStorIndex(dd: Pointer) returns (index: nat)
      requires Ready() && TypeOf(d, dd) < ENUM_MAX
      ensures index == IndexOf(d, TypeOf(d, dd), dd)
    {
      var t := DevStorType(dd);
      index := 0;
      while index < d.groups[t].maxDev
        invariant index <= d.groups[t].maxDev && IndexFrom(d, t, dd, index) == IndexOf(d, t, dd)
      {
        if dd == GetDev(d, t, index) {
          return;
        }
        index := index + 1;
      }
    }

    // ----- enumeration -----

    method DevStorGet(g: nat, first: bool, di: DeviceInfo) returns (found: bool, more: bool)
      requires Ready() && g < ENUM_MAX
      modifies di
      ensures Found(found, more, di.Value()) == Get(d, g, first, old(di.Value()))
      ensures di.open == old(di.open)
    {
      found, more := false, false;
      if first {
        di.cookie := GetDev(d, g, 0);
        if di.cookie == NULL {
          return;
        }
        found := true;
      } else {
        var i := 0;
        while i < d.groups[g].maxDev
          invariant i <= d.groups[g].maxDev && di.Value() == old(di.Value()) && di.open == old(di.open)
          invariant !found && !more
          invariant IndexFrom(d, g, di.cookie, i) == IndexOf(d, g, di.cookie)
        {
          if di.cookie == GetDev(d, g, i) {
            i := i + 1;
            if i >= d.groups[g].maxDev {
              di.cookie := NULL;
              break;
            }
            di.cookie := GetDev(d, g, i);
            if di.cookie == NULL {
              return;
            }
            found := true;
            if i + 1 < d.groups[g].maxDev {
              more := true;
            }
            break;
          }
          i := i + 1;
        }
      }
      if found {
        di.kind := d.groups[g].kind;
        var dd := d.desc(di.cookie);
        if dd.unknown {
          found := false;
        } else {
          di.details := Stor(dd.lba, dd.blksz);
        }
      } else {
        di.cookie := NULL;
      }
    }

    method DevEnumStor(g: nat, di: DeviceInfo) returns (found: bool)
      requires Ready() && g < ENUM_MAX
      modifies specs, di
      ensures Step(Now(di), found) == EnumGroup(d, g, old(Now(di)))
      ensures di.open == old(di.open)
    {
      var more := false;
      if di.cookie == NULL {
        found, more := DevStorGet(g, true, di);
        specs[g] := specs[g].(started := true);
      } else {
        var t := DevStorType(di.cookie);
        if t == g {
          if specs[g].ended {
            return false;
          }
          found, more := DevStorGet(g, false, di);
        } else {
          if specs[g].ended {
            return false;
          }
          if !specs[g].started {
            specs[g] := specs[g].(started := true);
            found, more := DevStorGet(g, true, di);
          } else {
            found, more := false, false;
          }
        }
      }
      specs[g] := specs[g].(ended := !more);
    }

    method DevEnumReset()
      requires Ready()
      modifies specs
      ensures specs[..] == CLEAR
    {
      for i := 0 to ENUM_MAX
        invariant forall k | 0 <= k < i :: specs[k] == Flags(false, false)
      {
        specs[i] := Flags(false, false);
      }
    }

    method DevEnumStorage(di: DeviceInfo) returns (found: bool)
      requires Ready()
      modifies specs, di
      ensures Step(Now(di), found) == EnumFrom(d, 0, old(Now(di)))
      ensures di.open == old(di.open)
    {
      var i := 0;
      while i < ENUM_MAX
        invariant i <= ENUM_MAX && di.open == old(di.open)
        invariant EnumFrom(d, i, Now(di)) == EnumFrom(d, 0, old(Now(di)))
      {
        found := DevEnumStor(i, di);
        if found {
          return;
        }
        i := i + 1;
      }
      return false;
    }

    method DevEnumNet(di: DeviceInfo) returns (found: bool)
      modifies di
      ensures di.Value() == EnumNet(d, old(di.Value())) && di.open == old(di.open)
      ensures di.kind == DEV_TYP_NET && di.cookie == d.net
      ensures di.details == if d.net == NULL then old(di.details) else Net(d.hwaddr)
      ensures found == (d.net != NULL)
    {
      di.kind := DEV_TYP_NET;
      di.cookie := d.net;
      if di.cookie == NULL {
        return false;
      }
      di.details := Net(d.hwaddr);
      return true;
    }

    method ApiDevEnum(di: DeviceInfo?) returns (err: nat)
      requires Ready()
      modifies if di == null then {} else {di, specs}
      ensures err == if di == null then API_EINVAL else API_OK
      ensures di != null ==> Now(di) == Enum(d, old(Now(di))) && di.open == old(di.open)
    {
      if di == null {
        return API_EINVAL;
      }
      if di.cookie == NULL {
        DevEnumReset();
        var net := DevEnumNet(di);
        if net {
          return API_OK;
        }
      }
      var found := DevEnumStorage(di);
      if !found {
        di.cookie := NULL;
      }
      return API_OK;
    }

    // ----- opening and reading -----

    method DevOpenStor(cookie: Pointer) returns (err: nat)
      requires Ready() && cookie != NULL
      ensures err == if IsActiveDevice(d, cookie) then API_OK else API_ENODEV
    {
      ActiveIff(d, cookie);
      var t := DevStorType(cookie);
      if t == ENUM_MAX {
        return API_ENODEV;
      }
      var valid := DevStorIsValid(t, cookie);
      return if valid then API_OK else API_ENODEV;
    }

    method DevOpenNet(cookie: Pointer, ethInit: int) returns (err: nat)
      ensures err == if d.net != cookie then API_ENODEV else if ethInit < 0 then API_EIO else API_OK
    {
      if d.net != cookie {
        return API_ENODEV;
      }
      return if ethInit < 0 then API_EIO else API_OK;
    }

    /** `ethInit` is what starting the network device returns. */
    method ApiDevOpen(di: DeviceInfo?, ethInit: int) returns (err: nat)
      requires Ready()
      modifies di
      ensures di == null ==> err == API_EINVAL
      ensures di != null ==>
        && di.Value() == old(di.Value())
        && di.open == (old(di.open) || err == API_OK)
        && err == if old(di.open) then API_EBUSY
                  else if di.cookie == NULL then API_ENODEV
                  else if IsStorKind(di.kind) then (if IsActiveDevice(d, di.cookie) then API_OK else API_ENODEV)
                  else if !IsNetKind(di.kind) || di.cookie != d.net then API_ENODEV
                  else if ethInit < 0 then API_EIO else API_OK
    {
      if di == null {
        return API_EINVAL;
      }
      if di.open {
        return API_EBUSY;
      }
      if di.cookie == NULL {
        return API_ENODEV;
      }
      if IsStorKind(di.kind) {
        err := DevOpenStor(di.cookie);
      } else if IsNetKind(di.kind) {
        err := DevOpenNet(di.cookie, ethInit);
      } else {
        err := API_ENODEV;
      }
      if err == API_OK {
        di.open := true;
      }
    }

    /** The driver is asked for an active device that can be read, with the index of a slot that
        holds it. */
    method DevReadStor(cookie: Pointer, len: nat, start: nat) returns (read: BlockRead)
      requires Ready() && cookie != NULL
      ensures read.BlockRead? <==> IsActiveDevice(d, cookie) && d.desc(cookie).blockRead
      ensures read.BlockRead? ==>
        && read.start == start && read.len == len
        && TypeOf(d, cookie) < ENUM_MAX && read.dev < d.groups[TypeOf(d, cookie)].maxDev
        && GetDev(d, TypeOf(d, cookie), read.dev) == cookie
    {
      ActiveIff(d, cookie);
      var t := DevStorType(cookie);
      if t == ENUM_MAX {
        return NoRead;
      }
      var valid := DevStorIsValid(t, cookie);
      if !valid {
        return NoRead;
      }
      if !d.desc(cookie).blockRead {
        return NoRead;
      }
      var index := DevStorIndex(cookie);
      return BlockRead(index, start, len);
    }
  }

  lemma ActiveIff(d: Devices, dd: Pointer)
    requires |d.groups| == ENUM_MAX && dd != NULL
    ensures IsActiveDevice(d, dd) <==> TypeOf(d, dd) < ENUM_MAX && !d.desc(dd).unknown
  {
    var t := TypeOf(d, dd);
    if t < ENUM_MAX && !d.desc(dd).unknown {
      assert ActiveAt(d, t, IndexOf(d, t, dd));
    }
    if IsActiveDevice(d, dd) {
      var g: nat, i: nat :| g < ENUM_MAX && ActiveAt(d, g, i) && GetDev(d, g, i) == dd;
      SlotIndex(d, g, i);
    }
  }

  // ----- enumerating, opening and reading agree -----

  /** Whatever the client passed: the storage cookie it gets back can be opened, and when no device
      stands in two places its only slot is the one that the driver is asked to read. */
  lemma EnumeratedCanBeOpened(d: Devices, s: State)
    requires Valid(d) && ValidState(s)
    requires var info := Enum(d, s).info; info.cookie != NULL && IsStorKind(info.kind)
    ensures IsActiveDevice(d, Enum(d, s).info.cookie)
    ensures Disjoint(d) ==>
      exists i :: Answers(d, Enum(d, s).info, TypeOf(d, Enum(d, s).info.cookie), i)
                  && forall g, j: nat | 0 <= g < ENUM_MAX && GetDev(d, g, j) == Enum(d, s).info.cookie ::
                       g == TypeOf(d, Enum(d, s).info.cookie) && j == i
  {
    EnumAnswers(d, s);
    var info := Enum(d, s).info;
    var g, i :| Answers(d, info, g, i);
    assert ActiveAt(d, g, i);
    if Disjoint(d) {
      SlotIndex(d, g, i);
      var t := TypeOf(d, info.cookie);
      assert GetDev(d, t, IndexOf(d, t, info.cookie)) == info.cookie;
    }
  }
}
