/** What claims and releases do to the five views of the devices, and what keeps them in agreement. */
module DeviceState {
  import opened Wrappers
  import opened Decimal
  import opened RegistryText
  import opened DeviceRegistry
  import opened UsbWorld

  datatype Descriptor = Descriptor(
    deviceId: string,
    vendorId: Word,
    productId: Word,
    interfaceNumber: int32,
    kernelDriverAttached: bool,
    handle: Handle,
    ownerPid: int32)

  datatype DeviceInfo = DeviceInfo(
    deviceId: string,
    handle: Handle,
    interfaceNumber: int32,
    kernelDriverAttached: bool,
    ownerPid: int32)

  datatype Code =
    | SUCCESS
    | INVALID_MESSAGE
    | DEVICE_NOT_FOUND
    | ITEM_NOT_AVAILABLE
    | PERMISSION_DENIED

  /** The five views: descriptors, claims, the registry file, the core's owners, the USB world. */
  datatype State = State(
    available: map<string, Descriptor>,
    claimed: map<string, DeviceInfo>,
    file: Option<string>,
    owners: Option<map<string, string>>,   // None without an ownership registry
    world: World)

  /** The process and module the handler works for. */
  datatype Self = Self(pid: int32, moduleName: string)

  // ----- Discovery

  function Listed(dev: BusDevice): Descriptor {
    Descriptor(IdOf(dev.location), dev.vendorId, dev.productId, 0, false, NULL, 0)
  }

  /** The descriptors after a scan: every known one as it was, each new HID device once. */
  function Discovered(available: map<string, Descriptor>, list: seq<BusDevice>): map<string, Descriptor>
    decreases |list|
  {
    if list == [] then available
    else
      var dev, id := list[0], IdOf(list[0].location);
      var available' := if dev.isHid && dev.descriptorRead && id !in available
                        then available[id := Listed(dev)] else available;
      Discovered(available', list[1..])
  }

  function AfterDiscovery(s: State, list: seq<BusDevice>): State {
    s.(available := Discovered(s.available, list))
  }

  predicate Usable(dev: BusDevice) {
    dev.isHid && dev.descriptorRead
  }

  /** What a device just found is listed as: its ids as read, unclaimed, on its first interface. */
  lemma ListedIs(dev: BusDevice)
    ensures var d := Listed(dev);
            && d.deviceId == IdOf(dev.location) && d.vendorId == dev.vendorId && d.productId == dev.productId
            && d.interfaceNumber == 0 && d.handle == NULL && !d.kernelDriverAttached && d.ownerPid == 0
  {
  }

  /** Of several usable devices with one new id the first is listed. */
  lemma {:induction false} FirstIsListed(available: map<string, Descriptor>, list: seq<BusDevice>, i: nat)
    requires i < |list| && list[i].isHid && list[i].descriptorRead
    requires IdOf(list[i].location) !in available
    requires forall j :: 0 <= j < i ==>
               !(list[j].isHid && list[j].descriptorRead && IdOf(list[j].location) == IdOf(list[i].location))
    ensures var id := IdOf(list[i].location);
            id in Discovered(available, list) && Discovered(available, list)[id] == Listed(list[i])
    decreases |list|
  {
    var dev, id := list[0], IdOf(list[0].location);
    var available' := if Usable(dev) && id !in available then available[id := Listed(dev)] else available;
    if i == 0 {
      DiscoveredExactly(available', list[1..]);
    } else {
      assert forall j :: 0 <= j < |list| - 1 ==> list[1..][j] == list[j + 1];
      FirstIsListed(available', list[1..], i - 1);
    }
  }

  /** A scan never touches a known descriptor; it adds the ids of the usable devices, first come. */
  lemma {:induction false} DiscoveredExactly(available: map<string, Descriptor>, list: seq<BusDevice>)
    ensures forall id :: id in available ==>
              id in Discovered(available, list) && Discovered(available, list)[id] == available[id]
    ensures forall id :: id in Discovered(available, list) && id !in available ==>
              exists dev :: dev in list && dev.isHid && dev.descriptorRead && IdOf(dev.location) == id
                            && Discovered(available, list)[id] == Listed(dev)
    ensures forall dev :: dev in list && dev.isHid && dev.descriptorRead ==>
              IdOf(dev.location) in Discovered(available, list)
    decreases |list|
  {
    if list != [] {
      var dev, id := list[0], IdOf(list[0].location);
      var available' := if Usable(dev) && id !in available then available[id := Listed(dev)] else available;
      DiscoveredExactly(available', list[1..]);
      assert list == [dev] + list[1..];
      assert dev in list;
    }
  }

  lemma {:induction false} ScanOfKnownChangesNothing(available: map<string, Descriptor>, list: seq<BusDevice>)
    requires forall dev :: dev in list && Usable(dev) ==> IdOf(dev.location) in available
    ensures Discovered(available, list) == available
  {
    if list != [] {
      assert list[0] in list;
      assert forall dev :: dev in list[1..] ==> dev in list;
      ScanOfKnownChangesNothing(available, list[1..]);
    }
  }

  /** Scanning the same bus twice is scanning it once. */
  lemma DiscoveryIdempotent(s: State, list: seq<BusDevice>)
    ensures AfterDiscovery(AfterDiscovery(s, list), list) == AfterDiscovery(s, list)
  {
    DiscoveredExactly(s.available, list);
    ScanOfKnownChangesNothing(Discovered(s.available, list), list);
  }

  // ----- Claim

  /** The outcomes of the foreign calls of one claim. */
  datatype ClaimOutcome = ClaimOutcome(
    list: seq<BusDevice>,      // empty if the device list could not be read
    openOk: bool,
    handle: Handle,
    interfaceOk: bool,
    driverActive: bool,
    detachOk: bool,
    wrote: bool)

  /** The first device on the bus with the id. */
  function FindOnBus(list: seq<BusDevice>, id: string): Option<BusDevice> {
    if list == [] then None
    else if IdOf(list[0].location) == id then Some(list[0])
    else FindOnBus(list[1..], id)
  }

  lemma {:induction false} FoundDeviceHasId(list: seq<BusDevice>, id: string)
    ensures FindOnBus(list, id).Some? ==>
              FindOnBus(list, id).value in list && IdOf(FindOnBus(list, id).value.location) == id
    ensures FindOnBus(list, id).None? ==> forall dev :: dev in list ==> IdOf(dev.location) != id
  {
    if list != [] {
      FoundDeviceHasId(list[1..], id);
    }
  }

  /** And it is the first one. */
  lemma {:induction false} FoundDeviceIsFirst(list: seq<BusDevice>, i: nat)
    requires i < |list| && forall j :: 0 <= j < i ==> IdOf(list[j].location) != IdOf(list[i].location)
    ensures FindOnBus(list, IdOf(list[i].location)) == Some(list[i])
  {
    if i > 0 {
      assert forall j :: 0 <= j < |list| - 1 ==> list[1..][j] == list[j + 1];
      FoundDeviceIsFirst(list[1..], i - 1);
    }
  }

  ghost predicate UniqueLocations(list: seq<BusDevice>) {
    forall i, j :: 0 <= i < j < |list| ==> list[i].location != list[j].location
  }

  /** On a bus without two devices in one place, a claim opens the device discovery listed under the id. */
  lemma ClaimOpensListedDevice(list: seq<BusDevice>, id: string)
    requires UniqueLocations(list) && id in Discovered(map[], list)
    ensures FindOnBus(list, id).Some?
    ensures var dev := FindOnBus(list, id).value; Usable(dev) && Discovered(map[], list)[id] == Listed(dev)
  {
    DiscoveredExactly(map[], list);
    FoundDeviceHasId(list, id);
    var dev :| dev in list && Usable(dev) && IdOf(dev.location) == id && Discovered(map[], list)[id] == Listed(dev);
    var found := FindOnBus(list, id).value;
    IdOfInjective(dev.location, found.location);
    var i :| 0 <= i < |list| && list[i] == dev;
    var j :| 0 <= j < |list| && list[j] == found;
    assert i == j;
  }

  function ClaimCode(s: State, id: Option<string>, o: ClaimOutcome): Code {
    if id.None? then INVALID_MESSAGE
    else if id.value !in s.available then DEVICE_NOT_FOUND
    else if id.value in s.claimed then ITEM_NOT_AVAILABLE
    else if FindOnBus(o.list, id.value).None? then DEVICE_NOT_FOUND
    else if !o.openOk || !o.interfaceOk then PERMISSION_DENIED
    else SUCCESS
  }

  /** The state after a successful claim of `id`, found at `l`, by `client`. */
  function Claimed(s: State, self: Self, id: string, client: int32, l: Location, o: ClaimOutcome): State
    requires id in s.available
  {
    var d := s.available[id];
    var iface, driver := d.interfaceNumber, o.driverActive && o.detachOk;
    State(
      s.available[id := d.(handle := o.handle, kernelDriverAttached := driver, ownerPid := client)],
      s.claimed[id := DeviceInfo(id, o.handle, iface, driver, client)],
      FileAfter(s.file, Add(ClaimedDevice(self.pid, id, iface, driver), o.wrote)),
      if s.owners.None? then None else Some(s.owners.value[id := self.moduleName]),
      World(
        s.world.open[o.handle := l],
        s.world.interfaces[o.handle := iface],
        if driver then s.world.detached[o.handle := iface] else s.world.detached,
        s.world.stranded))
  }

  function AfterClaim(s: State, self: Self, id: Option<string>, client: int32, o: ClaimOutcome): State {
    if ClaimCode(s, id, o) != SUCCESS then s
    else Claimed(s, self, id.value, client, FindOnBus(o.list, id.value).value.location, o)
  }

  // ----- Release

  datatype ReleaseOutcome = ReleaseOutcome(driverReattached: bool, wrote: bool)

  function ReleaseCode(s: State, id: Option<string>): Code {
    if id.None? then INVALID_MESSAGE else if id.value !in s.claimed then DEVICE_NOT_FOUND else SUCCESS
  }

  /** The world after a handle is given up, its driver reattached if it can be. */
  function GivenUp(w: World, info: DeviceInfo, reattached: bool): World {
    if info.handle == NULL then w
    else Closed(
           w.(interfaces := w.interfaces - {info.handle},
              detached := if info.kernelDriverAttached && reattached then w.detached - {info.handle} else w.detached),
           info.handle)
  }

  function Released(s: State, id: string, o: ReleaseOutcome): State
    requires id in s.claimed
  {
    State(
      if id in s.available
      then s.available[id := s.available[id].(handle := NULL, kernelDriverAttached := false, ownerPid := 0)]
      else s.available,
      s.claimed - {id},
      FileAfter(s.file, Remove(id, o.wrote)),
      if s.owners.None? then None else Some(s.owners.value - {id}),
      GivenUp(s.world, s.claimed[id], o.driverReattached))
  }

  function AfterRelease(s: State, id: Option<string>, o: ReleaseOutcome): State {
    if ReleaseCode(s, id) != SUCCESS then s else Released(s, id.value, o)
  }

  // ----- Bulk release

  /** The claims that hold a handle to give up. */
  ghost function Live(claimed: map<string, DeviceInfo>): set<string> {
    set id | id in claimed && claimed[id].handle != NULL
  }

  ghost function LiveHandles(claimed: map<string, DeviceInfo>): set<Handle> {
    set id | id in Live(claimed) :: claimed[id].handle
  }

  /** Closing the claim's handle leaves its kernel driver detached. */
  predicate Strands(w: World, info: DeviceInfo, reattached: bool) {
    info.handle in w.open && info.handle in w.detached && !(info.kernelDriverAttached && reattached)
  }

  ghost function StrandedBy(w: World, claimed: map<string, DeviceInfo>, reattached: set<string>): set<Stranded> {
    set id | id in Live(claimed) && Strands(w, claimed[id], id in reattached)
      :: Stranded(w.open[claimed[id].handle], w.detached[claimed[id].handle])
  }

  /** Every live handle closed; `reattached` holds the ids whose driver went back. */
  ghost function AllGivenUp(w: World, claimed: map<string, DeviceInfo>, reattached: set<string>): World {
    World(
      w.open - LiveHandles(claimed), w.interfaces - LiveHandles(claimed), w.detached - LiveHandles(claimed),
      w.stranded + StrandedBy(w, claimed, reattached))
  }

  ghost function AfterReleaseAll(s: State, reattached: set<string>, wrote: bool): State {
    State(
      map[], map[],
      FileAfter(s.file, Clear(wrote)),
      if s.owners.None? then None else Some(s.owners.value - Live(s.claimed)),
      AllGivenUp(s.world, s.claimed, reattached))
  }

  // ----- Agreement of the views

  ghost function Handles(claimed: map<string, DeviceInfo>): set<Handle> {
    set id | id in claimed :: claimed[id].handle
  }

  /** Claims and descriptors: a descriptor shows a handle, driver flag and owner iff its id is claimed. */
  ghost predicate MapsAgree(s: State) {
    && s.claimed.Keys <= s.available.Keys
    && (forall id :: id in s.available ==> IsBusId(id) && s.available[id].deviceId == id)
    && (forall id :: id in s.claimed ==> s.claimed[id].deviceId == id && s.claimed[id].handle != NULL)
    && (forall id :: id in s.available ==>
          var d := s.available[id];
          if id in s.claimed
          then d.handle == s.claimed[id].handle && d.kernelDriverAttached == s.claimed[id].kernelDriverAttached
               && d.ownerPid == s.claimed[id].ownerPid && d.interfaceNumber == s.claimed[id].interfaceNumber
          else d.handle == NULL && !d.kernelDriverAttached && d.ownerPid == 0)
  }

  /** Claims and the USB world: one handle each, open on the device of that id, its interface claimed. */
  ghost predicate HandlesAgree(s: State) {
    && WellFormed(s.world)
    && (forall a, b :: a in s.claimed && b in s.claimed && s.claimed[a].handle == s.claimed[b].handle ==> a == b)
    && (forall id :: id in s.claimed ==>
          var info := s.claimed[id];
          && info.handle in s.world.open && IdOf(s.world.open[info.handle]) == id
          && info.handle in s.world.interfaces && s.world.interfaces[info.handle] == info.interfaceNumber
          && (info.kernelDriverAttached <==> info.handle in s.world.detached)
          && (info.kernelDriverAttached ==> s.world.detached[info.handle] == info.interfaceNumber))
  }

  ghost predicate Agree(s: State) {
    MapsAgree(s) && HandlesAgree(s)
  }

  /** Open handles that no claim accounts for. */
  ghost function Unaccounted(s: State): set<Handle> {
    s.world.open.Keys - Handles(s.claimed)
  }

  ghost predicate OwnersAgree(s: State, self: Self) {
    s.owners.Some? ==>
      forall id :: (id in s.owners.value && s.owners.value[id] == self.moduleName) <==> id in s.claimed
  }

  /** What the registry file is to hold for a claim. */
  function EntryOf(self: Self, info: DeviceInfo): ClaimedDevice {
    ClaimedDevice(self.pid, info.deviceId, info.interfaceNumber, info.kernelDriverAttached)
  }

  ghost predicate EntriesAgree(entries: seq<ClaimedDevice>, claimed: map<string, DeviceInfo>, self: Self) {
    && DistinctIds(entries)
    && Ids(entries) == claimed.Keys
    && (forall d :: d in entries ==> d.deviceId in claimed && d == EntryOf(self, claimed[d.deviceId]))
  }

  /** Claims and the registry file: the same ids once each, with this process and the same flags. */
  ghost predicate FileAgrees(s: State, self: Self) {
    EntriesAgree(EntriesOf(s.file), s.claimed, self)
  }

  /** Every driver a claim has detached can be put back from the registry file alone. */
  lemma DetachedDriversAreRecoverable(s: State, self: Self, h: Handle)
    requires Agree(s) && Unaccounted(s) == {} && FileAgrees(s, self)
    requires h in s.world.detached
    ensures h in s.world.open
    ensures ClaimedDevice(self.pid, IdOf(s.world.open[h]), s.world.detached[h], true) in EntriesOf(s.file)
  {
    assert h in s.world.open && h !in Unaccounted(s);
    assert h in Handles(s.claimed);
    var id :| id in s.claimed && s.claimed[id].handle == h;
    assert id in Ids(EntriesOf(s.file));
    var d :| d in EntriesOf(s.file) && d.deviceId == id;
  }

  /** If the process died now, every detached driver could be put back from the registry file. */
  ghost predicate Recoverable(s: State, self: Self) {
    forall h :: h in s.world.detached ==>
      h in s.world.open &&
      ClaimedDevice(self.pid, IdOf(s.world.open[h]), s.world.detached[h], true) in EntriesOf(s.file)
  }

  lemma AgreementRecovers(s: State, self: Self)
    requires Agree(s) && Unaccounted(s) == {} && FileAgrees(s, self)
    ensures Recoverable(s, self)
  {
    forall h | h in s.world.detached
      ensures h in s.world.open
      ensures ClaimedDevice(self.pid, IdOf(s.world.open[h]), s.world.detached[h], true) in EntriesOf(s.file)
    {
      DetachedDriversAreRecoverable(s, self, h);
    }
  }
}
