/** DeviceHandler: discovery, claim, release and bulk release, with every early return. */
module DeviceHandler {
  import opened Wrappers
  import opened Decimal
  import opened RegistryText
  import opened DeviceRegistry
  import opened UsbWorld
  import opened DeviceState
  import opened DeviceInvariants
  import opened DeviceAnswers
  import opened ClaimSteps
  import opened ReleaseSteps

  /** The core's map from device id to owning module. */
  class OwnershipRegistry {
    var owners: map<string, string>

    constructor ()
      ensures owners == map[]
    {
      owners := map[];
    }

    method RegisterDevice(id: string, moduleName: string)
      modifies this
      ensures owners == old(owners)[id := moduleName]
    {
      owners := owners[id := moduleName];
    }

    method UnregisterDevice(id: string)
      modifies this
      ensures owners == old(owners) - {id}
    {
      owners := owners - {id};
    }
  }

  /** What goes back on the management socket. */
  datatype Reply =
    | NoReply
    | ItemClaimed(deviceId: string, moduleName: string)
    | ItemReleased(deviceId: string)
    | ErrorReply(event: Event, deviceId: string, code: Code)

  datatype Event = ITEM_CLAIMED | ITEM_RELEASED

  class DeviceHandler {
    const ownership: OwnershipRegistry?
    const self: Self
    const registry: DeviceRegistry
    const usb: Libusb
    const hasContext: bool    // ctx_ is non-null
    var running: bool
    var available: map<string, Descriptor>
    var claimed: map<string, DeviceInfo>

    ghost function Abs(): State
      reads this, registry, usb, ownership
    {
      State(available, claimed, registry.file,
            if ownership == null then None else Some(ownership.owners), usb.world)
    }

    ghost predicate Valid()
      reads this, registry, usb, ownership
    {
      Agree(Abs())
    }

    constructor (ownership: OwnershipRegistry?, self: Self, registry: DeviceRegistry, usb: Libusb, hasContext: bool)
      ensures this.ownership == ownership && this.self == self && this.registry == registry
      ensures this.usb == usb && this.hasContext == hasContext && !running
      ensures available == map[] && claimed == map[]
      ensures WellFormed(usb.world) ==> Valid()
    {
      this.ownership, this.self, this.registry, this.usb := ownership, self, registry, usb;
      this.hasContext := hasContext;
      running, available, claimed := false, map[], map[];
    }

    // ----- Discovery

    /** `list` is None when the device list cannot be read. */
    method DiscoverDevices(list: Option<seq<BusDevice>>)
      requires Valid()
      modifies this`available
      ensures Valid()
      ensures Abs() == if hasContext && list.Some? then AfterDiscovery(old(Abs()), list.value) else old(Abs())
    {
      if !hasContext || list.None? {
        return;
      }
      DiscoveryKeeps(Abs(), list.value);
      hide Agree;
      var i := 0;
      assert list.value[0..] == list.value;
      while i < |list.value|
        invariant 0 <= i <= |list.value|
        invariant Discovered(available, list.value[i..]) == Discovered(old(available), list.value)
      {
        var dev := list.value[i];
        assert list.value[i..][1..] == list.value[i + 1..];
        i := i + 1;
        if !dev.isHid || !dev.descriptorRead {
          continue;
        }
        var deviceId := IdOf(dev.location);
        if deviceId in available {
          continue;
        }
        var d := Descriptor(deviceId, dev.vendorId, dev.productId, 0, false, NULL, 0);
        available := available[deviceId := d];
      }
      assert list.value[i..] == [];
    }

    method StartDiscovery(list: Option<seq<BusDevice>>)
      requires Valid()
      modifies this`running, this`available
      ensures Valid() && running
      ensures Abs() == if !old(running) && hasContext && list.Some?
                       then AfterDiscovery(old(Abs()), list.value) else old(Abs())
    {
      if running {
        return;
      }
      running := true;
      DiscoverDevices(list);
    }

    method StopDiscovery()
      modifies this`running
      ensures !running
    {
      running := false;
    }

    // ----- Claim

    static method Find(list: seq<BusDevice>, deviceId: string) returns (found: Option<BusDevice>)
      ensures found == FindOnBus(list, deviceId)
    {
      found := None;
      var i := 0;
      assert list[0..] == list;
      while i < |list|
        invariant 0 <= i <= |list|
        invariant FindOnBus(list[i..], deviceId) == FindOnBus(list, deviceId)
      {
        if IdOf(list[i].location) == deviceId {
          return Some(list[i]);
        }
        assert list[i..][1..] == list[i + 1..];
        i := i + 1;
      }
    }

    /**
     `deviceId` is None when the message has no id. Every failure leaves all five views, and so the
     set of open handles, exactly as they were; a success is one claim made in all of them.
     */
    method ClaimDevice(deviceId: Option<string>, clientPid: int32, o: ClaimOutcome)
      returns (code: Code, reply: Reply)
      requires Valid() && FreshHandle(usb.world, o)
      modifies this`available, this`claimed, registry, usb, ownership
      ensures Valid()
      ensures code == ClaimCode(old(Abs()), deviceId, o)
      ensures Abs() == AfterClaim(old(Abs()), self, deviceId, clientPid, o)
      ensures reply == if code == SUCCESS then ItemClaimed(deviceId.value, self.moduleName)
                       else ErrorReply(ITEM_CLAIMED, if deviceId.None? then "" else deviceId.value, code)
      ensures code == SUCCESS <==> deviceId.Some? && Claimable(old(Abs()), deviceId.value, o)
      ensures code == SUCCESS ==>
                && deviceId.value in claimed && claimed[deviceId.value].handle == o.handle
                && claimed[deviceId.value].ownerPid == clientPid
                && claimed[deviceId.value].kernelDriverAttached == (o.driverActive && o.detachOk)
    {
      hide Agree, FindOnBus, Claimed, DuringClaim, Claimable;
      ghost var before := Abs();
      ClaimSucceedsIff(before, deviceId, o);
      ClaimAgrees(before, self, deviceId, clientPid, o);
      if deviceId.None? {
        return INVALID_MESSAGE, ErrorReply(ITEM_CLAIMED, "", INVALID_MESSAGE);
      }
      var id := deviceId.value;
      if id !in available {
        return DEVICE_NOT_FOUND, ErrorReply(ITEM_CLAIMED, id, DEVICE_NOT_FOUND);
      }
      if id in claimed {
        return ITEM_NOT_AVAILABLE, ErrorReply(ITEM_CLAIMED, id, ITEM_NOT_AVAILABLE);
      }
      var dev := Find(o.list, id);
      if dev.None? {
        return DEVICE_NOT_FOUND, ErrorReply(ITEM_CLAIMED, id, DEVICE_NOT_FOUND);
      }
      var ok, driver := Acquire(before, id, clientPid, dev.value.location, o);
      if !ok {
        return PERMISSION_DENIED, ErrorReply(ITEM_CLAIMED, id, PERMISSION_DENIED);
      }
      Record(before, id, clientPid, driver, dev.value.location, o);
      ClaimIsAllSteps(before, self, id, clientPid, dev.value.location, o);
      ClaimClaims(before, self, id, clientPid, o);
      return SUCCESS, ItemClaimed(id, self.moduleName);
    }

    static lemma ClaimAgrees(s: State, self: Self, id: Option<string>, client: int32, o: ClaimOutcome)
      requires Agree(s) && FreshHandle(s.world, o)
      ensures Agree(AfterClaim(s, self, id, client, o)) && WellFormed(s.world)
    {
      hide MapsAgree, AfterClaim, FreshHandle;
      ClaimKeepsMaps(s, self, id, client, o);
      ClaimKeepsHandles(s, self, id, client, o);
    }

    /** The part of a claim that talks to libusb; a failure closes the handle again. */
    method Acquire(ghost s: State, id: string, ghost client: int32, l: Location, o: ClaimOutcome)
      returns (ok: bool, driver: bool)
      requires Abs() == s && WellFormed(s.world) && FreshHandle(s.world, o) && id in available
      modifies usb
      ensures ok == (o.openOk && o.interfaceOk)
      ensures !ok ==> Abs() == s
      ensures ok ==> driver == Detaches(o) && Abs() == DuringClaim(s, self, id, client, l, o, DRIVER_DETACHED)
    {
      hide DuringClaim;
      FirstSteps(s, self, id, client, l, o);
      usb.Open(l, o.openOk, o.handle);
      if !o.openOk {
        return false, false;
      }
      assert Abs() == DuringClaim(s, self, id, client, l, o, OPENED);
      var handle, iface := o.handle, available[id].interfaceNumber;
      usb.ClaimInterface(handle, iface, o.interfaceOk);
      if !o.interfaceOk {
        usb.Close(handle);
        OpenThenClosed(s.world, handle, l);
        return false, false;
      }
      assert Abs() == DuringClaim(s, self, id, client, l, o, INTERFACE_CLAIMED);
      driver := false;
      if o.driverActive {
        usb.DetachKernelDriver(handle, iface, o.detachOk);
        if o.detachOk {
          driver := true;
        }
      }
      return true, driver;
    }

    /** The part of a claim that records it, step by step. */
    method Record(ghost s: State, id: string, client: int32, driver: bool, ghost l: Location, o: ClaimOutcome)
      requires id in s.available && Abs() == DuringClaim(s, self, id, client, l, o, DRIVER_DETACHED)
      requires available == s.available && driver == Detaches(o)
      modifies this`available, this`claimed, registry, ownership
      ensures Abs() == DuringClaim(s, self, id, client, l, o, REGISTERED)
    {
      hide DuringClaim, FileAfter, Detaches;
      LastSteps(s, self, id, client, l, o);
      var d := available[id];
      claimed := claimed[id := DeviceInfo(id, o.handle, d.interfaceNumber, driver, client)];
      assert Abs() == DuringClaim(s, self, id, client, l, o, CLAIM_STORED);
      available := available[id := d.(handle := o.handle, kernelDriverAttached := driver, ownerPid := client)];
      assert Abs() == DuringClaim(s, self, id, client, l, o, DESCRIPTOR_STORED);
      registry.AddDevice(id, d.interfaceNumber, driver, self.pid, o.wrote);
      assert Abs() == DuringClaim(s, self, id, client, l, o, PERSISTED);
      if ownership != null {
        ownership.RegisterDevice(id, self.moduleName);
      }
    }

    static lemma OpenThenClosed(w: World, h: Handle, l: Location)
      requires WellFormed(w) && h !in w.open
      ensures Closed(w.(open := w.open[h := l]), h) == w
    {
    }

    // ----- Release

    method ReleaseDevice(deviceId: Option<string>, o: ReleaseOutcome) returns (code: Code, reply: Reply)
      requires Valid()
      modifies this`available, this`claimed, registry, usb, ownership
      ensures Valid()
      ensures code == ReleaseCode(old(Abs()), deviceId)
      ensures Abs() == AfterRelease(old(Abs()), deviceId, o)
      ensures reply == if deviceId.None? then NoReply
                       else if code == SUCCESS then ItemReleased(deviceId.value)
                       else ErrorReply(ITEM_RELEASED, deviceId.value, code)
      ensures code == SUCCESS <==> deviceId.Some? && deviceId.value in old(claimed)
      ensures code == SUCCESS ==>
                deviceId.value !in claimed && old(claimed)[deviceId.value].handle !in usb.world.open
    {
      if deviceId.Some? && deviceId.value in claimed { ReleaseCloses(Abs(), deviceId.value, o); }
      hide Agree, FileAfter, GivenUp;
      ReleaseAgrees(Abs(), deviceId, o);
      if deviceId.None? {
        return INVALID_MESSAGE, NoReply;
      }
      var id := deviceId.value;
      if id !in claimed {
        return DEVICE_NOT_FOUND, ErrorReply(ITEM_RELEASED, id, DEVICE_NOT_FOUND);
      }
      StepsMakeTheRelease(Abs(), id, o);
      Forget(id, o);
      return SUCCESS, ItemReleased(id);
    }

    /** The release of a claim, step by step. */
    method Forget(id: string, o: ReleaseOutcome)
      requires id in claimed
      modifies this`available, this`claimed, registry, usb, ownership
      ensures Abs() == DuringRelease(old(Abs()), id, o, UNREGISTERED)
    {
      hide DuringRelease, FileAfter, GivenUp, Agree;
      ghost var s := Abs();
      GivingUpSteps(s, id, o);
      ForgettingSteps(s, id, o);
      var info := claimed[id];
      GiveUp(info, o.driverReattached);
      assert Abs() == DuringRelease(s, id, o, HANDLE_CLOSED);
      claimed := claimed - {id};
      assert Abs() == DuringRelease(s, id, o, CLAIM_ERASED);
      if id in available {
        available := available[id := available[id].(handle := NULL, kernelDriverAttached := false, ownerPid := 0)];
      }
      assert Abs() == DuringRelease(s, id, o, DESCRIPTOR_CLEARED);
      var _ := registry.RemoveDevice(id, o.wrote);
      assert Abs() == DuringRelease(s, id, o, ENTRY_REMOVED);
      if ownership != null {
        ownership.UnregisterDevice(id);
      }
    }

    static lemma ReleaseAgrees(s: State, id: Option<string>, o: ReleaseOutcome)
      requires Agree(s)
      ensures Agree(AfterRelease(s, id, o))
    {
      hide MapsAgree, HandlesAgree, AfterRelease;
      ReleaseKeepsMaps(s, id, o);
      ReleaseKeepsHandles(s, id, o);
    }

    /** Release the interface, try to put the driver back, close the handle. */
    method GiveUp(info: DeviceInfo, reattached: bool)
      modifies usb
      ensures usb.world == GivenUp(old(usb.world), info, reattached)
    {
      if info.handle != NULL {
        usb.ReleaseInterface(info.handle, info.interfaceNumber);
        if info.kernelDriverAttached {
          usb.AttachKernelDriver(info.handle, info.interfaceNumber, reattached);
        }
        usb.Close(info.handle);
      }
    }

    // ----- Bulk release

    method ReleaseAllDevices(reattached: set<string>, wrote: bool)
      requires Valid()
      modifies this`available, this`claimed, registry, usb, ownership
      ensures Valid() && Abs() == AfterReleaseAll(old(Abs()), reattached, wrote)
    {
      hide Agree, AllGivenUp, Live, FileAfter;
      ReleaseAllKeeps(Abs(), reattached, wrote);
      GiveUpAll(reattached);
      claimed := map[];
      available := map[];
      registry.RemoveAll(wrote);
    }

    /** The loop over the claims, in whatever order the map has them. */
    method GiveUpAll(reattached: set<string>)
      requires Valid()
      modifies usb, ownership
      ensures usb.world == AllGivenUp(old(usb.world), claimed, reattached)
      ensures ownership != null ==> ownership.owners == old(ownership.owners) - Live(claimed)
    {
      hide Agree, AllGivenUp, Live, GivenUp;
      ghost var before := Abs();
      NothingGivenUp(before.world, reattached);
      var todo := claimed.Keys;
      ghost var done: map<string, DeviceInfo> := map[];
      while todo != {}
        modifies usb, ownership
        invariant todo <= claimed.Keys
        invariant done.Keys == claimed.Keys - todo && forall id :: id in done ==> done[id] == claimed[id]
        invariant usb.world == AllGivenUp(before.world, done, reattached)
        invariant ownership != null ==> ownership.owners == before.owners.value - Live(done)
        decreases todo
      {
        var id :| id in todo;
        var info := claimed[id];
        todo := todo - {id};
        OneMoreGivenUp(before, done, id, reattached);
        done := done[id := info];
        if info.handle == NULL {
          continue;
        }
        GiveUp(info, id in reattached);
        if ownership != null {
          ownership.UnregisterDevice(id);
        }
      }
      assert done == claimed;
    }

    static lemma NothingGivenUp(w: World, reattached: set<string>)
      ensures AllGivenUp(w, map[], reattached) == w && Live(map[]) == {}
    {
    }

    static lemma LiveWith(done: map<string, DeviceInfo>, id: string, info: DeviceInfo)
      requires id !in done
      ensures Live(done[id := info]) == Live(done) + if info.handle == NULL then {} else {id}
      ensures LiveHandles(done[id := info]) == LiveHandles(done) + if info.handle == NULL then {} else {info.handle}
    {
      var more := done[id := info];
      assert Live(more) == Live(done) + if info.handle == NULL then {} else {id};
      assert forall x :: x in Live(done) ==> more[x] == done[x];
      if info.handle != NULL { assert id in Live(more) && more[id] == info; }
    }

    static lemma StrandedWith(w: World, done: map<string, DeviceInfo>, id: string, info: DeviceInfo,
                              reattached: set<string>)
      requires id !in done
      ensures StrandedBy(w, done[id := info], reattached) ==
              StrandedBy(w, done, reattached) + NewlyStranded(w, info, id in reattached)
    {
      var more := done[id := info];
      LiveWith(done, id, info);
      hide Live, Strands;
      assert forall x :: x in done ==> more[x] == done[x];
      assert forall x :: x in Live(done) ==> x in done by { LiveAreClaims(done); }
      assert more[id] == info;
    }

    static lemma LiveAreClaims(done: map<string, DeviceInfo>)
      ensures Live(done) <= done.Keys
    {
    }

    /** Giving up one more claim, on top of those already given up. */
    static lemma OneMoreGivenUp(s: State, done: map<string, DeviceInfo>, id: string, reattached: set<string>)
      requires Agree(s) && id in s.claimed && id !in done
      requires forall x :: x in done ==> x in s.claimed && done[x] == s.claimed[x]
      ensures var info := s.claimed[id];
              AllGivenUp(s.world, done[id := info], reattached) ==
              GivenUp(AllGivenUp(s.world, done, reattached), info, id in reattached)
      ensures Live(done[id := s.claimed[id]]) == Live(done) + {id} && s.claimed[id].handle != NULL
    {
      hide Live, LiveHandles, StrandedBy, Agree, NewlyStranded, GivenUp;
      var info := s.claimed[id];
      LiveWith(done, id, info);
      StrandedWith(s.world, done, id, info, reattached);
      NotYetGivenUp(s, done, id);
      CloseOnTop(s.world, LiveHandles(done), StrandedBy(s.world, done, reattached), info, id in reattached);
      var more := done[id := info];
      assert s.world.stranded + StrandedBy(s.world, more, reattached) ==
             (s.world.stranded + StrandedBy(s.world, done, reattached))
             + NewlyStranded(s.world, info, id in reattached);
    }

    static function NewlyStranded(w: World, info: DeviceInfo, reattached: bool): set<Stranded> {
      if info.handle != NULL && Strands(w, info, reattached)
      then {Stranded(w.open[info.handle], w.detached[info.handle])} else {}
    }

    static lemma CloseOnTop(w: World, gone: set<Handle>, lost: set<Stranded>, info: DeviceInfo, reattached: bool)
      requires info.handle !in gone && info.handle != NULL
      requires info.handle in w.detached ==> info.handle in w.open
      requires info.kernelDriverAttached ==> info.handle in w.detached
      ensures GivenUp(World(w.open - gone, w.interfaces - gone, w.detached - gone, w.stranded + lost), info, reattached)
           == World(w.open - (gone + {info.handle}), w.interfaces - (gone + {info.handle}),
                    w.detached - (gone + {info.handle}), (w.stranded + lost) + NewlyStranded(w, info, reattached))
    {
    }

    static lemma NotYetGivenUp(s: State, done: map<string, DeviceInfo>, id: string)
      requires Agree(s) && id in s.claimed && id !in done
      requires forall x :: x in done ==> x in s.claimed && done[x] == s.claimed[x]
      ensures var info := s.claimed[id];
              && info.handle !in LiveHandles(done) && info.handle != NULL
              && (info.handle in s.world.detached ==> info.handle in s.world.open)
              && (info.kernelDriverAttached ==> info.handle in s.world.detached)
    {
    }
  }
}
