/** What claim, release and bulk release answer and do, in terms of the request and the calls' outcomes. */
module DeviceAnswers {
  import opened Wrappers
  import opened Decimal
  import opened RegistryText
  import opened DeviceRegistry
  import opened UsbWorld
  import opened DeviceState

  ghost predicate OnBus(list: seq<BusDevice>, id: string) {
    exists dev :: dev in list && IdOf(dev.location) == id
  }

  lemma FoundIffOnBus(list: seq<BusDevice>, id: string)
    ensures FindOnBus(list, id).Some? <==> OnBus(list, id)
    ensures FindOnBus(list, id).Some? ==> IdOf(FindOnBus(list, id).value.location) == id
  {
    FoundDeviceHasId(list, id);
  }

  // ----- Claim

  /** Every answer of a claim by its cause; in particular a claim succeeds whenever nothing stands in its way. */
  lemma ClaimAnswers(s: State, id: Option<string>, o: ClaimOutcome)
    ensures ClaimCode(s, id, o) == INVALID_MESSAGE <==> id.None?
    ensures ClaimCode(s, id, o) == DEVICE_NOT_FOUND <==>
              id.Some? && (id.value !in s.available || (id.value !in s.claimed && !OnBus(o.list, id.value)))
    ensures ClaimCode(s, id, o) == ITEM_NOT_AVAILABLE <==>
              id.Some? && id.value in s.available && id.value in s.claimed
    ensures ClaimCode(s, id, o) == PERMISSION_DENIED <==>
              && id.Some? && id.value in s.available && id.value !in s.claimed && OnBus(o.list, id.value)
              && !(o.openOk && o.interfaceOk)
    ensures ClaimCode(s, id, o) == SUCCESS <==>
              && id.Some? && id.value in s.available && id.value !in s.claimed && OnBus(o.list, id.value)
              && o.openOk && o.interfaceOk
  {
    if id.Some? { FoundIffOnBus(o.list, id.value); }
  }

  /** Nothing stands in the way of the claim; a kernel driver, active or not, detached or not, does not. */
  ghost predicate Claimable(s: State, id: string, o: ClaimOutcome) {
    id in s.available && id !in s.claimed && OnBus(o.list, id) && o.openOk && o.interfaceOk
  }

  lemma ClaimSucceedsIff(s: State, id: Option<string>, o: ClaimOutcome)
    ensures ClaimCode(s, id, o) == SUCCESS <==> id.Some? && Claimable(s, id.value, o)
  {
    ClaimAnswers(s, id, o);
  }

  /** Otherwise the claim changes nothing. */
  lemma RefusedClaimChangesNothing(s: State, self: Self, id: Option<string>, client: int32, o: ClaimOutcome)
    requires id.None? || !Claimable(s, id.value, o)
    ensures AfterClaim(s, self, id, client, o) == s
  {
    ClaimAnswers(s, id, o);
  }

  /** The claim itself, and the other claims. */
  lemma ClaimClaims(s: State, self: Self, id: string, client: int32, o: ClaimOutcome)
    requires Claimable(s, id, o)
    ensures var t := AfterClaim(s, self, Some(id), client, o);
            && t.claimed.Keys == s.claimed.Keys + {id}
            && (forall x :: x in s.claimed ==> t.claimed[x] == s.claimed[x])
            && t.claimed[id].deviceId == id && t.claimed[id].handle == o.handle && t.claimed[id].ownerPid == client
            && t.claimed[id].interfaceNumber == s.available[id].interfaceNumber
            && t.claimed[id].kernelDriverAttached == (o.driverActive && o.detachOk)
  {
    hide FileAfter, FindOnBus;
    ClaimAnswers(s, Some(id), o);
  }

  /** The descriptors: the claimed one shows its owner and keeps what the device is, the others stay. */
  lemma ClaimShows(s: State, self: Self, id: string, client: int32, o: ClaimOutcome)
    requires Claimable(s, id, o)
    ensures var t := AfterClaim(s, self, Some(id), client, o);
            && t.available.Keys == s.available.Keys
            && (forall x :: x in s.available && x != id ==> t.available[x] == s.available[x])
            && var before, now := s.available[id], t.available[id];
               && now.deviceId == before.deviceId && now.interfaceNumber == before.interfaceNumber
               && now.vendorId == before.vendorId && now.productId == before.productId
               && now.handle == o.handle && now.ownerPid == client
               && now.kernelDriverAttached == (o.driverActive && o.detachOk)
  {
    hide FileAfter, FindOnBus;
    ClaimAnswers(s, Some(id), o);
  }

  /** The world: the handle is open on a device of that id, its interface claimed, its driver as it went. */
  lemma ClaimOpens(s: State, self: Self, id: string, client: int32, o: ClaimOutcome)
    requires Claimable(s, id, o)
    ensures var t := AfterClaim(s, self, Some(id), client, o);
            && t.world.open.Keys == s.world.open.Keys + {o.handle} && IdOf(t.world.open[o.handle]) == id
            && t.world.interfaces == s.world.interfaces[o.handle := s.available[id].interfaceNumber]
            && t.world.detached == (if o.driverActive && o.detachOk
                                    then s.world.detached[o.handle := s.available[id].interfaceNumber]
                                    else s.world.detached)
            && t.world.stranded == s.world.stranded
            && forall h :: h in s.world.open && h != o.handle ==> t.world.open[h] == s.world.open[h]
  {
    hide FileAfter, FindOnBus, IdOf;
    ClaimAnswers(s, Some(id), o);
    FoundIffOnBus(o.list, id);
  }

  /** The file and the core's registry: one more entry behind the others, one more owner. */
  lemma ClaimRecords(s: State, self: Self, id: string, client: int32, o: ClaimOutcome)
    requires Claimable(s, id, o)
    ensures var t := AfterClaim(s, self, Some(id), client, o);
            var entry := ClaimedDevice(self.pid, id, s.available[id].interfaceNumber, o.driverActive && o.detachOk);
            && t.file == (if o.wrote then Some(RegistryFile(Without(EntriesOf(s.file), id) + [entry])) else s.file)
            && t.owners == if s.owners.None? then None else Some(s.owners.value[id := self.moduleName])
  {
    hide FindOnBus, RegistryFile, EntriesOf, Without;
    ClaimAnswers(s, Some(id), o);
  }

  // ----- Release

  /** Every answer of a release by its cause; a release of a claim always succeeds. */
  lemma ReleaseAnswers(s: State, id: Option<string>)
    ensures ReleaseCode(s, id) == INVALID_MESSAGE <==> id.None?
    ensures ReleaseCode(s, id) == DEVICE_NOT_FOUND <==> id.Some? && id.value !in s.claimed
    ensures ReleaseCode(s, id) == SUCCESS <==> id.Some? && id.value in s.claimed
  {
  }

  lemma RefusedReleaseChangesNothing(s: State, id: Option<string>, o: ReleaseOutcome)
    requires id.None? || id.value !in s.claimed
    ensures AfterRelease(s, id, o) == s
  {
  }

  /** The claim is gone and the other claims stay. */
  lemma ReleaseReleases(s: State, id: string, o: ReleaseOutcome)
    requires id in s.claimed
    ensures var t := AfterRelease(s, Some(id), o);
            && t.claimed.Keys == s.claimed.Keys - {id}
            && forall x :: x in t.claimed ==> t.claimed[x] == s.claimed[x]
  {
    hide FileAfter, GivenUp;
  }

  /** Its descriptor shows it free and keeps what the device is; the others stay. */
  lemma ReleaseShows(s: State, id: string, o: ReleaseOutcome)
    requires id in s.claimed
    ensures var t := AfterRelease(s, Some(id), o);
            && t.available.Keys == s.available.Keys
            && (forall x :: x in s.available && x != id ==> t.available[x] == s.available[x])
            && (id in s.available ==>
                  var before, now := s.available[id], t.available[id];
                  && now.deviceId == before.deviceId && now.interfaceNumber == before.interfaceNumber
                  && now.vendorId == before.vendorId && now.productId == before.productId
                  && now.handle == NULL && !now.kernelDriverAttached && now.ownerPid == 0)
  {
    hide FileAfter, GivenUp;
  }

  /** Its handle is closed with its interface; every other handle stays as it is. */
  lemma ReleaseCloses(s: State, id: string, o: ReleaseOutcome)
    requires Agree(s) && id in s.claimed
    ensures var t := AfterRelease(s, Some(id), o); var h := s.claimed[id].handle;
            && t.world.open == s.world.open - {h} && h !in t.world.open
            && t.world.interfaces == s.world.interfaces - {h}
            && t.world.detached == s.world.detached - {h}
            && t.world.stranded ==
               s.world.stranded + if s.claimed[id].kernelDriverAttached && !o.driverReattached
                                  then {Stranded(s.world.open[h], s.claimed[id].interfaceNumber)} else {}
  {
    hide FileAfter, IdOf, IsBusId;
  }

  /** Its entry and its owner are gone, the others stay in their order. */
  lemma ReleaseForgets(s: State, id: string, o: ReleaseOutcome)
    requires id in s.claimed
    ensures var t := AfterRelease(s, Some(id), o);
            && t.file == (if o.wrote && (exists d :: d in EntriesOf(s.file) && d.deviceId == id)
                          then Some(RegistryFile(Without(EntriesOf(s.file), id))) else s.file)
            && t.owners == if s.owners.None? then None else Some(s.owners.value - {id})
  {
    hide RegistryFile, EntriesOf, Without, GivenUp;
  }

  // ----- Bulk release

  /** Every claim and every descriptor is gone, and of the core's owners exactly the claims'. */
  lemma ReleaseAllForgets(s: State, reattached: set<string>, wrote: bool)
    requires Agree(s)
    ensures var t := AfterReleaseAll(s, reattached, wrote);
            && t.claimed == map[] && t.available == map[]
            && t.file == (if wrote then Some("[]\n") else s.file)
            && t.owners == if s.owners.None? then None else Some(s.owners.value - s.claimed.Keys)
  {
    hide AllGivenUp, IdOf, IsBusId;
    assert RegistryFile([]) == "[]\n";
    assert Live(s.claimed) == s.claimed.Keys;
  }

  /** Exactly the claims' handles are closed; of their detached drivers those not put back are stranded. */
  lemma ReleaseAllCloses(s: State, reattached: set<string>, wrote: bool)
    requires Agree(s)
    ensures var t := AfterReleaseAll(s, reattached, wrote);
            && t.world.open == s.world.open - Handles(s.claimed)
            && t.world.interfaces == s.world.interfaces - Handles(s.claimed)
            && t.world.detached == s.world.detached - Handles(s.claimed)
            && t.world.stranded ==
               s.world.stranded +
               set id | id in s.claimed && s.claimed[id].kernelDriverAttached && id !in reattached
                 :: Stranded(s.world.open[s.claimed[id].handle], s.claimed[id].interfaceNumber)
  {
    hide FileAfter, IdOf, IsBusId;
    assert Live(s.claimed) == s.claimed.Keys;
    assert LiveHandles(s.claimed) == Handles(s.claimed);
  }
}
