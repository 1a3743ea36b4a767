/** The agreement of the views over every operation and every run. */
module DeviceInvariants {
  import opened Wrappers
  import opened Decimal
  import opened RegistryText
  import opened RegistryRoundTrip
  import opened DeviceRegistry
  import opened UsbWorld
  import opened DeviceState

  lemma DiscoveryKeeps(s: State, list: seq<BusDevice>)
    requires Agree(s)
    ensures Agree(AfterDiscovery(s, list))
  {
    DiscoveredExactly(s.available, list);
  }

  // ----- Claim

  /** What libusb promises about a handle it has just opened. */
  predicate FreshHandle(w: World, o: ClaimOutcome) {
    o.openOk ==> o.handle != NULL && o.handle !in w.open
  }

  lemma ClaimKeepsMaps(s: State, self: Self, id: Option<string>, client: int32, o: ClaimOutcome)
    requires Agree(s) && FreshHandle(s.world, o)
    ensures MapsAgree(AfterClaim(s, self, id, client, o))
  {
    hide HandlesAgree, IsBusId, FileAfter;
  }

  lemma ClaimKeepsHandles(s: State, self: Self, id: Option<string>, client: int32, o: ClaimOutcome)
    requires Agree(s) && FreshHandle(s.world, o)
    ensures HandlesAgree(AfterClaim(s, self, id, client, o))
  {
    hide MapsAgree, HandlesAgree, FindOnBus, Claimed;
    if ClaimCode(s, id, o) == SUCCESS {
      FoundDeviceHasId(o.list, id.value);
      ClaimedKeepsHandles(s, self, id.value, client, FindOnBus(o.list, id.value).value.location, o);
    }
  }

  lemma ClaimedKeepsHandles(s: State, self: Self, id: string, client: int32, l: Location, o: ClaimOutcome)
    requires HandlesAgree(s) && id in s.available && id !in s.claimed && IdOf(l) == id
    requires o.handle != NULL && o.handle !in s.world.open
    ensures HandlesAgree(Claimed(s, self, id, client, l, o))
  {
    hide FileAfter, IdOf;
  }

  /** No open handle is lost: whatever fails on the way, only a successful claim keeps one. */
  lemma ClaimAccounts(s: State, self: Self, id: Option<string>, client: int32, o: ClaimOutcome)
    requires Agree(s) && FreshHandle(s.world, o)
    ensures Unaccounted(AfterClaim(s, self, id, client, o)) == Unaccounted(s)
  {
    hide Agree, FileAfter, FindOnBus, Handles;
    if ClaimCode(s, id, o) == SUCCESS {
      HandlesWith(s.claimed, id.value, AfterClaim(s, self, id, client, o).claimed[id.value]);
    }
  }

  lemma HandlesWith(claimed: map<string, DeviceInfo>, id: string, info: DeviceInfo)
    requires id !in claimed
    ensures Handles(claimed[id := info]) == Handles(claimed) + {info.handle}
  {
    var more := claimed[id := info];
    assert forall x :: x in claimed ==> x in more && more[x] == claimed[x];
    assert more[id].handle == info.handle;
  }

  lemma ClaimKeepsOwners(s: State, self: Self, id: Option<string>, client: int32, o: ClaimOutcome)
    requires OwnersAgree(s, self)
    ensures OwnersAgree(AfterClaim(s, self, id, client, o), self)
  {
  }

  lemma EntriesPrintable(s: State, self: Self)
    requires Agree(s) && FileAgrees(s, self)
    ensures AllPrintable(EntriesOf(s.file))
  {
    forall d | d in EntriesOf(s.file) ensures Printable(d.deviceId) {
      assert d.deviceId in s.available;
      BusIdsArePrintable(d.deviceId);
    }
  }

  lemma AddingAgrees(entries: seq<ClaimedDevice>, claimed: map<string, DeviceInfo>, self: Self, info: DeviceInfo)
    requires EntriesAgree(entries, claimed, self) && info.deviceId !in claimed
    ensures EntriesAgree(WithLast(entries, EntryOf(self, info)), claimed[info.deviceId := info], self)
  {
    var added := EntryOf(self, info);
    WithoutKeepsOthers(entries, info.deviceId);
    hide Without, EntryOf;
    IdsOfAppend(entries, added);
    assert added.deviceId == info.deviceId by { EntryIs(self, info); }
    assert forall i :: 0 <= i < |entries| ==> entries[i].deviceId in Ids(entries);
  }

  lemma EntryIs(self: Self, info: DeviceInfo)
    ensures EntryOf(self, info).deviceId == info.deviceId
  {
  }

  lemma IdsOfAppend(entries: seq<ClaimedDevice>, d: ClaimedDevice)
    ensures Ids(entries + [d]) == Ids(entries) + {d.deviceId}
  {
    assert forall x :: x in entries + [d] <==> x in entries || x == d;
  }

  /** A successful claim leaves the file in agreement exactly when the file could be written. */
  lemma ClaimFileExact(s: State, self: Self, id: Option<string>, client: int32, o: ClaimOutcome)
    requires Agree(s) && FileAgrees(s, self)
    ensures FileAgrees(AfterClaim(s, self, id, client, o), self) <==> o.wrote || ClaimCode(s, id, o) != SUCCESS
  {
    if ClaimCode(s, id, o) == SUCCESS {
      var s', entries := AfterClaim(s, self, id, client, o), EntriesOf(s.file);
      var info := s'.claimed[id.value];
      EntriesPrintable(s, self);
      BusIdsArePrintable(id.value);
      ChangeAgrees(s.file, Add(EntryOf(self, info), o.wrote));
      hide RegistryText.RegistryFile, RegistryText.ReadText, Printable, IsBusId;
      hide EntriesAgree, EntriesOf, WithLast, MapsAgree, HandlesAgree;
      if o.wrote {
        AddingAgrees(entries, s.claimed, self, info);
      } else {
        KeysDiffer(entries, s.claimed, s'.claimed, self, id.value);
      }
    }
  }

  lemma KeysDiffer(entries: seq<ClaimedDevice>, a: map<string, DeviceInfo>, b: map<string, DeviceInfo>, self: Self,
                   id: string)
    requires EntriesAgree(entries, a, self) && (id in a <==> id !in b)
    ensures !EntriesAgree(entries, b, self)
  {
  }

  // ----- Release

  lemma ReleaseKeepsMaps(s: State, id: Option<string>, o: ReleaseOutcome)
    requires Agree(s)
    ensures MapsAgree(AfterRelease(s, id, o))
  {
  }

  lemma ReleaseKeepsHandles(s: State, id: Option<string>, o: ReleaseOutcome)
    requires Agree(s)
    ensures HandlesAgree(AfterRelease(s, id, o))
  {
    hide MapsAgree, HandlesAgree, Released;
    if ReleaseCode(s, id) == SUCCESS {
      ReleasedKeepsHandles(s, id.value, o);
    }
  }

  lemma ReleasedKeepsHandles(s: State, id: string, o: ReleaseOutcome)
    requires HandlesAgree(s) && id in s.claimed
    ensures HandlesAgree(Released(s, id, o))
  {
    hide FileAfter, IdOf;
  }

  lemma HandlesWithout(claimed: map<string, DeviceInfo>, id: string)
    requires id in claimed
    requires forall a, b :: a in claimed && b in claimed && claimed[a].handle == claimed[b].handle ==> a == b
    ensures Handles(claimed - {id}) == Handles(claimed) - {claimed[id].handle}
  {
    var fewer := claimed - {id};
    forall h | h in Handles(claimed) && h != claimed[id].handle ensures h in Handles(fewer) {
      var x :| x in claimed && claimed[x].handle == h;
      assert x in fewer && fewer[x] == claimed[x];
    }
  }

  lemma ReleaseAccounts(s: State, id: Option<string>, o: ReleaseOutcome)
    requires Agree(s)
    ensures Unaccounted(AfterRelease(s, id, o)) == Unaccounted(s)
  {
    if ReleaseCode(s, id) == SUCCESS {
      HandlesWithout(s.claimed, id.value);
      hide Handles, MapsAgree, IsBusId;
      assert AfterRelease(s, id, o).world.open.Keys == s.world.open.Keys - {s.claimed[id.value].handle};
    }
  }

  lemma ReleaseKeepsOwners(s: State, self: Self, id: Option<string>, o: ReleaseOutcome)
    requires OwnersAgree(s, self)
    ensures OwnersAgree(AfterRelease(s, id, o), self)
  {
  }

  lemma RemovingAgrees(entries: seq<ClaimedDevice>, claimed: map<string, DeviceInfo>, self: Self, id: string)
    requires EntriesAgree(entries, claimed, self)
    ensures EntriesAgree(Without(entries, id), claimed - {id}, self)
  {
    WithoutKeepsOthers(entries, id);
    WithoutKeepsDistinct(entries, id);
    assert Ids(Without(entries, id)) == Ids(entries) - {id};
  }

  /** A successful release leaves the file in agreement exactly when the file could be written. */
  lemma ReleaseFileExact(s: State, self: Self, id: Option<string>, o: ReleaseOutcome)
    requires Agree(s) && FileAgrees(s, self)
    ensures FileAgrees(AfterRelease(s, id, o), self) <==> o.wrote || ReleaseCode(s, id) != SUCCESS
  {
    if ReleaseCode(s, id) == SUCCESS {
      var entries := EntriesOf(s.file);
      EntriesPrintable(s, self);
      ChangeAgrees(s.file, Remove(id.value, o.wrote));
      hide RegistryText.RegistryFile, RegistryText.ReadText, Printable, IsBusId;
      hide EntriesAgree, EntriesOf, Without, MapsAgree, HandlesAgree;
      if o.wrote {
        RemovingAgrees(entries, s.claimed, self, id.value);
      } else {
        KeysDiffer(entries, s.claimed, s.claimed - {id.value}, self, id.value);
      }
    }
  }

  /** Giving a device up strands its kernel driver iff it had been detached and reattaching failed. */
  lemma ReleaseStrandsExactly(s: State, id: string, o: ReleaseOutcome)
    requires Agree(s) && id in s.claimed
    ensures var info := s.claimed[id];
            AfterRelease(s, Some(id), o).world.stranded ==
            s.world.stranded +
            if info.kernelDriverAttached && !o.driverReattached
            then {Stranded(s.world.open[info.handle], info.interfaceNumber)} else {}
  {
  }

  // ----- Bulk release

  lemma ReleaseAllKeeps(s: State, reattached: set<string>, wrote: bool)
    requires Agree(s)
    ensures Agree(AfterReleaseAll(s, reattached, wrote))
    ensures AfterReleaseAll(s, reattached, wrote).claimed == map[]
    ensures AfterReleaseAll(s, reattached, wrote).world.open.Keys == Unaccounted(s)
  {
    AllLive(s);
  }

  /** No claim has a null handle, so bulk release skips none. */
  lemma AllLive(s: State)
    requires Agree(s)
    ensures Live(s.claimed) == s.claimed.Keys && LiveHandles(s.claimed) == Handles(s.claimed)
  {
  }

  lemma ReleaseAllKeepsOwners(s: State, self: Self, reattached: set<string>, wrote: bool)
    requires Agree(s) && OwnersAgree(s, self)
    ensures OwnersAgree(AfterReleaseAll(s, reattached, wrote), self)
  {
    AllLive(s);
  }

  /**
   Bulk release leaves the file in agreement exactly when it could be cleared or was empty, whatever
   it held before; from an agreeing file, exactly when it could be cleared or nothing was claimed.
   */
  lemma ReleaseAllFileExact(s: State, self: Self, reattached: set<string>, wrote: bool)
    ensures FileAgrees(AfterReleaseAll(s, reattached, wrote), self) <==> wrote || EntriesOf(s.file) == []
    ensures FileAgrees(s, self) ==>
              (FileAgrees(AfterReleaseAll(s, reattached, wrote), self) <==> wrote || s.claimed == map[])
  {
    hide RegistryText.RegistryFile, RegistryText.ReadText, AllGivenUp, Live;
    RoundTrip([]);
    NoEntries(EntriesOf(s.file), self);
    if EntriesOf(s.file) != [] { assert EntriesOf(s.file)[0].deviceId in Ids(EntriesOf(s.file)); }
  }

  /** Only the empty list agrees with no claims. */
  lemma NoEntries(entries: seq<ClaimedDevice>, self: Self)
    ensures EntriesAgree(entries, map[], self) <==> entries == []
  {
    if entries != [] { assert entries[0].deviceId in Ids(entries); }
  }

  // ----- Runs

  datatype Operation =
    | Discover(list: seq<BusDevice>)
    | Claim(id: Option<string>, client: int32, claim: ClaimOutcome)
    | Release(releaseId: Option<string>, release: ReleaseOutcome)
    | ReleaseAll(reattached: set<string>, cleared: bool)

  ghost function Next(s: State, self: Self, op: Operation): State {
    match op
    case Discover(list) => AfterDiscovery(s, list)
    case Claim(id, client, o) => AfterClaim(s, self, id, client, o)
    case Release(id, o) => AfterRelease(s, id, o)
    case ReleaseAll(reattached, wrote) => AfterReleaseAll(s, reattached, wrote)
  }

  predicate Possible(s: State, op: Operation) {
    op.Claim? ==> FreshHandle(s.world, op.claim)
  }

  predicate Wrote(op: Operation) {
    match op
    case Discover(_) => true
    case Claim(_, _, o) => o.wrote
    case Release(_, o) => o.wrote
    case ReleaseAll(_, wrote) => wrote
  }

  lemma OperationKeeps(s: State, self: Self, op: Operation)
    requires Agree(s) && Possible(s, op)
    ensures Agree(Next(s, self, op))
    ensures Unaccounted(Next(s, self, op)) == Unaccounted(s)
    ensures OwnersAgree(s, self) ==> OwnersAgree(Next(s, self, op), self)
    ensures FileAgrees(s, self) && Wrote(op) ==> FileAgrees(Next(s, self, op), self)
  {
    hide *;
    OperationIs(s, self, op);
    match op
    case Discover(list) =>
      DiscoveryKeeps(s, list);
      DiscoveryOnlyLists(s, self, list);
    case Claim(id, client, o) =>
      ClaimKeepsMaps(s, self, id, client, o);
      ClaimKeepsHandles(s, self, id, client, o);
      ClaimAccounts(s, self, id, client, o);
      if OwnersAgree(s, self) { ClaimKeepsOwners(s, self, id, client, o); }
      if FileAgrees(s, self) { ClaimFileExact(s, self, id, client, o); }
    case Release(id, o) =>
      ReleaseKeepsMaps(s, id, o);
      ReleaseKeepsHandles(s, id, o);
      ReleaseAccounts(s, id, o);
      if OwnersAgree(s, self) { ReleaseKeepsOwners(s, self, id, o); }
      if FileAgrees(s, self) { ReleaseFileExact(s, self, id, o); }
    case ReleaseAll(reattached, wrote) =>
      ReleaseAllKeeps(s, reattached, wrote);
      ReleaseAllAccounts(s, reattached, wrote);
      if OwnersAgree(s, self) { ReleaseAllKeepsOwners(s, self, reattached, wrote); }
      if FileAgrees(s, self) { ReleaseAllFileExact(s, self, reattached, wrote); }
  }

  lemma OperationIs(s: State, self: Self, op: Operation)
    ensures Agree(s) <==> MapsAgree(s) && HandlesAgree(s)
    ensures Agree(Next(s, self, op)) <==> MapsAgree(Next(s, self, op)) && HandlesAgree(Next(s, self, op))
    ensures op.Discover? ==> Next(s, self, op) == AfterDiscovery(s, op.list) && Wrote(op)
    ensures op.Claim? ==> Next(s, self, op) == AfterClaim(s, self, op.id, op.client, op.claim)
    ensures op.Claim? ==> (Wrote(op) <==> op.claim.wrote) && (Possible(s, op) <==> FreshHandle(s.world, op.claim))
    ensures op.Release? ==> Next(s, self, op) == AfterRelease(s, op.releaseId, op.release)
    ensures op.Release? ==> (Wrote(op) <==> op.release.wrote)
    ensures op.ReleaseAll? ==> Next(s, self, op) == AfterReleaseAll(s, op.reattached, op.cleared)
    ensures op.ReleaseAll? ==> (Wrote(op) <==> op.cleared)
  {
  }

  lemma DiscoveryOnlyLists(s: State, self: Self, list: seq<BusDevice>)
    ensures Unaccounted(AfterDiscovery(s, list)) == Unaccounted(s)
    ensures OwnersAgree(s, self) ==> OwnersAgree(AfterDiscovery(s, list), self)
    ensures FileAgrees(s, self) ==> FileAgrees(AfterDiscovery(s, list), self)
  {
  }

  lemma ReleaseAllAccounts(s: State, reattached: set<string>, wrote: bool)
    requires Agree(s)
    ensures Unaccounted(AfterReleaseAll(s, reattached, wrote)) == Unaccounted(s)
  {
    ReleaseAllKeeps(s, reattached, wrote);
  }

  ghost predicate IsRun(s: State, self: Self, ops: seq<Operation>)
    decreases |ops|
  {
    ops == [] || (Possible(s, ops[0]) && IsRun(Next(s, self, ops[0]), self, ops[1..]))
  }

  ghost function After(s: State, self: Self, ops: seq<Operation>): State
    decreases |ops|
  {
    if ops == [] then s else After(Next(s, self, ops[0]), self, ops[1..])
  }

  lemma {:induction false} RunKeeps(s: State, self: Self, ops: seq<Operation>)
    requires Agree(s) && IsRun(s, self, ops)
    ensures Agree(After(s, self, ops))
    ensures Unaccounted(After(s, self, ops)) == Unaccounted(s)
    ensures OwnersAgree(s, self) ==> OwnersAgree(After(s, self, ops), self)
    ensures FileAgrees(s, self) && (forall op :: op in ops ==> Wrote(op)) ==> FileAgrees(After(s, self, ops), self)
    decreases |ops|
  {
    if ops != [] {
      hide Agree, Next, Unaccounted, OwnersAgree, FileAgrees, Possible, Wrote;
      OperationKeeps(s, self, ops[0]);
      RunKeeps(Next(s, self, ops[0]), self, ops[1..]);
    }
  }

  /** A handler just built, on an empty registry file and an idle bus. */
  predicate Initial(s: State, self: Self) {
    && s.available == map[] && s.claimed == map[] && EntriesOf(s.file) == []
    && s.world.open == map[] && s.world.interfaces == map[] && s.world.detached == map[]
    && (s.owners.Some? ==> self.moduleName !in s.owners.value.Values)
  }

  /**
   Over every run, whatever libusb calls fail: the open handles are exactly those of the claims,
   one each and none null; every claimed id is available and its descriptor agrees with the claim;
   the core's registry lists exactly the claimed ids as this module's. While the file can be
   written it holds exactly one entry for each claim, and every detached driver can be recovered.
   */
  lemma ViewsAgreeOverRuns(s: State, self: Self, ops: seq<Operation>)
    requires Initial(s, self) && IsRun(s, self, ops)
    ensures var t := After(s, self, ops);
            && Agree(t) && t.world.open.Keys == Handles(t.claimed) && OwnersAgree(t, self)
            && ((forall op :: op in ops ==> Wrote(op)) ==>
                  FileAgrees(t, self) && Recoverable(t, self))
  {
    hide *;
    var t := After(s, self, ops);
    InitialAgrees(s, self);
    RunKeeps(s, self, ops);
    HandlesAreOpen(t);
    if FileAgrees(t, self) { AgreementRecovers(t, self); }
  }

  lemma HandlesAreOpen(s: State)
    requires Agree(s) && Unaccounted(s) == {}
    ensures s.world.open.Keys == Handles(s.claimed)
  {
    assert forall h :: h in s.world.open ==> h in Handles(s.claimed) || h in Unaccounted(s);
  }

  lemma InitialAgrees(s: State, self: Self)
    requires Initial(s, self)
    ensures Agree(s) && Unaccounted(s) == {} && OwnersAgree(s, self) && FileAgrees(s, self)
  {
  }
}
