/** A claim step by step, for a process that can die in the middle of one. */
module ClaimSteps {
  import opened Wrappers
  import opened Decimal
  import opened RegistryText
  import opened DeviceRegistry
  import opened UsbWorld
  import opened DeviceState
  import opened DeviceAnswers
  import opened DeviceInvariants

  const OPENED := 1
  const INTERFACE_CLAIMED := 2
  const DRIVER_DETACHED := 3
  const CLAIM_STORED := 4
  const DESCRIPTOR_STORED := 5
  const PERSISTED := 6
  const REGISTERED := 7

  predicate Detaches(o: ClaimOutcome) {
    o.driverActive && o.detachOk
  }

  /** One step of a claim that nothing stops; a step not taken leaves the state as it is. */
  function ClaimStep(b: State, self: Self, d: Descriptor, id: string, client: int32, l: Location, o: ClaimOutcome,
                     n: nat): State
  {
    var iface := d.interfaceNumber;
    if n == OPENED then b.(world := b.world.(open := b.world.open[o.handle := l]))
    else if n == INTERFACE_CLAIMED then b.(world := b.world.(interfaces := b.world.interfaces[o.handle := iface]))
    else if n == DRIVER_DETACHED then
      if Detaches(o) then b.(world := b.world.(detached := b.world.detached[o.handle := iface])) else b
    else if n == CLAIM_STORED then
      b.(claimed := b.claimed[id := DeviceInfo(id, o.handle, iface, Detaches(o), client)])
    else if n == DESCRIPTOR_STORED then
      b.(available :=
           b.available[id := d.(handle := o.handle, kernelDriverAttached := Detaches(o), ownerPid := client)])
    else if n == PERSISTED then
      b.(file := FileAfter(b.file, Add(ClaimedDevice(self.pid, id, iface, Detaches(o)), o.wrote)))
    else if n == REGISTERED && b.owners.Some? then b.(owners := Some(b.owners.value[id := self.moduleName]))
    else b
  }

  /** The state after the first `n` steps of the claim. */
  function DuringClaim(s: State, self: Self, id: string, client: int32, l: Location, o: ClaimOutcome, n: nat): State
    requires id in s.available
  {
    if n == 0 then s
    else ClaimStep(DuringClaim(s, self, id, client, l, o, n - 1), self, s.available[id], id, client, l, o, n)
  }

  lemma FirstSteps(s: State, self: Self, id: string, client: int32, l: Location, o: ClaimOutcome)
    requires id in s.available
    ensures var d := s.available[id];
            var s1 := DuringClaim(s, self, id, client, l, o, OPENED);
            var s2 := DuringClaim(s, self, id, client, l, o, INTERFACE_CLAIMED);
            && s1 == ClaimStep(s, self, d, id, client, l, o, OPENED)
            && s2 == ClaimStep(s1, self, d, id, client, l, o, INTERFACE_CLAIMED)
            && DuringClaim(s, self, id, client, l, o, DRIVER_DETACHED)
               == ClaimStep(s2, self, d, id, client, l, o, DRIVER_DETACHED)
  {
    hide ClaimStep;
    assert DuringClaim(s, self, id, client, l, o, 0) == s;
  }

  lemma LastSteps(s: State, self: Self, id: string, client: int32, l: Location, o: ClaimOutcome)
    requires id in s.available
    ensures var d := s.available[id];
            var s3 := DuringClaim(s, self, id, client, l, o, DRIVER_DETACHED);
            var s4 := DuringClaim(s, self, id, client, l, o, CLAIM_STORED);
            var s5 := DuringClaim(s, self, id, client, l, o, DESCRIPTOR_STORED);
            var s6 := DuringClaim(s, self, id, client, l, o, PERSISTED);
            && s4 == ClaimStep(s3, self, d, id, client, l, o, CLAIM_STORED)
            && s5 == ClaimStep(s4, self, d, id, client, l, o, DESCRIPTOR_STORED)
            && s6 == ClaimStep(s5, self, d, id, client, l, o, PERSISTED)
            && DuringClaim(s, self, id, client, l, o, REGISTERED)
               == ClaimStep(s6, self, d, id, client, l, o, REGISTERED)
  {
    hide ClaimStep;
  }

  /** All steps together are the claim. */
  lemma StepsMakeTheClaim(s: State, self: Self, id: string, client: int32, l: Location, o: ClaimOutcome)
    requires id in s.available
    ensures DuringClaim(s, self, id, client, l, o, REGISTERED) == Claimed(s, self, id, client, l, o)
  {
    hide DuringClaim;
    FirstSteps(s, self, id, client, l, o);
    LastSteps(s, self, id, client, l, o);
  }

  /** What is done after `n` of the seven steps: open, interface, driver, claim, descriptor, file, owner. */
  lemma {:induction false} ClaimOrder(s: State, self: Self, id: string, client: int32, l: Location, o: ClaimOutcome,
                                      n: nat)
    requires id in s.available && s.available[id].handle != o.handle && id !in s.claimed && n <= 7
    requires o.handle !in s.world.open && o.handle !in s.world.interfaces && o.handle !in s.world.detached
    ensures var t := DuringClaim(s, self, id, client, l, o, n);
            && (o.handle in t.world.open <==> n >= 1) && (o.handle in t.world.interfaces <==> n >= 2)
            && (o.handle in t.world.detached <==> n >= 3 && o.driverActive && o.detachOk)
            && (id in t.claimed <==> n >= 4)
            && id in t.available && (t.available[id].handle == o.handle <==> n >= 5)
            && (n < 6 ==> t.file == s.file) && (n < 7 ==> t.owners == s.owners)
  {
    hide FileAfter;
    if n > 0 {
      ClaimOrder(s, self, id, client, l, o, n - 1);
    }
  }

  /** With one more detached driver and the same file, that driver is the one that is lost. */
  lemma NoEntryYet(s: State, t: State, self: Self, id: string, h: Handle)
    requires FileAgrees(s, self) && id !in s.claimed && t.file == s.file
    requires h in t.world.detached && h in t.world.open && IdOf(t.world.open[h]) == id
    ensures !Recoverable(t, self)
  {
    var entry := ClaimedDevice(self.pid, id, t.world.detached[h], true);
    assert entry in EntriesOf(s.file) ==> id in Ids(EntriesOf(s.file));
  }

  lemma SameDriversSameFile(s: State, t: State, self: Self)
    requires Recoverable(s, self) && t.file == s.file && t.world.detached == s.world.detached
    requires forall h :: h in s.world.open ==> h in t.world.open && t.world.open[h] == s.world.open[h]
    ensures Recoverable(t, self)
  {
  }

  /** What the steps up to `n` have done to the world and the file. */
  lemma DuringClaimIs(s: State, self: Self, id: string, client: int32, l: Location, o: ClaimOutcome, n: nat)
    requires id in s.available && n <= REGISTERED
    ensures var t := DuringClaim(s, self, id, client, l, o, n); var iface := s.available[id].interfaceNumber;
            && t.world.open == (if n >= OPENED then s.world.open[o.handle := l] else s.world.open)
            && t.world.detached ==
               (if n >= DRIVER_DETACHED && Detaches(o) then s.world.detached[o.handle := iface] else s.world.detached)
            && t.file == if n >= PERSISTED
                         then FileAfter(s.file, Add(ClaimedDevice(self.pid, id, iface, Detaches(o)), o.wrote))
                         else s.file
  {
    if n > 0 {
      DuringClaimIs(s, self, id, client, l, o, n - 1);
    }
  }

  lemma UnwrittenFileStays(file: Option<string>, d: ClaimedDevice)
    ensures FileAfter(file, Add(d, false)) == file
  {
  }

  /**
   A process that dies in the middle of a claim leaves a kernel driver that the registry file cannot
   put back exactly when it dies between detaching it, the third step, and persisting the claim, the
   sixth, or after a persisting that failed. At every other step every detached driver has its entry.
   */
  lemma CrashWindow(s: State, self: Self, id: string, client: int32, l: Location, o: ClaimOutcome, n: nat)
    requires Agree(s) && Unaccounted(s) == {} && FileAgrees(s, self) && FreshHandle(s.world, o)
    requires Claimable(s, id, o) && FindOnBus(o.list, id).Some? && l == FindOnBus(o.list, id).value.location
    requires n <= 7
    ensures Recoverable(DuringClaim(s, self, id, client, l, o, n), self)
            <==> !(o.driverActive && o.detachOk && (3 <= n < 6 || (n >= 6 && !o.wrote)))
  {
    hide Agree, Unaccounted, FileAgrees, Recoverable, EntriesOf, FileAfter, DuringClaim, AfterClaim;
    ClaimAnswers(s, Some(id), o);
    var t := DuringClaim(s, self, id, client, l, o, n);
    AgreementRecovers(s, self);
    DuringClaimIs(s, self, id, client, l, o, n);
    HandleIsNew(s, o);
    FoundDeviceHasId(o.list, id);
    if n < PERSISTED || !o.wrote {
      UnwrittenFileStays(s.file, ClaimedDevice(self.pid, id, s.available[id].interfaceNumber, Detaches(o)));
      if Detaches(o) && n >= DRIVER_DETACHED {
        NoEntryYet(s, t, self, id, o.handle);
      } else {
        SameDriversSameFile(s, t, self);
      }
    } else {
      var done := AfterClaim(s, self, Some(id), client, o);
      ClaimIsAllSteps(s, self, id, client, l, o);
      DuringClaimIs(s, self, id, client, l, o, REGISTERED);
      OperationKeeps(s, self, Claim(Some(id), client, o));
      ClaimOperation(s, self, id, client, o);
      AgreementRecovers(done, self);
      SameDriversSameFile(done, t, self);
    }
  }

  lemma HandleIsNew(s: State, o: ClaimOutcome)
    requires Agree(s) && FreshHandle(s.world, o) && o.openOk
    ensures o.handle !in s.world.open && o.handle !in s.world.detached
  {
  }

  lemma ClaimIsAllSteps(s: State, self: Self, id: string, client: int32, l: Location, o: ClaimOutcome)
    requires ClaimCode(s, Some(id), o) == SUCCESS && l == FindOnBus(o.list, id).value.location
    ensures AfterClaim(s, self, Some(id), client, o) == DuringClaim(s, self, id, client, l, o, REGISTERED)
  {
    StepsMakeTheClaim(s, self, id, client, l, o);
  }

  lemma ClaimOperation(s: State, self: Self, id: string, client: int32, o: ClaimOutcome)
    ensures Next(s, self, Claim(Some(id), client, o)) == AfterClaim(s, self, Some(id), client, o)
    ensures Possible(s, Claim(Some(id), client, o)) <==> FreshHandle(s.world, o)
    ensures Wrote(Claim(Some(id), client, o)) <==> o.wrote
  {
  }
}
