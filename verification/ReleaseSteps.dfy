/** A release step by step, and a bulk release, for a process that can die in the middle of one. */
module ReleaseSteps {
  import opened Wrappers
  import opened Decimal
  import opened RegistryText
  import opened DeviceRegistry
  import opened UsbWorld
  import opened DeviceState
  import opened DeviceInvariants

  const INTERFACE_RELEASED := 1
  const DRIVER_REATTACHED := 2
  const HANDLE_CLOSED := 3
  const CLAIM_ERASED := 4
  const DESCRIPTOR_CLEARED := 5
  const ENTRY_REMOVED := 6
  const UNREGISTERED := 7

  /** One step of a release; a step not taken leaves the state as it is. */
  function ReleaseStep(b: State, info: DeviceInfo, id: string, o: ReleaseOutcome, n: nat): State {
    if n == INTERFACE_RELEASED && info.handle != NULL then
      b.(world := b.world.(interfaces := b.world.interfaces - {info.handle}))
    else if n == DRIVER_REATTACHED && info.handle != NULL && info.kernelDriverAttached && o.driverReattached then
      b.(world := b.world.(detached := b.world.detached - {info.handle}))
    else if n == HANDLE_CLOSED && info.handle != NULL then b.(world := Closed(b.world, info.handle))
    else if n == CLAIM_ERASED then b.(claimed := b.claimed - {id})
    else if n == DESCRIPTOR_CLEARED && id in b.available then
      b.(available := b.available[id := b.available[id].(handle := NULL, kernelDriverAttached := false, ownerPid := 0)])
    else if n == ENTRY_REMOVED then b.(file := FileAfter(b.file, Remove(id, o.wrote)))
    else if n == UNREGISTERED && b.owners.Some? then b.(owners := Some(b.owners.value - {id}))
    else b
  }

  /** The state after the first `n` steps of releasing the claim. */
  function DuringRelease(s: State, id: string, o: ReleaseOutcome, n: nat): State
    requires id in s.claimed
  {
    if n == 0 then s else ReleaseStep(DuringRelease(s, id, o, n - 1), s.claimed[id], id, o, n)
  }

  lemma GivingUpSteps(s: State, id: string, o: ReleaseOutcome)
    requires id in s.claimed
    ensures DuringRelease(s, id, o, HANDLE_CLOSED) == s.(world := GivenUp(s.world, s.claimed[id], o.driverReattached))
  {
    var s1 := DuringRelease(s, id, o, INTERFACE_RELEASED);
    var s2 := DuringRelease(s, id, o, DRIVER_REATTACHED);
    assert DuringRelease(s, id, o, 0) == s;
    assert s1 == ReleaseStep(s, s.claimed[id], id, o, INTERFACE_RELEASED);
    assert s2 == ReleaseStep(s1, s.claimed[id], id, o, DRIVER_REATTACHED);
    assert DuringRelease(s, id, o, HANDLE_CLOSED) == ReleaseStep(s2, s.claimed[id], id, o, HANDLE_CLOSED);
  }

  lemma ForgettingSteps(s: State, id: string, o: ReleaseOutcome)
    requires id in s.claimed
    ensures var info := s.claimed[id];
            var s4 := DuringRelease(s, id, o, CLAIM_ERASED);
            var s5 := DuringRelease(s, id, o, DESCRIPTOR_CLEARED);
            var s6 := DuringRelease(s, id, o, ENTRY_REMOVED);
            && s4 == ReleaseStep(DuringRelease(s, id, o, HANDLE_CLOSED), info, id, o, CLAIM_ERASED)
            && s5 == ReleaseStep(s4, info, id, o, DESCRIPTOR_CLEARED)
            && s6 == ReleaseStep(s5, info, id, o, ENTRY_REMOVED)
            && DuringRelease(s, id, o, UNREGISTERED) == ReleaseStep(s6, info, id, o, UNREGISTERED)
  {
    hide ReleaseStep;
  }

  /** All steps together are the release. */
  lemma StepsMakeTheRelease(s: State, id: string, o: ReleaseOutcome)
    requires id in s.claimed
    ensures DuringRelease(s, id, o, UNREGISTERED) == Released(s, id, o)
  {
    hide DuringRelease, FileAfter, GivenUp;
    GivingUpSteps(s, id, o);
    ForgettingSteps(s, id, o);
  }

  /** What is undone after `n` of the seven steps: interface, driver, handle, claim, descriptor, file, owner. */
  lemma {:induction false} ReleaseOrder(s: State, id: string, o: ReleaseOutcome, n: nat)
    requires Agree(s) && id in s.claimed && n <= 7
    ensures var t := DuringRelease(s, id, o, n); var info := s.claimed[id];
            && (info.handle in t.world.interfaces <==> n < 1) && (info.handle in t.world.open <==> n < 3)
            && (info.handle in t.world.detached <==>
                  info.kernelDriverAttached && (n < 2 || (n < 3 && !o.driverReattached)))
            && (id in t.claimed <==> n < 4)
            && id in t.available && (t.available[id].handle == info.handle <==> n < 5)
            && (n < 6 ==> t.file == s.file) && (n < 7 ==> t.owners == s.owners)
  {
    hide FileAfter, IdOf, IsBusId;
    if n > 0 {
      ReleaseOrder(s, id, o, n - 1);
    }
  }

  // ----- What a crash loses

  /** The drivers detached through handles that are open. */
  ghost function Drivers(w: World): set<Stranded> {
    set h | h in w.detached && h in w.open :: Stranded(w.open[h], w.detached[h])
  }

  ghost predicate HasEntry(entries: seq<ClaimedDevice>, self: Self, d: Stranded) {
    ClaimedDevice(self.pid, IdOf(d.location), d.interfaceNumber, true) in entries
  }

  /** Of the drivers detached in `s`, those still detached in `t` that `t`'s file cannot put back. */
  ghost function Lost(s: State, t: State, self: Self): set<Stranded> {
    set d | d in Drivers(s.world)
            && (d in Drivers(t.world) || d in t.world.stranded) && !HasEntry(EntriesOf(t.file), self, d)
  }

  lemma EveryDriverHasEntry(s: State, self: Self)
    requires Agree(s) && Unaccounted(s) == {} && FileAgrees(s, self)
    ensures forall d :: d in Drivers(s.world) ==> HasEntry(EntriesOf(s.file), self, d)
  {
    AgreementRecovers(s, self);
    hide Agree, EntriesOf, FileAgrees;
  }

  /**
   As long as the file is the old one no driver is lost, whatever else has been done: so in a release
   up to the removal of its entry, and in a bulk release up to the clearing of the file.
   */
  lemma NothingLostBefore(s: State, t: State, self: Self)
    requires Agree(s) && Unaccounted(s) == {} && FileAgrees(s, self) && t.file == s.file
    ensures Lost(s, t, self) == {}
  {
    EveryDriverHasEntry(s, self);
  }

  /** The driver that a claim detached. */
  ghost function DriverOf(s: State, id: string): set<Stranded>
    requires id in s.claimed
  {
    var info := s.claimed[id];
    if info.kernelDriverAttached && info.handle in s.world.open
    then {Stranded(s.world.open[info.handle], info.interfaceNumber)} else {}
  }

  /** What the steps up to `n` have done to the world and the file. */
  lemma DuringReleaseIs(s: State, id: string, o: ReleaseOutcome, n: nat)
    requires id in s.claimed && n <= UNREGISTERED
    ensures var t := DuringRelease(s, id, o, n);
            && (n >= HANDLE_CLOSED ==> t.world == GivenUp(s.world, s.claimed[id], o.driverReattached))
            && t.file == if n >= ENTRY_REMOVED then FileAfter(s.file, Remove(id, o.wrote)) else s.file
  {
    hide FileAfter, GivenUp;
    if n == HANDLE_CLOSED {
      GivingUpSteps(s, id, o);
      DuringReleaseIs(s, id, o, n - 1);
    } else if n > 0 {
      DuringReleaseIs(s, id, o, n - 1);
    }
  }

  lemma UnwrittenFileStays(file: Option<string>, id: string)
    ensures FileAfter(file, Remove(id, false)) == file
  {
  }

  /** The claim an open handle belongs to. */
  lemma ClaimOf(s: State, h: Handle) returns (id: string)
    requires Agree(s) && Unaccounted(s) == {} && h in s.world.open
    ensures id in s.claimed && s.claimed[id].handle == h && id == IdOf(s.world.open[h])
    ensures h in s.world.detached ==>
              s.claimed[id].kernelDriverAttached && s.world.detached[h] == s.claimed[id].interfaceNumber
  {
    assert h !in Unaccounted(s);
    assert h in Handles(s.claimed);
    id :| id in s.claimed && s.claimed[id].handle == h;
  }

  /** A detached driver is the claim's own exactly when it is on the device of that id. */
  lemma OwnDriver(s: State, id: string, d: Stranded)
    requires Agree(s) && Unaccounted(s) == {} && id in s.claimed && d in Drivers(s.world)
    ensures IdOf(d.location) == id <==> d in DriverOf(s, id)
  {
    var h :| h in s.world.detached && h in s.world.open && d == Stranded(s.world.open[h], s.world.detached[h]);
    var x := ClaimOf(s, h);
  }

  /** Once its claim is given up the driver is detached only if it is stranded. */
  lemma NoLongerHeld(s: State, id: string, reattached: bool, d: Stranded)
    requires Agree(s) && Unaccounted(s) == {} && id in s.claimed && IdOf(d.location) == id
    ensures d !in Drivers(GivenUp(s.world, s.claimed[id], reattached))
  {
    var w := GivenUp(s.world, s.claimed[id], reattached);
    forall g | g in w.detached && g in w.open ensures IdOf(w.open[g]) != id {
      var x := ClaimOf(s, g);
    }
  }

  lemma StrandedAfterRelease(s: State, id: string, reattached: bool, d: Stranded)
    requires Agree(s) && id in s.claimed && d in DriverOf(s, id)
    ensures d in GivenUp(s.world, s.claimed[id], reattached).stranded <==> !reattached || d in s.world.stranded
  {
  }

  /**
   A process that dies after `n` steps of a release can lose only the released claim's own driver: it
   does exactly if the entry is already removed, by the sixth step, and the driver could not be put
   back. (A driver put back counts as detached if the same one had been stranded before.)
   */
  lemma ReleaseWindow(s: State, self: Self, id: string, o: ReleaseOutcome, n: nat)
    requires Agree(s) && Unaccounted(s) == {} && FileAgrees(s, self) && id in s.claimed && n <= 7
    ensures Lost(s, DuringRelease(s, id, o, n), self) ==
            if n >= 6 && o.wrote
            then (if o.driverReattached then DriverOf(s, id) * s.world.stranded else DriverOf(s, id)) else {}
  {
    hide Agree, Unaccounted, FileAgrees, EntriesOf, FileAfter, DuringRelease, Drivers, HasEntry, DriverOf, GivenUp;
    var t := DuringRelease(s, id, o, n);
    DuringReleaseIs(s, id, o, n);
    if n < ENTRY_REMOVED || !o.wrote {
      UnwrittenFileStays(s.file, id);
      NothingLostBefore(s, t, self);
    } else {
      DriverIsDetached(s, id);
      forall d | d in Drivers(s.world)
        ensures d in Lost(s, t, self) <==> d in DriverOf(s, id) && (!o.driverReattached || d in s.world.stranded)
      {
        OwnDriver(s, id, d);
        EntriesAfterRemoval(s, self, id, d);
        if d in DriverOf(s, id) {
          NoLongerHeld(s, id, o.driverReattached, d);
          StrandedAfterRelease(s, id, o.driverReattached, d);
        }
      }
    }
  }

  lemma DriverIsDetached(s: State, id: string)
    requires Agree(s) && id in s.claimed
    ensures DriverOf(s, id) <= Drivers(s.world)
  {
  }

  lemma EntriesAfterRemoval(s: State, self: Self, id: string, d: Stranded)
    requires Agree(s) && Unaccounted(s) == {} && FileAgrees(s, self) && d in Drivers(s.world)
    ensures HasEntry(EntriesOf(FileAfter(s.file, Remove(id, true))), self, d) <==> IdOf(d.location) != id
  {
    EveryDriverHasEntry(s, self);
    EntriesPrintable(s, self);
    hide Agree, Unaccounted, FileAgrees, Drivers, EntriesOf, FileAfter, IdOf, Without;
    ChangeAgrees(s.file, Remove(id, true));
    WithoutKeepsOthers(EntriesOf(s.file), id);
  }

  /**
   A process that dies after the file was cleared in a bulk release has lost exactly the drivers that
   could not be put back, if the clearing could be written.
   */
  lemma BulkReleaseWindow(s: State, self: Self, reattached: set<string>, wrote: bool)
    requires Agree(s) && Unaccounted(s) == {} && FileAgrees(s, self)
    ensures Lost(s, AfterReleaseAll(s, reattached, wrote), self) ==
            if wrote then Drivers(s.world) * (s.world.stranded + StrandedBy(s.world, s.claimed, reattached)) else {}
    ensures StrandedBy(s.world, s.claimed, reattached) ==
            set id | id in s.claimed && s.claimed[id].kernelDriverAttached && id !in reattached
              :: Stranded(s.world.open[s.claimed[id].handle], s.claimed[id].interfaceNumber)
  {
    var t := AfterReleaseAll(s, reattached, wrote);
    AllLive(s);
    if wrote {
      ReleaseAllFileExact(s, self, reattached, wrote);
      NoEntries(EntriesOf(t.file), self);
    } else {
      NothingLostBefore(s, t, self);
    }
  }
}
