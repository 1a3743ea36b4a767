/** The module's lifecycle on top of the device handler: init, start, stop, shutdown, dispatch. */
module NoteUsbModule {
  import opened Wrappers
  import opened Decimal
  import opened RegistryText
  import opened RegistryExact
  import opened DeviceRegistry
  import opened UsbWorld
  import opened DeviceState
  import opened DeviceInvariants
  import opened DeviceAnswers
  import opened DeviceHandler

  datatype Outcome =
    | Succeeded
    | AlreadyInitialized
    | NotInitialized
    | HealthCheckFailed
    | InvalidMessage
    | UnknownCommand
    | FromHandler(code: Code)

  datatype Command = RequestDiscovery | ClaimItem | ReleaseItem | OtherCommand

  /** A management message: its CMD and EVENT fields and its device id, each if present. */
  datatype Message = Message(cmd: Option<Command>, event: Option<Command>, deviceId: Option<string>)

  function CommandOf(m: Message): Option<Command> {
    if m.cmd.Some? then m.cmd else m.event
  }

  /** The CMD field decides, the EVENT field only without one. */
  lemma CmdComesFirst(m: Message)
    ensures m.cmd.Some? ==> CommandOf(m) == m.cmd
    ensures m.cmd.None? && m.event.Some? ==> CommandOf(m) == m.event
    ensures CommandOf(m).None? <==> m.cmd.None? && m.event.None?
  {
  }

  /** The outcomes of the foreign calls of one bulk release. */
  datatype BulkOutcome = BulkOutcome(reattached: set<string>, wrote: bool)

  class NoteUsbModule {
    const self: Self
    const registry: DeviceRegistry
    const usb: Libusb
    var running: bool
    var ownership: OwnershipRegistry?
    var handler: DeviceHandler?
    var hasContext: bool          // usb_ctx_ is non-null
    var sessions: set<int32>      // client pids with a device socket session
    ghost var contexts: nat       // contexts init has opened and shutdown not closed

    ghost function Footprint(): set<object>
      reads this
    {
      {this, registry, usb} + HandlerObjects(handler)
    }

    static ghost function HandlerObjects(handler: DeviceHandler?): set<object> {
      if handler == null then {}
      else {handler} + if handler.ownership == null then {} else {handler.ownership}
    }

    /** The open handles are exactly those of the current handler's claims, none without a handler. */
    ghost predicate Valid()
      reads Footprint()
    {
      && WellFormed(usb.world)
      && (hasContext ==> contexts > 0)
      && (handler == null ==> usb.world.open == map[])
      && (handler != null ==>
            && handler.self == self && handler.registry == registry && handler.usb == usb
            && handler.Valid() && Unaccounted(handler.Abs()) == {})
    }

    /** What shutdown is to reach. */
    ghost predicate Down()
      reads this
    {
      !running && handler == null && !hasContext && sessions == {}
    }

    constructor (self: Self, registry: DeviceRegistry, usb: Libusb)
      requires usb.world.open == map[] && WellFormed(usb.world)
      ensures this.self == self && this.registry == registry && this.usb == usb
      ensures Valid() && Down() && ownership == null && contexts == 0
    {
      this.self, this.registry, this.usb := self, registry, usb;
      running, ownership, handler, hasContext, sessions, contexts := false, null, null, false, {}, 0;
    }

    /** The destructor of a handler: a bulk release. */
    static method Destroy(handler: DeviceHandler, bulk: BulkOutcome)
      requires handler.Valid() && Unaccounted(handler.Abs()) == {}
      modifies handler, handler.registry, handler.usb, handler.ownership
      ensures handler.Valid() && handler.Abs() == AfterReleaseAll(old(handler.Abs()), bulk.reattached, bulk.wrote)
      ensures WellFormed(handler.usb.world) && handler.usb.world.open == map[]
      ensures handler.registry.file == if bulk.wrote then Some(RegistryFile([])) else old(handler.registry.file)
      ensures OwnersAgree(old(handler.Abs()), handler.self) ==> OwnersAgree(handler.Abs(), handler.self)
      ensures handler.claimed == map[] && handler.running == old(handler.running)
    {
      hide Agree, Unaccounted, OwnersAgree, WellFormed;
      ghost var before := handler.Abs();
      ReleaseAllKeeps(before, bulk.reattached, bulk.wrote);
      if OwnersAgree(before, handler.self) {
        ReleaseAllKeepsOwners(before, handler.self, bulk.reattached, bulk.wrote);
      }
      handler.ReleaseAllDevices(bulk.reattached, bulk.wrote);
      AgreeIsWellFormed(handler.Abs());
      assert handler.usb.world.open.Keys == {};
    }

    static lemma AgreeIsWellFormed(s: State)
      requires Agree(s)
      ensures WellFormed(s.world)
    {
    }

    static lemma OwnersOnlyShrink(s: State, self: Self, bulk: BulkOutcome)
      ensures s.owners.Some? && self.moduleName !in s.owners.value.Values ==>
                self.moduleName !in AfterReleaseAll(s, bulk.reattached, bulk.wrote).owners.value.Values
    {
    }

    static lemma NothingOwned(s: State, self: Self)
      requires s.claimed == map[]
      ensures OwnersAgree(s, self) <==> (s.owners.Some? ==> self.moduleName !in s.owners.value.Values)
    {
    }

    /** A handler without claims agrees with any world. */
    static lemma EmptyHandlerAgrees(s: State)
      requires s.available == map[] && s.claimed == map[] && WellFormed(s.world) && s.world.open == map[]
      ensures Agree(s) && Unaccounted(s) == {}
    {
    }

    /** Destroy the handler and forget it. */
    method DropHandler(bulk: BulkOutcome)
      requires Valid() && handler != null
      modifies this`handler, registry, usb, handler, handler.ownership
      ensures Valid() && handler == null && usb.world.open == map[]
      ensures registry.file == if bulk.wrote then Some(RegistryFile([])) else old(registry.file)
      ensures old(handler).ownership != null && OwnersAgree(old(handler.Abs()), self) ==>
                self.moduleName !in old(handler).ownership.owners.Values
      ensures old(handler).ownership != null && self.moduleName !in old(handler.ownership.owners).Values ==>
                self.moduleName !in old(handler).ownership.owners.Values
    {
      hide Agree, AfterReleaseAll, OwnersAgree, Unaccounted;
      OwnersOnlyShrink(handler.Abs(), self, bulk);
      Destroy(handler, bulk);
      NothingOwned(handler.Abs(), self);
      handler := null;
    }

    /** Replace the handler: the new one is built first, then the old one destroyed. */
    method ReplaceHandler(registryOfCore: OwnershipRegistry?, contextOk: bool, bulk: BulkOutcome)
      requires Valid()
      modifies Footprint()
      ensures Valid() && handler != null && fresh(handler) && handler.ownership == registryOfCore
      ensures handler.claimed == map[] && handler.available == map[] && usb.world.open == map[]
      ensures !handler.running && handler.hasContext == contextOk
      ensures running == old(running) && hasContext == old(hasContext) && sessions == old(sessions)
      ensures ownership == old(ownership) && contexts == old(contexts)
      ensures registry.file ==
              if old(handler) != null && bulk.wrote then Some(RegistryFile([])) else old(registry.file)
      ensures old(handler) != null && old(handler).ownership != null && OwnersAgree(old(handler.Abs()), self) ==>
                self.moduleName !in old(handler).ownership.owners.Values
      ensures registryOfCore == null || self.moduleName !in old(registryOfCore.owners).Values
              || (old(handler) != null && old(handler).ownership == registryOfCore
                  && OwnersAgree(old(handler.Abs()), self))
              ==> OwnersAgree(handler.Abs(), self)
    {
      hide Agree, OwnersAgree, Unaccounted, WellFormed;
      var next := new DeviceHandler(registryOfCore, self, registry, usb, contextOk);
      if handler != null {
        DropHandler(bulk);
      }
      EmptyHandlerAgrees(next.Abs());
      NothingOwned(next.Abs(), self);
      handler := next;
    }

    method Init(usbInitOk: bool, handlerContextOk: bool, bulk: BulkOutcome) returns (outcome: Outcome)
      requires Valid()
      modifies Footprint()
      ensures Valid()
      ensures outcome == if usbInitOk then Succeeded else HealthCheckFailed
      ensures !usbInitOk ==> handler == old(handler) && contexts == old(contexts) && hasContext == old(hasContext)
      ensures usbInitOk ==> hasContext && contexts == old(contexts) + 1 && fresh(handler) && handler.ownership == null
      ensures usbInitOk ==> handler.claimed == map[] && usb.world.open == map[]
      ensures usbInitOk ==> handler.available == map[] && !handler.running && handler.hasContext == handlerContextOk
      ensures running == old(running) && sessions == old(sessions) && ownership == old(ownership)
      ensures !usbInitOk ==> usb.world == old(usb.world)
      ensures registry.file ==
              if usbInitOk && old(handler) != null && bulk.wrote then Some(RegistryFile([])) else old(registry.file)
      ensures usbInitOk && old(handler) != null && old(handler).ownership != null
              && OwnersAgree(old(handler.Abs()), self) ==>
                self.moduleName !in old(handler).ownership.owners.Values
    {
      if !usbInitOk {
        return HealthCheckFailed;
      }
      hasContext, contexts := true, contexts + 1;
      ReplaceHandler(null, handlerContextOk, bulk);
      return Succeeded;
    }

    method SetOwnershipRegistry(registryOfCore: OwnershipRegistry?, contextOk: bool, bulk: BulkOutcome)
      requires Valid()
      modifies Footprint()
      ensures Valid() && ownership == registryOfCore
      ensures old(handler) == null ==> handler == null
      ensures old(handler) != null ==>
                handler != null && fresh(handler) && handler.ownership == registryOfCore
                && handler.claimed == map[] && usb.world.open == map[]
                && handler.available == map[] && !handler.running && handler.hasContext == contextOk
      ensures running == old(running) && hasContext == old(hasContext) && sessions == old(sessions)
      ensures old(handler) == null ==> usb.world == old(usb.world)
      ensures registry.file ==
              if old(handler) != null && bulk.wrote then Some(RegistryFile([])) else old(registry.file)
      ensures old(handler) != null && old(handler).ownership != null && OwnersAgree(old(handler.Abs()), self) ==>
                self.moduleName !in old(handler).ownership.owners.Values
      ensures old(handler) != null
              && (registryOfCore == null || self.moduleName !in old(registryOfCore.owners).Values
                  || (old(handler).ownership == registryOfCore && OwnersAgree(old(handler.Abs()), self)))
              ==> OwnersAgree(handler.Abs(), self)
    {
      ownership := registryOfCore;
      if handler != null {
        ReplaceHandler(ownership, contextOk, bulk);
      }
    }

    /**
     What the core does to load the module: `init`, and after its success `set_ownership_registry`.
     The handler that `init` builds is destroyed again at once, and its bulk release clears the
     registry file: whatever entries a process that crashed has left there are gone, unless the file
     cannot be written.
     */
    method Load(usbInitOk: bool, contextOk: bool, replaced: BulkOutcome,
                registryOfCore: OwnershipRegistry?, newContextOk: bool, cleared: BulkOutcome)
      returns (outcome: Outcome)
      requires Valid()
      modifies Footprint()
      ensures Valid()
      ensures outcome == if usbInitOk then Succeeded else HealthCheckFailed
      ensures !usbInitOk ==> handler == old(handler) && ownership == old(ownership) && usb.world == old(usb.world)
      ensures usbInitOk ==>
                && ownership == registryOfCore && handler != null && fresh(handler)
                && handler.ownership == registryOfCore && handler.claimed == map[] && usb.world.open == map[]
                && handler.available == map[] && !handler.running && handler.hasContext == newContextOk
      ensures registry.file ==
              if usbInitOk && (cleared.wrote || (old(handler) != null && replaced.wrote))
              then Some(RegistryFile([])) else old(registry.file)
      ensures usbInitOk && cleared.wrote ==> EntriesOf(registry.file) == []
    {
      ClearedFileIsEmpty();
      outcome := Init(usbInitOk, contextOk, replaced);
      if outcome == Succeeded {
        SetOwnershipRegistry(registryOfCore, newContextOk, cleared);
      }
    }

    static lemma ClearedFileIsEmpty()
      ensures EntriesOf(Some(RegistryFile([]))) == []
    {
      RoundTripExact([]);
    }

    method Start(list: Option<seq<BusDevice>>) returns (outcome: Outcome)
      requires Valid()
      modifies this`running, handler
      ensures Valid() && running
      ensures outcome == if old(running) then AlreadyInitialized else Succeeded
      ensures handler != null && !old(running) ==> handler.running
      ensures handler != null ==>
                handler.Abs() ==
                if !old(running) && !old(handler.running) && handler.hasContext && list.Some?
                then AfterDiscovery(old(handler.Abs()), list.value) else old(handler.Abs())
    {
      hide Agree;
      if handler != null && list.Some? { DiscoveryOnlyLists(handler.Abs(), self, list.value); }
      if running {
        return AlreadyInitialized;
      }
      if handler != null {
        handler.StartDiscovery(list);
      }
      running := true;
      return Succeeded;
    }

    method Cleanup(bulk: BulkOutcome)
      requires Valid()
      modifies this`sessions, registry, usb, handler, if handler == null then null else handler.ownership
      ensures Valid() && sessions == {} && usb.world.open == map[]
      ensures handler == null ==> usb.world == old(usb.world) && registry.file == old(registry.file)
      ensures handler != null ==> handler.claimed == map[] && handler.running == old(handler.running)
      ensures handler != null ==> handler.Abs() == AfterReleaseAll(old(handler.Abs()), bulk.reattached, bulk.wrote)
      ensures handler != null && OwnersAgree(old(handler.Abs()), self) ==> OwnersAgree(handler.Abs(), self)
    {
      hide Agree, AfterReleaseAll;
      if handler != null {
        Destroy(handler, bulk);
        assert handler.Abs().world.open == map[];
      }
      sessions := {};
    }

    method StopInternal(bulk: BulkOutcome) returns (outcome: Outcome)
      requires Valid()
      modifies Footprint()
      ensures Valid() && !running
      ensures outcome == if old(running) then Succeeded else NotInitialized
      ensures handler == old(handler) && hasContext == old(hasContext) && contexts == old(contexts)
      ensures old(running) ==> sessions == {} && usb.world.open == map[]
      ensures old(running) && handler != null ==> handler.claimed == map[] && !handler.running
      ensures !old(running) || handler == null ==> usb.world == old(usb.world) && registry.file == old(registry.file)
      ensures !old(running) ==> sessions == old(sessions)
      ensures handler != null && OwnersAgree(old(handler.Abs()), self) ==> OwnersAgree(handler.Abs(), self)
    {
      hide Agree, OwnersAgree, AfterReleaseAll;
      if !running {
        return NotInitialized;
      }
      if handler != null {
        handler.StopDiscovery();
      }
      Cleanup(bulk);
      running := false;
      return Succeeded;
    }

    /**
     From every state the module can be in: before init, running, stopped with later claims, or with
     a handler just replaced. Afterwards nothing is claimed and no handle is open, the core's registry
     lists no device for this module, and the registry file is empty if the last write succeeded. Of
     several inits only the last one's context is closed. A second call changes nothing.
     */
    method ShutdownWithReason(stopBulk: BulkOutcome, destroyBulk: BulkOutcome)
      requires Valid()
      modifies Footprint()
      ensures Valid() && Down() && usb.world.open == map[]
      ensures contexts == old(contexts) - if old(hasContext) then 1 else 0
      ensures old(handler) != null && destroyBulk.wrote ==> registry.file == Some(RegistryFile([]))
      ensures old(handler) != null && old(handler).ownership != null && OwnersAgree(old(handler.Abs()), self) ==>
                self.moduleName !in old(handler).ownership.owners.Values
      ensures old(Down()) ==> usb.world == old(usb.world) && registry.file == old(registry.file)
    {
      hide Agree, AfterReleaseAll, OwnersAgree, Unaccounted;
      var _ := StopInternal(stopBulk);
      sessions := {};
      if handler != null {
        DropHandler(destroyBulk);
      }
      if hasContext {
        hasContext, contexts := false, contexts - 1;
      }
    }

    /** The destructor shuts down only what is still live. */
    method Destructor(stopBulk: BulkOutcome, destroyBulk: BulkOutcome)
      requires Valid()
      modifies Footprint()
      ensures Valid() && Down() && usb.world.open == map[]
      ensures old(Down()) ==> usb.world == old(usb.world) && registry.file == old(registry.file)
    {
      if running || handler != null || hasContext || sessions != {} {
        ShutdownWithReason(stopBulk, destroyBulk);
      }
    }

    /** Each command reaches the handler's operation of that name; anything else changes nothing. */
    method HandleManagementMessage(m: Message, clientPid: int32, list: Option<seq<BusDevice>>,
                                   claim: ClaimOutcome, release: ReleaseOutcome)
      returns (outcome: Outcome, reply: Reply)
      requires Valid() && FreshHandle(usb.world, claim)
      modifies registry, usb, handler, if handler == null then null else handler.ownership
      ensures Valid()
      ensures outcome ==
              match CommandOf(m)
              case None => InvalidMessage
              case Some(RequestDiscovery) => Succeeded
              case Some(ClaimItem) =>
                if handler == null then NotInitialized
                else FromHandler(ClaimCode(old(handler.Abs()), m.deviceId, claim))
              case Some(ReleaseItem) =>
                if handler == null then NotInitialized else FromHandler(ReleaseCode(old(handler.Abs()), m.deviceId))
              case Some(OtherCommand) => UnknownCommand
      ensures m.cmd == Some(OtherCommand) ==> outcome == UnknownCommand
      ensures m.cmd == Some(RequestDiscovery) ==> outcome == Succeeded
      ensures (m.cmd == Some(ClaimItem) || m.cmd == Some(ReleaseItem)) && handler == null ==> outcome == NotInitialized
      ensures reply ==
              match CommandOf(m)
              case Some(ClaimItem) =>
                if handler == null then NoReply
                else if outcome == FromHandler(SUCCESS) then ItemClaimed(m.deviceId.value, self.moduleName)
                else ErrorReply(ITEM_CLAIMED, if m.deviceId.None? then "" else m.deviceId.value, outcome.code)
              case Some(ReleaseItem) =>
                if handler == null || m.deviceId.None? then NoReply
                else if outcome == FromHandler(SUCCESS) then ItemReleased(m.deviceId.value)
                else ErrorReply(ITEM_RELEASED, m.deviceId.value, outcome.code)
              case _ => NoReply
      ensures handler != null ==>
                handler.Abs() ==
                match CommandOf(m)
                case Some(RequestDiscovery) =>
                  if handler.hasContext && list.Some? then AfterDiscovery(old(handler.Abs()), list.value)
                  else old(handler.Abs())
                case Some(ClaimItem) => AfterClaim(old(handler.Abs()), self, m.deviceId, clientPid, claim)
                case Some(ReleaseItem) => AfterRelease(old(handler.Abs()), m.deviceId, release)
                case _ => old(handler.Abs())
      ensures handler == null ==> usb.world == old(usb.world) && registry.file == old(registry.file)
    {
      hide Agree, AfterClaim, AfterRelease, ClaimCode, ReleaseCode, Unaccounted, AfterDiscovery;
      hide WellFormed, FreshHandle, Claimable, OwnersAgree;
      reply := NoReply;
      match CommandOf(m)
      case None =>
        return InvalidMessage, NoReply;
      case Some(RequestDiscovery) =>
        if handler != null {
          if list.Some? { DiscoveryOnlyLists(handler.Abs(), self, list.value); }
          handler.DiscoverDevices(list);
        }
        return Succeeded, NoReply;
      case Some(ClaimItem) =>
        if handler == null {
          return NotInitialized, NoReply;
        }
        ClaimAccounts(handler.Abs(), self, m.deviceId, clientPid, claim);
        var code;
        code, reply := handler.ClaimDevice(m.deviceId, clientPid, claim);
        AgreeIsWellFormed(handler.Abs());
        return FromHandler(code), reply;
      case Some(ReleaseItem) =>
        if handler == null {
          return NotInitialized, NoReply;
        }
        ReleaseAccounts(handler.Abs(), m.deviceId, release);
        var code;
        code, reply := handler.ReleaseDevice(m.deviceId, release);
        AgreeIsWellFormed(handler.Abs());
        return FromHandler(code), reply;
      case Some(OtherCommand) =>
        return UnknownCommand, NoReply;
    }
  }
}
