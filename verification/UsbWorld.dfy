/** The part of libusb the module sees: what is on the bus, what is open, what is detached. */
module UsbWorld {
  import opened Wrappers
  import opened Decimal
  import opened RegistryText
  import opened RegistryScan
  import opened RegistryRoundTrip

  type Byte = x: int | 0 <= x < 0x100
  type Word = x: int | 0 <= x < 0x1_0000

  /** An opaque libusb_device_handle*. */
  type Handle = nat
  const NULL: Handle := 0

  datatype Location = Location(bus: Byte, address: Byte)

  datatype BusDevice = BusDevice(
    location: Location,
    isHid: bool,
    descriptorRead: bool,
    vendorId: Word,
    productId: Word)

  /** A driver that was detached through a handle closed since, and never reattached. */
  datatype Stranded = Stranded(location: Location, interfaceNumber: int32)

  datatype World = World(
    open: map<Handle, Location>,
    interfaces: map<Handle, int32>,   // interface claimed through the handle
    detached: map<Handle, int32>,     // interface whose kernel driver the handle detached
    stranded: set<Stranded>)

  ghost predicate WellFormed(w: World) {
    w.interfaces.Keys <= w.open.Keys && w.detached.Keys <= w.open.Keys && NULL !in w.open
  }

  /** Closing gives up the interface, and strands a driver that is still detached. */
  function Closed(w: World, h: Handle): World {
    World(
      w.open - {h}, w.interfaces - {h}, w.detached - {h},
      w.stranded + if h in w.detached && h in w.open then {Stranded(w.open[h], w.detached[h])} else {})
  }

  /** The "bus:address" id of a device. */
  function IdOf(l: Location): string {
    NatText(l.bus) + (":" + NatText(l.address))
  }

  ghost predicate IsBusId(id: string) {
    exists l: Location :: id == IdOf(l)
  }

  lemma {:induction false} PrefixUpToColon(a: string, x: string, b: string, y: string)
    requires ':' !in a && ':' !in b && a + (":" + x) == b + (":" + y)
    ensures a == b && x == y
  {
    var text := a + (":" + x);
    assert text[|a|] == ':' && text[|b|] == ':';
    assert |a| == |b|;
    assert a == text[..|a|] && b == text[..|b|];
    assert x == text[|a| + 1..] && y == text[|b| + 1..];
  }

  /** The id is the bus, a colon and the address, in this order and in decimal. */
  lemma IdReadsBack(l: Location)
    ensures ReadDigits(IdOf(l), 0) == l.bus
    ensures After(IdOf(l), ":").Some? && ReadDigits(After(IdOf(l), ":").value, 0) == l.address
  {
    ReadNatText(l.bus, ":" + NatText(l.address));
    ReadNatText(l.address, "");
    assert NatText(l.address) + "" == NatText(l.address);
    FirstColon(NatText(l.bus), NatText(l.address));
  }

  lemma {:induction false} FirstColon(a: string, b: string)
    requires forall i :: 0 <= i < |a| ==> IsDigit(a[i])
    ensures After(a + (":" + b), ":") == Some(b)
  {
    var text := a + (":" + b);
    if a == "" {
      assert text == ":" + b && text[1..] == b;
    } else {
      assert text[0] == a[0] && text[1..] == a[1..] + (":" + b);
      FirstColon(a[1..], b);
    }
  }

  lemma IdExample()
    ensures IdOf(Location(1, 4)) == "1:4"
  {
  }

  /** Different places on the bus have different ids. */
  lemma IdOfInjective(a: Location, b: Location)
    requires IdOf(a) == IdOf(b)
    ensures a == b
  {
    PrefixUpToColon(NatText(a.bus), NatText(a.address), NatText(b.bus), NatText(b.address));
    NatTextInjective(a.bus, b.bus);
    NatTextInjective(a.address, b.address);
  }

  /** Every such id survives the registry file. */
  lemma BusIdsArePrintable(id: string)
    requires IsBusId(id)
    ensures Printable(id)
  {
    var l: Location :| id == IdOf(l);
    NatTextPlain(l.bus);
    NatTextPlain(l.address);
    BraceFreeAppend(":", NatText(l.address));
    BraceFreeAppend(NatText(l.bus), ":" + NatText(l.address));
    WalkBraceFree(id, 0);
  }

  // Foreign calls; whether each succeeds, and which handle an open yields, is the caller's input.
  class Libusb {
    var world: World

    constructor ()
      ensures world == World(map[], map[], map[], {})
    {
      world := World(map[], map[], map[], {});
    }

    method Open(l: Location, ok: bool, handle: Handle)
      modifies this
      ensures world == if ok then old(world).(open := old(world.open)[handle := l]) else old(world)
    {
      if ok {
        world := world.(open := world.open[handle := l]);
      }
    }

    method ClaimInterface(h: Handle, iface: int32, ok: bool)
      modifies this
      ensures world == if ok then old(world).(interfaces := old(world.interfaces)[h := iface]) else old(world)
    {
      if ok {
        world := world.(interfaces := world.interfaces[h := iface]);
      }
    }

    method DetachKernelDriver(h: Handle, iface: int32, ok: bool)
      modifies this
      ensures world == if ok then old(world).(detached := old(world.detached)[h := iface]) else old(world)
    {
      if ok {
        world := world.(detached := world.detached[h := iface]);
      }
    }

    method ReleaseInterface(h: Handle, iface: int32)
      modifies this
      ensures world == old(world).(interfaces := old(world.interfaces) - {h})
    {
      world := world.(interfaces := world.interfaces - {h});
    }

    method AttachKernelDriver(h: Handle, iface: int32, ok: bool)
      modifies this
      ensures world == if ok then old(world).(detached := old(world.detached) - {h}) else old(world)
    {
      if ok {
        world := world.(detached := world.detached - {h});
      }
    }

    method Close(h: Handle)
      modifies this
      ensures world == Closed(old(world), h)
    {
      world := Closed(world, h);
    }
  }
}
