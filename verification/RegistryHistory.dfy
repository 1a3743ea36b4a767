/** What the registry file holds after a run in which any of its writes may fail. */
module RegistryHistory {
  import opened Wrappers
  import opened Decimal
  import opened RegistryText
  import opened RegistryRoundTrip
  import opened DeviceRegistry
  import opened UsbWorld
  import opened DeviceState
  import opened DeviceInvariants

  /** The entries with the id, in order. */
  function EntriesFor(entries: seq<ClaimedDevice>, id: string): seq<ClaimedDevice> {
    if entries == [] then []
    else (if entries[0].deviceId == id then [entries[0]] else []) + EntriesFor(entries[1..], id)
  }

  lemma {:induction false} EntriesForWithout(entries: seq<ClaimedDevice>, gone: string, id: string)
    ensures EntriesFor(Without(entries, gone), id) == if id == gone then [] else EntriesFor(entries, id)
  {
    if entries != [] {
      var rest := Without(entries[1..], gone);
      EntriesForWithout(entries[1..], gone, id);
      if entries[0].deviceId == gone {
        assert Without(entries, gone) == rest;
      } else {
        assert Without(entries, gone) == [entries[0]] + rest && ([entries[0]] + rest)[1..] == rest;
      }
    }
  }

  lemma {:induction false} EntriesForAppend(entries: seq<ClaimedDevice>, d: ClaimedDevice, id: string)
    ensures EntriesFor(entries + [d], id) == EntriesFor(entries, id) + if d.deviceId == id then [d] else []
  {
    if entries == [] {
      assert entries + [d] == [d];
    } else {
      var first := if entries[0].deviceId == id then [entries[0]] else [];
      var last := if d.deviceId == id then [d] else [];
      assert (entries + [d])[1..] == entries[1..] + [d] && (entries + [d])[0] == entries[0];
      EntriesForAppend(entries[1..], d, id);
      assert first + (EntriesFor(entries[1..], id) + last) == (first + EntriesFor(entries[1..], id)) + last;
    }
  }

  lemma {:induction false} EntriesForAre(entries: seq<ClaimedDevice>, id: string)
    ensures forall d :: d in EntriesFor(entries, id) <==> d in entries && d.deviceId == id
    ensures (forall d :: d in entries ==> d.deviceId != id) ==> EntriesFor(entries, id) == []
  {
    if entries != [] {
      EntriesForAre(entries[1..], id);
      assert entries == [entries[0]] + entries[1..];
    }
  }

  // ----- The last successful change

  /** What an operation writes about the id: its new entries, or None if it leaves them alone. */
  function WrittenBy(s: State, self: Self, op: Operation, id: string): Option<seq<ClaimedDevice>> {
    match op
    case Discover(_) => None
    case Claim(claimId, _, o) =>
      if ClaimCode(s, claimId, o) == SUCCESS && o.wrote && claimId.value == id
      then Some([ClaimedDevice(self.pid, id, s.available[id].interfaceNumber, o.driverActive && o.detachOk)])
      else None
    case Release(releaseId, o) =>
      if ReleaseCode(s, releaseId) == SUCCESS && o.wrote && releaseId.value == id then Some([]) else None
    case ReleaseAll(_, wrote) => if wrote then Some([]) else None
  }

  /** What the last operation of the run to write about the id wrote. */
  ghost function LastWritten(s: State, self: Self, ops: seq<Operation>, id: string): Option<seq<ClaimedDevice>>
    decreases |ops|
  {
    if ops == [] then None
    else
      var later := LastWritten(Next(s, self, ops[0]), self, ops[1..], id);
      if later.Some? then later else WrittenBy(s, self, ops[0], id)
  }

  /** The change of the file that an operation makes, if any. */
  function ChangeOf(s: State, self: Self, op: Operation): Option<Change> {
    match op
    case Discover(_) => None
    case Claim(id, _, o) =>
      if ClaimCode(s, id, o) != SUCCESS then None
      else Some(Add(ClaimedDevice(self.pid, id.value, s.available[id.value].interfaceNumber,
                                  o.driverActive && o.detachOk), o.wrote))
    case Release(id, o) => if ReleaseCode(s, id) != SUCCESS then None else Some(Remove(id.value, o.wrote))
    case ReleaseAll(_, wrote) => Some(Clear(wrote))
  }

  lemma NextFile(s: State, self: Self, op: Operation)
    ensures Next(s, self, op).file ==
            if ChangeOf(s, self, op).None? then s.file else FileAfter(s.file, ChangeOf(s, self, op).value)
  {
    hide FileAfter;
  }

  lemma ChangeIsPrintable(s: State, self: Self, op: Operation)
    requires Agree(s)
    ensures ChangeOf(s, self, op).Some? ==> PrintableChange(ChangeOf(s, self, op).value)
  {
    hide Printable, IsBusId;
    if op.Claim? && ClaimCode(s, op.id, op.claim) == SUCCESS {
      assert s.available[op.id.value].deviceId == op.id.value;
      BusIdsArePrintable(op.id.value);
    }
  }

  lemma ListChangeIs(s: State, self: Self, op: Operation, entries: seq<ClaimedDevice>, id: string)
    ensures ChangeOf(s, self, op).None? ==> WrittenBy(s, self, op, id).None?
    ensures ChangeOf(s, self, op).Some? ==>
              EntriesFor(ListAfter(entries, ChangeOf(s, self, op).value), id) ==
              match WrittenBy(s, self, op, id) case Some(written) => written case None => EntriesFor(entries, id)
  {
    hide EntriesFor, ClaimCode, Without;
    NoEntriesFor(id);
    if ChangeOf(s, self, op).Some? {
      match ChangeOf(s, self, op).value
      case Add(d, _) =>
        EntriesForWithout(entries, d.deviceId, id);
        EntriesForAppend(Without(entries, d.deviceId), d, id);
      case Remove(gone, _) =>
        EntriesForWithout(entries, gone, id);
      case Clear(_) =>
    }
  }

  lemma NoEntriesFor(id: string)
    ensures EntriesFor([], id) == []
  {
  }

  lemma OperationWrites(s: State, self: Self, op: Operation, id: string)
    requires Agree(s) && AllPrintable(EntriesOf(s.file))
    ensures var t := Next(s, self, op);
            && AllPrintable(EntriesOf(t.file))
            && EntriesFor(EntriesOf(t.file), id) ==
               match WrittenBy(s, self, op, id)
               case Some(written) => written
               case None => EntriesFor(EntriesOf(s.file), id)
  {
    hide *;
    NextFile(s, self, op);
    ChangeIsPrintable(s, self, op);
    ListChangeIs(s, self, op, EntriesOf(s.file), id);
    if ChangeOf(s, self, op).Some? { ChangeAgrees(s.file, ChangeOf(s, self, op).value); }
  }

  /**
   Whatever writes fail: after every run the file holds for each id what the last operation that
   wrote about it wrote, and what it held before if none did.
   */
  lemma {:induction false} FileOverRuns(s: State, self: Self, ops: seq<Operation>, id: string)
    requires Agree(s) && AllPrintable(EntriesOf(s.file)) && IsRun(s, self, ops)
    ensures EntriesFor(EntriesOf(DeviceInvariants.After(s, self, ops).file), id) ==
            match LastWritten(s, self, ops, id)
            case Some(written) => written
            case None => EntriesFor(EntriesOf(s.file), id)
    decreases |ops|
  {
    if ops != [] {
      hide Agree, Next, EntriesOf, EntriesFor, WrittenBy, Possible, AllPrintable;
      OperationWrites(s, self, ops[0], id);
      OperationKeeps(s, self, ops[0]);
      FileOverRuns(Next(s, self, ops[0]), self, ops[1..], id);
    }
  }

  // ----- Agreement, id by id

  /** What the file should hold for an id. */
  function Expected(claimed: map<string, DeviceInfo>, self: Self, id: string): seq<ClaimedDevice> {
    if id in claimed then [EntryOf(self, claimed[id])] else []
  }

  lemma {:induction false} AtMostOne(entries: seq<ClaimedDevice>, id: string)
    requires DistinctIds(entries)
    ensures |EntriesFor(entries, id)| <= 1
  {
    if entries != [] {
      var rest := entries[1..];
      assert forall j :: 0 <= j < |rest| ==> rest[j] == entries[j + 1];
      AtMostOne(rest, id);
      EntriesForAre(rest, id);
    }
  }

  lemma {:induction false} TwoFound(entries: seq<ClaimedDevice>, i: nat, j: nat)
    requires i < j < |entries| && entries[i].deviceId == entries[j].deviceId
    ensures |EntriesFor(entries, entries[i].deviceId)| >= 2
  {
    var id, rest := entries[i].deviceId, entries[1..];
    if i == 0 {
      EntriesForAre(rest, id);
      assert rest[j - 1] in EntriesFor(rest, id);
    } else {
      TwoFound(rest, i - 1, j - 1);
    }
  }

  lemma AgreesForId(entries: seq<ClaimedDevice>, claimed: map<string, DeviceInfo>, self: Self, id: string)
    requires EntriesAgree(entries, claimed, self)
    ensures EntriesFor(entries, id) == Expected(claimed, self, id)
  {
    AtMostOne(entries, id);
    EntriesForAre(entries, id);
    hide EntriesFor, EntryOf;
    var found := EntriesFor(entries, id);
    if id in claimed {
      assert id in Ids(entries);
      var d :| d in entries && d.deviceId == id;
      assert d in found;
    }
  }

  lemma AgreesWhenAllDo(entries: seq<ClaimedDevice>, claimed: map<string, DeviceInfo>, self: Self)
    requires forall id :: EntriesFor(entries, id) == Expected(claimed, self, id)
    ensures EntriesAgree(entries, claimed, self)
  {
    hide EntriesFor, EntryOf;
    forall i, j | 0 <= i < j < |entries| ensures entries[i].deviceId != entries[j].deviceId {
      if entries[i].deviceId == entries[j].deviceId { TwoFound(entries, i, j); }
    }
    forall d | d in entries ensures d.deviceId in claimed && d == EntryOf(self, claimed[d.deviceId]) {
      EntriesForAre(entries, d.deviceId);
      assert d in EntriesFor(entries, d.deviceId);
    }
    forall id | id in claimed ensures id in Ids(entries) {
      EntriesForAre(entries, id);
      assert EntriesFor(entries, id)[0] in entries;
    }
  }

  /**
   The file agrees with the claims after a run, whatever writes fail, exactly when for every id the
   last operation that wrote about it wrote what the claims call for now.
   */
  lemma FileAgreesOverRuns(s: State, self: Self, ops: seq<Operation>)
    requires Initial(s, self) && IsRun(s, self, ops)
    ensures var t := DeviceInvariants.After(s, self, ops);
            FileAgrees(t, self) <==>
            forall id :: Expected(t.claimed, self, id) ==
              match LastWritten(s, self, ops, id) case Some(written) => written case None => []
  {
    hide Initial, IsRun, LastWritten, DeviceInvariants.After, EntriesAgree, Expected, EntriesFor, EntriesOf;
    var t := DeviceInvariants.After(s, self, ops);
    var entries := EntriesOf(t.file);
    InitialAgrees(s, self);
    InitialFile(s, self);
    forall id ensures EntriesFor(entries, id) ==
                      match LastWritten(s, self, ops, id) case Some(written) => written case None => []
    {
      NoEntriesFor(id);
      FileOverRuns(s, self, ops, id);
    }
    if FileAgrees(t, self) {
      forall id ensures EntriesFor(entries, id) == Expected(t.claimed, self, id) {
        AgreesForId(entries, t.claimed, self, id);
      }
    }
    if forall id :: EntriesFor(entries, id) == Expected(t.claimed, self, id) {
      AgreesWhenAllDo(entries, t.claimed, self);
    }
  }

  lemma InitialFile(s: State, self: Self)
    requires Initial(s, self)
    ensures EntriesOf(s.file) == [] && AllPrintable(EntriesOf(s.file))
  {
  }
}
