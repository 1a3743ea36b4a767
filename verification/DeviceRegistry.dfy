/** The crash-recovery registry: every change reads, parses, filters and prints the whole file. */
module DeviceRegistry {
  import opened Wrappers
  import opened Decimal
  import opened RegistryText
  import opened RegistryScan
  import opened RegistryRoundTrip
  import opened RegistryExact

  // ----- The plain ordered list the file stands for

  function Without(devices: seq<ClaimedDevice>, id: string): seq<ClaimedDevice> {
    if devices == [] then []
    else (if devices[0].deviceId == id then [] else [devices[0]]) + Without(devices[1..], id)
  }

  function WithLast(devices: seq<ClaimedDevice>, d: ClaimedDevice): seq<ClaimedDevice> {
    Without(devices, d.deviceId) + [d]
  }

  function Ids(devices: seq<ClaimedDevice>): set<string> {
    set d | d in devices :: d.deviceId
  }

  ghost predicate DistinctIds(devices: seq<ClaimedDevice>) {
    forall i, j :: 0 <= i < j < |devices| ==> devices[i].deviceId != devices[j].deviceId
  }

  lemma {:induction false} WithoutKeepsOthers(devices: seq<ClaimedDevice>, id: string)
    ensures forall d :: d in Without(devices, id) <==> d in devices && d.deviceId != id
    ensures |Without(devices, id)| == |devices| <==> id !in Ids(devices)
    ensures |Without(devices, id)| <= |devices|
    ensures id !in Ids(devices) ==> Without(devices, id) == devices
  {
    if devices != [] {
      WithoutKeepsOthers(devices[1..], id);
      assert devices == [devices[0]] + devices[1..];
      assert Ids(devices) == {devices[0].deviceId} + Ids(devices[1..]);
    }
  }

  /** The others keep their order. */
  lemma {:induction false} WithoutSplits(a: seq<ClaimedDevice>, b: seq<ClaimedDevice>, id: string)
    ensures Without(a + b, id) == Without(a, id) + Without(b, id)
    ensures |a| == 1 ==> Without(a, id) == if a[0].deviceId == id then [] else a
  {
    if a == [] {
      assert a + b == b && [] + Without(b, id) == Without(b, id);
    } else {
      var first: seq<ClaimedDevice> := if a[0].deviceId == id then [] else [a[0]];
      assert (a + b)[1..] == a[1..] + b && (a + b)[0] == a[0];
      WithoutSplits(a[1..], b, id);
      assert first + (Without(a[1..], id) + Without(b, id)) == (first + Without(a[1..], id)) + Without(b, id);
    }
  }

  lemma {:induction false} WithoutKeepsDistinct(devices: seq<ClaimedDevice>, id: string)
    requires DistinctIds(devices)
    ensures DistinctIds(Without(devices, id))
  {
    if devices != [] {
      var rest := devices[1..];
      WithoutKeepsDistinct(rest, id);
      WithoutKeepsOthers(rest, id);
      forall j | 0 <= j < |Without(rest, id)| ensures Without(rest, id)[j].deviceId != devices[0].deviceId {
        assert Without(rest, id)[j] in rest;
      }
    }
  }

  // ----- The file

  function EntriesOf(file: Option<string>): seq<ClaimedDevice> {
    if file.None? then [] else ReadText(file.value)
  }

  /** `wrote` tells whether the file could be opened for writing; no caller looks at it. */
  datatype Change =
    | Add(device: ClaimedDevice, wrote: bool)
    | Remove(id: string, wrote: bool)
    | Clear(wrote: bool)

  function FileAfter(file: Option<string>, c: Change): Option<string> {
    match c
    case Add(d, wrote) => if wrote then Some(RegistryFile(WithLast(EntriesOf(file), d))) else file
    case Remove(id, wrote) =>
      if wrote && id in Ids(EntriesOf(file)) then Some(RegistryFile(Without(EntriesOf(file), id))) else file
    case Clear(wrote) => if wrote then Some(RegistryFile([])) else file
  }

  function ListAfter(devices: seq<ClaimedDevice>, c: Change): seq<ClaimedDevice> {
    if !c.wrote then devices
    else match c
      case Add(d, _) => WithLast(devices, d)
      case Remove(id, _) => Without(devices, id)
      case Clear(_) => []
  }

  function FilesAfter(file: Option<string>, changes: seq<Change>): Option<string>
    decreases |changes|
  {
    if changes == [] then file else FilesAfter(FileAfter(file, changes[0]), changes[1..])
  }

  function ListsAfter(devices: seq<ClaimedDevice>, changes: seq<Change>): seq<ClaimedDevice>
    decreases |changes|
  {
    if changes == [] then devices else ListsAfter(ListAfter(devices, changes[0]), changes[1..])
  }

  predicate PrintableChange(c: Change) {
    c.Add? ==> Printable(c.device.deviceId)
  }

  /** One change made through the printed bytes is that change of the list. */
  lemma ChangeAgrees(file: Option<string>, c: Change)
    requires AllPrintable(EntriesOf(file)) && PrintableChange(c)
    ensures EntriesOf(FileAfter(file, c)) == ListAfter(EntriesOf(file), c)
    ensures AllPrintable(EntriesOf(FileAfter(file, c)))
    ensures DistinctIds(EntriesOf(file)) ==> DistinctIds(EntriesOf(FileAfter(file, c)))
  {
    var devices := EntriesOf(file);
    hide RegistryFile, ReadText, Printable;
    match c
    case Add(d, _) =>
      WithoutKeepsOthers(devices, d.deviceId);
      RoundTripExact(WithLast(devices, d));
      if DistinctIds(devices) {
        WithoutKeepsDistinct(devices, d.deviceId);
        var others := Without(devices, d.deviceId);
        assert forall i :: 0 <= i < |others| ==> others[i] in others;
      }
    case Remove(id, _) =>
      WithoutKeepsOthers(devices, id);
      RoundTripExact(Without(devices, id));
      if DistinctIds(devices) { WithoutKeepsDistinct(devices, id); }
    case Clear(_) =>
      RoundTripExact([]);
  }

  /**
   Any sequence of changes, each made by reading, parsing, filtering and printing the file, leaves
   the file standing for what the same sequence makes of a plain list; its ids stay distinct.
   */
  lemma {:induction false} ChangesAgree(file: Option<string>, changes: seq<Change>)
    requires AllPrintable(EntriesOf(file)) && DistinctIds(EntriesOf(file))
    requires forall c :: c in changes ==> PrintableChange(c)
    ensures EntriesOf(FilesAfter(file, changes)) == ListsAfter(EntriesOf(file), changes)
    ensures DistinctIds(EntriesOf(FilesAfter(file, changes)))
    decreases |changes|
  {
    if changes != [] {
      hide FileAfter, ListAfter, EntriesOf, DistinctIds;
      ChangeAgrees(file, changes[0]);
      ChangesAgree(FileAfter(file, changes[0]), changes[1..]);
    }
  }

  /** An added entry is found again, last in the list, exactly when its id is printable. */
  lemma AddSurvivesIffPrintable(file: Option<string>, d: ClaimedDevice)
    requires AllPrintable(EntriesOf(file))
    ensures EntriesOf(FileAfter(file, Add(d, true))) == WithLast(EntriesOf(file), d) <==> Printable(d.deviceId)
  {
    hide RegistryFile, ReadText, Printable;
    RoundTripExact(WithLast(EntriesOf(file), d));
    WithoutKeepsOthers(EntriesOf(file), d.deviceId);
    assert d in WithLast(EntriesOf(file), d);
  }

  /** Where the new entry goes: behind the others, which keep their order. */
  lemma AddedIsLast(file: Option<string>, d: ClaimedDevice)
    requires AllPrintable(EntriesOf(file)) && Printable(d.deviceId)
    ensures var entries := EntriesOf(FileAfter(file, Add(d, true)));
            && entries != [] && entries[|entries| - 1] == d
            && entries[..|entries| - 1] == Without(EntriesOf(file), d.deviceId)
  {
    hide AllPrintable, Printable, FileAfter, EntriesOf, Without;
    ChangeAgrees(file, Add(d, true));
  }

  /** An id that is in no entry is removed without touching the file, and so is one not written. */
  lemma FileIsKept(file: Option<string>, c: Change)
    ensures !c.wrote ==> FileAfter(file, c) == file
    ensures c.Remove? && (forall d :: d in EntriesOf(file) ==> d.deviceId != c.id) ==> FileAfter(file, c) == file
  {
  }

  // ----- The class

  class DeviceRegistry {
    var file: Option<string>

    constructor ()
      ensures file == None
    {
      file := None;
    }

    ghost function Entries(): seq<ClaimedDevice>
      reads this
    {
      EntriesOf(file)
    }

    /** The position of the first opening brace from `pos` on, or the end of the text. */
    static method FindBrace(content: string, pos: nat) returns (start: nat)
      requires pos <= |content|
      ensures pos <= start <= |content|
      ensures '{' !in content[pos..start]
      ensures start < |content| ==> content[start] == '{'
    {
      start := pos;
      while start < |content| && content[start] != '{'
        invariant pos <= start <= |content| && '{' !in content[pos..start]
      {
        start := start + 1;
      }
    }

    /** The position of the brace that closes the one at `start`, or `start` if there is none. */
    static method MatchBrace(content: string, start: nat) returns (end: nat)
      requires start < |content| && content[start] == '{'
      ensures var n := Close(content[start + 1..], 1);
              end == if n < 0 then start else start + 1 + n
    {
      var depth := 0;
      end := start;
      var i := start;
      while i < |content|
        invariant start <= i <= |content| && end == start
        invariant i == start ==> depth == 0
        invariant i > start ==> depth > 0
        invariant i > start ==> (
          var n := Close(content[i..], depth);
          Close(content[start + 1..], 1) == if n < 0 then -1 else i - start - 1 + n)
      {
        if i > start { assert content[i..][1..] == content[i + 1..]; }
        if content[i] == '{' {
          depth := depth + 1;
        }
        if content[i] == '}' {
          depth := depth - 1;
          if depth == 0 {
            end := i;
            return;
          }
        }
        i := i + 1;
      }
    }

    static method ReadBool(obj: string, key: string) returns (b: bool)
      ensures b == ExtractBool(obj, key)
    {
      match After(obj, key)
      case None => return false;
      case Some(rest) =>
        var p := 0;
        while p < |rest| && (rest[p] == ' ' || rest[p] == '\t')
          invariant 0 <= p <= |rest| && SkipBlanks(rest[p..]) == SkipBlanks(rest)
        {
          assert rest[p..][1..] == rest[p + 1..];
          p := p + 1;
        }
        assert SkipBlanks(rest[p..]) == rest[p..];
        return "true" <= rest[p..];
    }

    /** Ends on every text, never indexes out of range, and yields the entries of the text. */
    method ReadRegistry() returns (devices: seq<ClaimedDevice>)
      ensures devices == Entries()
    {
      hide *;
      EntriesAre();
      devices := [];
      if file.None? {
        return;
      }
      var content := file.value;
      var pos := 0;
      assert content[0..] == content;
      while pos < |content|
        invariant 0 <= pos <= |content|
        invariant devices + ReadText(content[pos..]) == ReadText(content)
      {
        var objStart := FindBrace(content, pos);
        ReadUpTo(content, pos, objStart);
        if objStart == |content| {
          return;
        }
        var objEnd := MatchBrace(content, objStart);
        if objEnd == objStart {
          pos := pos + 1;
          continue;
        }
        var obj := content[objStart + 1..objEnd];
        var driver := ReadBool(obj, DRIVER_KEY);
        var d := ClaimedDevice(
          ToInt32(ExtractInt(obj, PID_KEY)),
          ExtractString(obj, ID_KEY),
          ToInt32(ExtractInt(obj, INTERFACE_KEY)),
          driver);
        EntryIs(obj, d);
        if d.deviceId != "" {
          devices := devices + [d];
        }
        pos := objEnd + 1;
      }
      ReadUpTo(content, pos, pos);
    }

    lemma EntriesAre()
      ensures Entries() == if file.None? then [] else ReadText(file.value)
    {
    }

    /** What one round of the loop may do, given the next opening brace. */
    static lemma ReadUpTo(content: string, pos: nat, start: nat)
      requires pos <= start <= |content| && '{' !in content[pos..start]
      requires start < |content| ==> content[start] == '{'
      ensures start == |content| ==> ReadText(content[pos..]) == []
      ensures start < |content| ==>
                var n := Close(content[start + 1..], 1);
                ReadText(content[pos..]) ==
                if n < 0 then ReadText(content[pos + 1..])
                else ParseObject(content[start + 1..start + 1 + n]) + ReadText(content[start + n + 2..])
    {
      assert content[pos..start] + content[start..] == content[pos..];
      ReadSkips(content[pos..start], content[start..]);
      if start == |content| {
        ReadEmpty();
        assert content[start..] == "";
      } else if Close(content[start + 1..], 1) < 0 {
        ReadPastOne(content, pos, start);
      } else {
        ReadOneObject(content, start);
      }
    }

    static lemma ReadOneObject(content: string, start: nat)
      requires start < |content| && content[start] == '{' && Close(content[start + 1..], 1) >= 0
      ensures var n := Close(content[start + 1..], 1);
              ReadText(content[start..]) ==
              ParseObject(content[start + 1..start + 1 + n]) + ReadText(content[start + n + 2..])
    {
      hide *;
      var inner := content[start + 1..];
      var n := Close(inner, 1);
      assert content[start..] == "{" + inner;
      ReadBrace(inner);
      BehindIs(inner, 1);
      assert inner[..n] == content[start + 1..start + 1 + n];
      assert inner[n + 1..] == content[start + n + 2..];
    }

    static lemma ReadEmpty()
      ensures ReadText("") == []
    {
    }

    static lemma EntryIs(obj: string, d: ClaimedDevice)
      requires d == ClaimedDevice(ToInt32(ExtractInt(obj, PID_KEY)), ExtractString(obj, ID_KEY),
                                  ToInt32(ExtractInt(obj, INTERFACE_KEY)), ExtractBool(obj, DRIVER_KEY))
      ensures ParseObject(obj) == if d.deviceId == "" then [] else [d]
    {
    }

    /** After an unmatched brace the reader moves on by a single character. */
    static lemma ReadPastOne(content: string, pos: nat, start: nat)
      requires pos <= start < |content| && content[start] == '{' && '{' !in content[pos..start]
      requires Close(content[start + 1..], 1) < 0
      ensures ReadText(content[pos..]) == ReadText(content[pos + 1..])
    {
      assert content[pos..][1..] == content[pos + 1..];
      if pos < start {
        assert content[pos] == content[pos..start][0];
      }
    }

    method WriteRegistry(devices: seq<ClaimedDevice>, writable: bool) returns (ok: bool)
      modifies this
      ensures ok == writable
      ensures file == if writable then Some(RegistryFile(devices)) else old(file)
    {
      hide ObjectText, RegistryFile, PrintedFrom;
      if !writable {
        return false;
      }
      var text := "[";
      var i := 0;
      while i < |devices|
        invariant 0 <= i <= |devices|
        invariant text == PrintedTo(devices, i)
      {
        if i > 0 {
          text := text + ",";
        }
        text := text + ObjectText(devices[i]);
        i := i + 1;
      }
      text := text + "]\n";
      PrintedWhole(devices);
      file := Some(text);
      return true;
    }

    /** What is printed once `i` objects are, and what is still to be printed then. */
    static function PrintedTo(devices: seq<ClaimedDevice>, i: nat): string
      requires i <= |devices|
    {
      if i == 0 then "["
      else (if i == 1 then PrintedTo(devices, 0) else PrintedTo(devices, i - 1) + ",") + ObjectText(devices[i - 1])
    }

    static function PrintedFrom(devices: seq<ClaimedDevice>, i: nat): string
      requires i <= |devices|
      decreases |devices| - i
    {
      if i == |devices| then "]\n"
      else if i == 0 then ObjectText(devices[0]) + PrintedFrom(devices, 1)
      else "," + (ObjectText(devices[i]) + PrintedFrom(devices, i + 1))
    }

    static lemma {:induction false} PrintedAll(devices: seq<ClaimedDevice>, i: nat)
      requires i <= |devices|
      ensures PrintedTo(devices, i) + PrintedFrom(devices, i) == RegistryFile(devices)
    {
      hide ObjectText;
      if i == 0 {
        PrintedIs(devices, 0);
        assert devices[0..] == devices;
      } else {
        PrintedAll(devices, i - 1);
        var before, last, rest := PrintedTo(devices, i - 1), ObjectText(devices[i - 1]), PrintedFrom(devices, i);
        if i == 1 {
          Assoc(before, last, rest);
        } else {
          Assoc(before, ",", last + rest);
          Assoc(before + ",", last, rest);
        }
      }
    }

    static lemma PrintedWhole(devices: seq<ClaimedDevice>)
      ensures PrintedTo(devices, |devices|) + "]\n" == RegistryFile(devices)
    {
      PrintedAll(devices, |devices|);
    }

    static lemma {:induction false} PrintedIs(devices: seq<ClaimedDevice>, i: nat)
      requires i <= |devices|
      ensures PrintedFrom(devices, i) ==
              if 0 < i < |devices| then "," + ObjectsText(devices[i..]) else ObjectsText(devices[i..])
      decreases |devices| - i
    {
      if i < |devices| {
        hide ObjectText;
        PrintedIs(devices, i + 1);
        assert devices[i..][1..] == devices[i + 1..];
      }
    }

    method AddDevice(deviceId: string, interfaceNumber: int32, kernelDriverAttached: bool, pid: int32, writable: bool)
      modifies this
      ensures var entry := ClaimedDevice(pid, deviceId, interfaceNumber, kernelDriverAttached);
              && file == FileAfter(old(file), Add(entry, writable))
              && file == if writable then Some(RegistryFile(Without(old(Entries()), deviceId) + [entry])) else old(file)
    {
      var d := ClaimedDevice(pid, deviceId, interfaceNumber, kernelDriverAttached);
      var devices := ReadRegistry();
      devices := Without(devices, deviceId);
      devices := devices + [d];
      var _ := WriteRegistry(devices, writable);
    }

    /** True iff the id was in the file, even when the file could not be rewritten. */
    method RemoveDevice(deviceId: string, writable: bool) returns (removed: bool)
      modifies this
      ensures removed <==> deviceId in Ids(old(Entries()))
      ensures file == FileAfter(old(file), Remove(deviceId, writable))
      ensures file == if removed && writable then Some(RegistryFile(Without(old(Entries()), deviceId))) else old(file)
    {
      var devices := ReadRegistry();
      var kept := Without(devices, deviceId);
      WithoutKeepsOthers(devices, deviceId);
      if |kept| == |devices| {
        return false;
      }
      var _ := WriteRegistry(kept, writable);
      return true;
    }

    method GetAllDevices() returns (devices: seq<ClaimedDevice>)
      ensures devices == Entries()
    {
      devices := ReadRegistry();
    }

    method RemoveAll(writable: bool)
      modifies this
      ensures file == FileAfter(old(file), Clear(writable))
      ensures file == if writable then Some("[]\n") else old(file)
    {
      assert RegistryFile([]) == "[]\n";
      var _ := WriteRegistry([], writable);
    }
  }
}
