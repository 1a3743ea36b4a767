/** What the reader makes of the printed registry: the round trip, and exactly when it holds. */
module RegistryRoundTrip {
  import opened Wrappers
  import opened Decimal
  import opened RegistryText
  import opened RegistryScan

  /** The ids that survive being printed and read back. */
  predicate Printable(id: string) {
    id != "" && Plain(id) && Balanced(id)
  }

  predicate AllPrintable(devices: seq<ClaimedDevice>) {
    forall d :: d in devices ==> Printable(d.deviceId)
  }

  // ----- One object's fields

  /** The object's text from after the quote that closes its id. */
  function AfterId(d: ClaimedDevice): string {
    "," + (INTERFACE_KEY + (IntText(d.interfaceNumber) + AfterInterface(d)))
  }

  function AfterInterface(d: ClaimedDevice): string {
    "," + (DRIVER_KEY + BoolText(d.kernelDriverAttached))
  }

  lemma Assoc(a: string, b: string, c: string)
    ensures (a + b) + c == a + (b + c)
  {
  }

  lemma KeyParts(name: string, x: string)
    ensures Key(name) + x == "\"" + (name + ("\"" + (":" + x)))
    ensures (Key(name) + "\"") + x == "\"" + (name + ("\"" + (":" + ("\"" + x))))
  {
  }

  /** The head of an object and what follows it, with the texts a search has to pass set apart. */
  lemma HeadParts(d: ClaimedDevice, rest: string)
    ensures Head(d) + rest ==
            "\"" + ("pid" + ("\"" + ((":" + IntText(d.pid) + ",") + (ID_KEY + rest))))
    ensures ID_KEY + rest == "\"" + ("device_id" + ("\"" + (":" + ("\"" + rest))))
  {
    hide IntText, Key;
    var number := IntText(d.pid);
    assert Head(d) + rest == PID_KEY + (number + ("," + (ID_KEY + rest))) by {
      Assoc(PID_KEY, number + ("," + ID_KEY), rest);
      Assoc(number, "," + ID_KEY, rest);
      Assoc(",", ID_KEY, rest);
    }
    KeyParts("pid", number + ("," + (ID_KEY + rest)));
    KeyParts("device_id", rest);
    assert ":" + (number + ("," + (ID_KEY + rest))) == (":" + number + ",") + (ID_KEY + rest);
  }

  lemma TailStartsWithQuote(d: ClaimedDevice)
    ensures Tail(d) == "\"" + AfterId(d)
  {
    hide IntText, BoolText, Key;
    assert "\"," == "\"" + ",";
    Assoc("\"", ",", INTERFACE_KEY + (IntText(d.interfaceNumber) + AfterInterface(d)));
  }

  /** Searching an object for a key other than pid and device_id reaches the end of the id. */
  lemma SearchPassesId(d: ClaimedDevice, k: string)
    requires Plain(d.deviceId) && Plain(k) && k != "" && k != "pid" && k != "device_id"
    requires k[0] != ':' && k[0] != ','
    ensures After(ObjectBody(d), Key(k)) == After(AfterId(d), Key(k))
  {
    HeadParts(d, d.deviceId + Tail(d));
    TailStartsWithQuote(d);
    IntTextPlain(d.pid);
    var key, number, rest := Key(k), ":" + IntText(d.pid) + ",", d.deviceId + Tail(d);
    assert key + "" == key && key[0] == '"';
    hide IntText, Key, After;
    AfterQuoted(k, "", "pid", number + (ID_KEY + rest));
    AfterPlain(number, ID_KEY + rest, key);
    AfterQuoted(k, "", "device_id", ":" + ("\"" + rest));
    AfterPlain(":", "\"" + rest, key);
    AfterQuoted(k, "", d.deviceId, AfterId(d));
  }

  lemma ReadsPid(d: ClaimedDevice)
    ensures ToInt32(ExtractInt(ObjectBody(d), PID_KEY)) == d.pid
  {
    var rest := "," + ID_KEY + (d.deviceId + Tail(d));
    assert ObjectBody(d) == PID_KEY + (IntText(d.pid) + rest);
    AfterHere(PID_KEY, IntText(d.pid) + rest);
    StollReadsIntText(d.pid, rest);
    ToInt32Keeps(d.pid);
  }

  /** The search for the id finds the end of the object's head, whatever follows. */
  lemma FindsId(d: ClaimedDevice, rest: string)
    ensures After(Head(d) + rest, ID_KEY) == Some(rest)
  {
    HeadParts(d, rest);
    IntTextPlain(d.pid);
    var number := ":" + IntText(d.pid) + ",";
    AfterQuoted("device_id", "\"", "pid", number + (ID_KEY + rest));
    AfterPlain(number, ID_KEY + rest, ID_KEY);
    AfterHere(ID_KEY, rest);
  }

  lemma ReadsInterface(d: ClaimedDevice)
    requires Plain(d.deviceId)
    ensures ToInt32(ExtractInt(ObjectBody(d), INTERFACE_KEY)) == d.interfaceNumber
  {
    SearchPassesId(d, "interface_number");
    AfterPlain(",", INTERFACE_KEY + (IntText(d.interfaceNumber) + AfterInterface(d)), INTERFACE_KEY);
    AfterHere(INTERFACE_KEY, IntText(d.interfaceNumber) + AfterInterface(d));
    StollReadsIntText(d.interfaceNumber, AfterInterface(d));
    ToInt32Keeps(d.interfaceNumber);
  }

  lemma BoolTextReads(b: bool)
    ensures BoolText(b) != "" && BoolText(b)[0] != '"' && SkipBlanks(BoolText(b)) == BoolText(b)
    ensures "true" <= BoolText(b) <==> b
  {
  }

  lemma ReadsDriver(d: ClaimedDevice)
    requires Plain(d.deviceId)
    ensures ExtractBool(ObjectBody(d), DRIVER_KEY) == d.kernelDriverAttached
  {
    hide IntText, After, ObjectBody, BoolText, SkipBlanks;
    SearchPassesId(d, "kernel_driver_attached");
    IntTextPlain(d.interfaceNumber);
    BoolTextReads(d.kernelDriverAttached);
    var text := BoolText(d.kernelDriverAttached);
    var number := ":" + IntText(d.interfaceNumber) + ",";
    var rest := IntText(d.interfaceNumber) + AfterInterface(d);
    assert DRIVER_KEY + "" == DRIVER_KEY;
    AfterPlain(",", INTERFACE_KEY + rest, DRIVER_KEY);
    KeyParts("interface_number", rest);
    hide DRIVER_KEY, INTERFACE_KEY;
    Assoc(":" + IntText(d.interfaceNumber), ",", DRIVER_KEY + text);
    Assoc(":", IntText(d.interfaceNumber), "," + (DRIVER_KEY + text));
    AfterQuoted("kernel_driver_attached", "", "interface_number", number + (DRIVER_KEY + text));
    AfterPlain(number, DRIVER_KEY + text, DRIVER_KEY);
    AfterHere(DRIVER_KEY, text);
  }

  lemma ParsesBody(d: ClaimedDevice)
    requires d.deviceId != "" && Plain(d.deviceId)
    ensures ParseObject(ObjectBody(d)) == [d]
  {
    ReadsPid(d);
    FindsId(d, d.deviceId + Tail(d));
    UpToQuoteStops(d.deviceId, AfterId(d));
    TailStartsWithQuote(d);
    ReadsInterface(d);
    ReadsDriver(d);
  }

  // ----- One object

  lemma BraceFreeAppend(a: string, b: string)
    requires BraceFree(a) && BraceFree(b)
    ensures BraceFree(a + b)
  {
  }

  lemma KeysBraceFree()
    ensures BraceFree("," + ID_KEY) && BraceFree(PID_KEY) && BraceFree("\",") && BraceFree(",")
    ensures BraceFree(INTERFACE_KEY) && BraceFree(DRIVER_KEY)
  {
    hide Key;
    KeyBraceFree("pid");
    KeyBraceFree("device_id");
    KeyBraceFree("interface_number");
    KeyBraceFree("kernel_driver_attached");
  }

  lemma KeyBraceFree(name: string)
    requires BraceFree(name)
    ensures BraceFree(Key(name))
  {
  }

  lemma BoolTextBraceFree(b: bool)
    ensures BraceFree(BoolText(b))
  {
  }

  lemma HeadAndTailBraceFree(d: ClaimedDevice)
    ensures BraceFree(Head(d)) && BraceFree(Tail(d))
  {
    hide IntText, BraceFree, Key, BoolText, PID_KEY, ID_KEY, INTERFACE_KEY, DRIVER_KEY;
    IntTextPlain(d.pid);
    IntTextPlain(d.interfaceNumber);
    KeysBraceFree();
    BoolTextBraceFree(d.kernelDriverAttached);
    BraceFreeAppend(IntText(d.pid), "," + ID_KEY);
    BraceFreeAppend(PID_KEY, IntText(d.pid) + ("," + ID_KEY));
    var driver := DRIVER_KEY + BoolText(d.kernelDriverAttached);
    BraceFreeAppend(DRIVER_KEY, BoolText(d.kernelDriverAttached));
    BraceFreeAppend(",", driver);
    BraceFreeAppend(IntText(d.interfaceNumber), "," + driver);
    BraceFreeAppend(INTERFACE_KEY, IntText(d.interfaceNumber) + ("," + driver));
    BraceFreeAppend("\",", INTERFACE_KEY + (IntText(d.interfaceNumber) + ("," + driver)));
  }

  lemma WalkClosing(depth: int)
    ensures depth >= 0 ==> Walk("}", depth) == depth - 1
  {
  }

  /** Inside an object the brace depth is that of its id alone. */
  lemma WalkBody(d: ClaimedDevice, depth: nat)
    ensures Walk(ObjectBody(d), depth) == Walk(d.deviceId, depth)
    ensures Walk(ObjectBody(d) + "}", depth) ==
            if Walk(d.deviceId, depth) <= 0 then -1 else Walk(d.deviceId, depth) - 1
  {
    HeadAndTailBraceFree(d);
    hide Head, Tail, BraceFree, Walk;
    WalkAppend(Head(d), d.deviceId + Tail(d), depth);
    WalkBraceFree(Head(d), depth);
    WalkAppend(d.deviceId, Tail(d), depth);
    if Walk(d.deviceId, depth) >= 0 {
      WalkBraceFree(Tail(d), Walk(d.deviceId, depth));
    }
    WalkAppend(ObjectBody(d), "}", depth);
    WalkClosing(Walk(d.deviceId, depth));
  }

  lemma {:induction false} WalkShift(text: string, depth: nat)
    ensures Walk(text, depth) >= 0 ==> Walk(text, depth + 1) == Walk(text, depth) + 1
  {
    if text != [] {
      WalkShift(text[1..],
                if text[0] == '{' then depth + 1 else if text[0] == '}' && depth > 0 then depth - 1 else depth);
    }
  }

  lemma ReadsObject(d: ClaimedDevice)
    requires Printable(d.deviceId)
    ensures Balanced(ObjectText(d)) && ReadText(ObjectText(d)) == [d]
  {
    hide ObjectBody, ParseObject;
    var body := ObjectBody(d);
    assert ObjectText(d)[1..] == body + "}";
    WalkBody(d, 0);
    WalkBody(d, 1);
    WalkShift(d.deviceId, 0);
    ClosePasses(body, "}", 1);
    assert Close("}", 1) == 0;
    assert (body + "}")[..|body|] == body && (body + "}")[|body| + 1..] == [];
    ParsesBody(d);
  }

  // ----- The whole file

  lemma {:induction false} ReadsObjects(devices: seq<ClaimedDevice>)
    requires AllPrintable(devices)
    ensures ReadText(ObjectsText(devices)) == devices
  {
    ReadSkips("]\n", "");
    assert "]\n" + "" == "]\n";
    if devices != [] {
      var d, rest := devices[0], devices[1..];
      ReadsObject(d);
      if rest == [] {
        ReadAppend(ObjectText(d), "]\n");
      } else {
        ReadAppend(ObjectText(d), "," + ObjectsText(rest));
        ReadSkips(",", ObjectsText(rest));
        ReadsObjects(rest);
      }
    }
  }

  lemma RoundTrip(devices: seq<ClaimedDevice>)
    requires AllPrintable(devices)
    ensures ReadText(RegistryFile(devices)) == devices
  {
    ReadsObjects(devices);
    ReadSkips("[", ObjectsText(devices));
  }
}
