/** The round trip holds only for printable ids: every other list is read back as something else. */
module RegistryExact {
  import opened Wrappers
  import opened Decimal
  import opened RegistryText
  import opened RegistryScan
  import opened RegistryRoundTrip

  /** How often the id key occurs in a text. */
  function IdKeys(text: string): nat {
    if text == [] then 0 else (if ID_KEY <= text then 1 else 0) + IdKeys(text[1..])
  }

  lemma {:induction false} IdKeysSplit(a: string, b: string)
    ensures IdKeys(a) + IdKeys(b) <= IdKeys(a + b)
  {
    if a == [] {
      assert a + b == b;
    } else {
      assert (a + b)[1..] == a[1..] + b;
      IdKeysSplit(a[1..], b);
    }
  }

  lemma {:induction false} FoundMeansIdKey(text: string)
    ensures After(text, ID_KEY).Some? ==> IdKeys(text) >= 1
  {
    if text != [] && !(ID_KEY <= text) {
      FoundMeansIdKey(text[1..]);
    }
  }

  lemma ParsedNeedsIdKey(obj: string)
    ensures |ParseObject(obj)| <= IdKeys(obj)
  {
    FoundMeansIdKey(obj);
  }

  lemma ObjectNeedsIdKey(inner: string, n: nat)
    requires n < |inner|
    ensures |ParseObject(inner[..n])| + IdKeys(inner[n + 1..]) <= IdKeys(inner)
  {
    hide *;
    ParsedNeedsIdKey(inner[..n]);
    IdKeysSplit([inner[n]], inner[n + 1..]);
    IdKeysSplit(inner[..n], [inner[n]] + inner[n + 1..]);
    assert inner == inner[..n] + ([inner[n]] + inner[n + 1..]);
  }

  lemma IdKeysOfRest(text: string)
    requires text != []
    ensures IdKeys(text[1..]) <= IdKeys(text)
  {
  }

  /** Every entry read costs one occurrence of the id key. */
  lemma {:induction false} EntriesNeedIdKeys(text: string)
    ensures |ReadText(text)| <= IdKeys(text)
    decreases |text|
  {
    hide IdKeys, Close, ParseObject;
    if text == [] {
    } else {
      var inner := text[1..];
      IdKeysOfRest(text);
      if text[0] != '{' {
        EntriesNeedIdKeys(inner);
      } else {
        hide *;
        assert text == "{" + inner;
        ReadBrace(inner);
        if Close(inner, 1) < 0 {
          EntriesNeedIdKeys(inner);
        } else {
          BehindIs(inner, 1);
          EntriesNeedIdKeys(Behind(inner, 1));
          ObjectNeedsIdKey(inner, Close(inner, 1));
        }
      }
    }
  }

  lemma {:induction false} IdKeysPlain(a: string, text: string)
    requires Plain(a)
    ensures IdKeys(a + text) == IdKeys(text)
  {
    if a == [] {
      assert a + text == text;
    } else {
      assert (a + text)[1..] == a[1..] + text && (a + text)[0] == a[0];
      IdKeysPlain(a[1..], text);
    }
  }

  lemma IdKeysQuoted(s: string, x: string)
    requires Plain(s) && x != "" && x[0] != 'd' && (s != "device_id" || x[0] != ':')
    ensures IdKeys("\"" + (s + ("\"" + x))) == IdKeys(x)
  {
    QuotedIsNotKey("device_id", "\"", s, x);
    assert ("\"" + (s + ("\"" + x)))[1..] == s + ("\"" + x);
    IdKeysPlain(s, "\"" + x);
    NotIdKey(x);
    IdKeysQuote(x);
  }

  lemma NotIdKey(x: string)
    requires x != "" && x[0] != 'd'
    ensures !(ID_KEY <= "\"" + x)
  {
    assert ID_KEY[1] == 'd' && ("\"" + x)[1] == x[0];
  }

  lemma IdKeysQuote(x: string)
    requires !(ID_KEY <= "\"" + x)
    ensures IdKeys("\"" + x) == IdKeys(x)
  {
    assert ("\"" + x)[1..] == x;
  }

  /** The head of an object holds the key of its own id and no other. */
  lemma HeadHoldsOneIdKey(d: ClaimedDevice, text: string)
    requires !(ID_KEY <= "\"" + text)
    ensures IdKeys(Head(d) + text) == 1 + IdKeys(text)
  {
    hide IntText, Head, Plain;
    HeadParts(d, text);
    NumberPlain(d.pid);
    WordsPlain(true);
    var number, fromId := ":" + IntText(d.pid) + ",", ID_KEY + text;
    IdKeysQuoted("pid", number + fromId);
    IdKeysPlain(number, fromId);
    var word := "device_id" + ("\"" + (":" + ("\"" + text)));
    assert fromId[1..] == word && ID_KEY <= fromId;
    IdKeysPlain("device_id", "\"" + (":" + ("\"" + text)));
    NotIdKey(":" + ("\"" + text));
    IdKeysQuote(":" + ("\"" + text));
    IdKeysPlain(":", "\"" + text);
    IdKeysQuote(text);
  }

  /** What follows the interface key, up to the end of the object and beyond. */
  function FromInterface(d: ClaimedDevice, text: string): string {
    (":" + IntText(d.interfaceNumber) + ",") +
    ("\"" + ("kernel_driver_attached" + ("\"" + (":" + (BoolText(d.kernelDriverAttached) + text)))))
  }

  lemma TailWords(d: ClaimedDevice, text: string)
    ensures var x := IntText(d.interfaceNumber) + ("," + (DRIVER_KEY + (BoolText(d.kernelDriverAttached) + text)));
            && Tail(d) + text == "\"" + ("," + (INTERFACE_KEY + x))
            && ":" + x == (":" + IntText(d.interfaceNumber) + ",")
                          + (DRIVER_KEY + (BoolText(d.kernelDriverAttached) + text))
  {
    hide IntText, BoolText, INTERFACE_KEY, DRIVER_KEY;
    var number, driver := IntText(d.interfaceNumber), BoolText(d.kernelDriverAttached);
    var a := DRIVER_KEY + driver;
    Assoc(DRIVER_KEY, driver, text);
    Assoc(",", a, text);
    Assoc(number, "," + a, text);
    Assoc(INTERFACE_KEY, number + ("," + a), text);
    Assoc("\",", INTERFACE_KEY + (number + ("," + a)), text);
    assert "\"," == "\"" + ",";
    Assoc("\"", ",", (INTERFACE_KEY + (number + ("," + a))) + text);
    Assoc(":" + number, ",", a + text);
    Assoc(":", number, "," + (a + text));
  }

  lemma TailParts(d: ClaimedDevice, text: string)
    ensures Tail(d) + text == "\"" + ("," + ("\"" + ("interface_number" + ("\"" + FromInterface(d, text)))))
  {
    TailWords(d, text);
    hide IntText, BoolText, Tail;
    var driver := BoolText(d.kernelDriverAttached) + text;
    KeyParts("interface_number", IntText(d.interfaceNumber) + ("," + (DRIVER_KEY + driver)));
    KeyParts("kernel_driver_attached", driver);
  }

  lemma NumberPlain(n: int)
    ensures Plain(":" + IntText(n) + ",")
  {
    IntTextPlain(n);
    hide IntText;
  }

  lemma WordsPlain(b: bool)
    ensures Plain(BoolText(b)) && Plain("kernel_driver_attached") && Plain(":") && Plain(",")
    ensures Plain("interface_number") && Plain("pid") && Plain("device_id")
  {
  }

  lemma FromInterfaceHoldsNone(d: ClaimedDevice, text: string)
    ensures IdKeys(FromInterface(d, text)) == IdKeys(text)
  {
    hide IntText, BoolText, IdKeys, Plain;
    var number, driver := ":" + IntText(d.interfaceNumber) + ",", BoolText(d.kernelDriverAttached);
    NumberPlain(d.interfaceNumber);
    WordsPlain(d.kernelDriverAttached);
    var rest := ":" + (driver + text);
    IdKeysPlain(number, "\"" + ("kernel_driver_attached" + ("\"" + rest)));
    IdKeysQuoted("kernel_driver_attached", rest);
    IdKeysPlain(":", driver + text);
    IdKeysPlain(driver, text);
  }

  /** The id's own text is never mistaken for a key: its closing quote is followed by ','. */
  lemma IdIsNotKey(d: ClaimedDevice, text: string)
    requires Plain(d.deviceId)
    ensures !(ID_KEY <= "\"" + (d.deviceId + (Tail(d) + text)))
  {
    TailParts(d, text);
    hide FromInterface, Tail;
    var next := "," + ("\"" + ("interface_number" + ("\"" + FromInterface(d, text))));
    QuotedIsNotKey("device_id", "\"", d.deviceId, next);
  }

  lemma FromInterfaceStarts(d: ClaimedDevice, text: string)
    ensures FromInterface(d, text) != "" && FromInterface(d, text)[0] == ':'
  {
  }

  lemma TailHoldsNoIdKey(d: ClaimedDevice, text: string)
    ensures IdKeys(Tail(d) + text) == IdKeys(text)
  {
    hide FromInterface, Tail, IdKeys, ID_KEY, Plain;
    TailParts(d, text);
    FromInterfaceHoldsNone(d, text);
    var fromInterface := FromInterface(d, text);
    FromInterfaceStarts(d, text);
    WordsPlain(true);
    var quoted := "\"" + ("interface_number" + ("\"" + fromInterface));
    NotIdKey("," + quoted);
    IdKeysQuote("," + quoted);
    IdKeysPlain(",", quoted);
    IdKeysQuoted("interface_number", fromInterface);
  }

  /** From its id on, a printed object holds no id key. */
  lemma IdHoldsNoIdKey(d: ClaimedDevice, text: string)
    requires Plain(d.deviceId)
    ensures IdKeys(d.deviceId + (Tail(d) + text)) == IdKeys(text)
  {
    TailHoldsNoIdKey(d, text);
    IdKeysPlain(d.deviceId, Tail(d) + text);
  }

  // ----- Whole lists

  /** What the file holds after the first object. */
  function Following(devices: seq<ClaimedDevice>): string
    requires devices != []
  {
    if |devices| == 1 then "]\n" else "," + ObjectsText(devices[1..])
  }

  function FromId(devices: seq<ClaimedDevice>): string
    requires devices != []
  {
    devices[0].deviceId + Rest(devices)
  }

  /** What the file holds after the first id. */
  function Rest(devices: seq<ClaimedDevice>): string
    requires devices != []
  {
    Tail(devices[0]) + ("}" + Following(devices))
  }

  /** The file from the first object's opening brace on, without that brace. */
  function Inner(devices: seq<ClaimedDevice>): string
    requires devices != []
  {
    Head(devices[0]) + FromId(devices)
  }

  lemma ObjectsParts(devices: seq<ClaimedDevice>)
    requires devices != []
    ensures ObjectsText(devices) == "{" + (ObjectBody(devices[0]) + ("}" + Following(devices)))
    ensures ObjectsText(devices) == "{" + Inner(devices)
  {
    hide Head, Tail;
    var d, rest := devices[0], Following(devices);
    Assoc("{", ObjectBody(d) + "}", rest);
    Assoc(ObjectBody(d), "}", rest);
    Assoc(Head(d), d.deviceId + Tail(d), "}" + rest);
    Assoc(d.deviceId, Tail(d), "}" + rest);
  }

  lemma {:induction false} OneIdKeyEach(devices: seq<ClaimedDevice>)
    requires forall d :: d in devices ==> Plain(d.deviceId)
    ensures IdKeys(ObjectsText(devices)) == |devices|
    ensures devices != [] ==> IdKeys(FromId(devices)) == IdKeys(Following(devices)) == |devices| - 1
  {
    IdKeysPlain("]\n", "");
    assert "]\n" + "" == "]\n" && IdKeys("") == 0;
    if devices != [] {
      var d, following := devices[0], Following(devices);
      hide IdKeys, Head, Tail;
      if |devices| > 1 {
        OneIdKeyEach(devices[1..]);
        IdKeysPlain(",", ObjectsText(devices[1..]));
      }
      IdKeysPlain("}", following);
      IdHoldsNoIdKey(d, "}" + following);
      IdIsNotKey(d, "}" + following);
      HeadHoldsOneIdKey(d, FromId(devices));
      ObjectsParts(devices);
      IdKeysPlain("{", Head(d) + FromId(devices));
    }
  }

  lemma SuffixIdKeys(text: string, n: nat)
    requires n <= |text|
    ensures IdKeys(text[n..]) <= IdKeys(text)
  {
    IdKeysSplit(text[..n], text[n..]);
    assert text == text[..n] + text[n..];
  }

  /** Matching that starts before a brace-free text ends after it, and leaves a suffix of the rest. */
  lemma CloseAfterBraceFree(a: string, rest: string, depth: nat)
    requires depth > 0 && BraceFree(a)
    ensures Close(a + rest, depth) == if Close(rest, depth) < 0 then -1 else |a| + Close(rest, depth)
    ensures Close(a + rest, depth) >= 0 ==> Behind(a + rest, depth) == Behind(rest, depth)
  {
    WalkBraceFree(a, depth - 1);
    ClosePasses(a, rest, depth);
  }

  /** An object cut off inside its id has no id. */
  lemma CutIdIsNoId(d: ClaimedDevice, m: nat)
    requires m <= |d.deviceId| && Plain(d.deviceId)
    ensures ParseObject(Head(d) + d.deviceId[..m]) == []
  {
    var cut := d.deviceId[..m];
    FindsId(d, cut);
    assert Plain(cut);
    UpToQuoteIsPlain(cut);
  }

  /** Matching ends inside a text that closes one brace more than it opens. */
  lemma ClosesInside(head: string, id: string, rest: string)
    requires BraceFree(head) && Walk(id, 0) < 0
    ensures var m := Close(id, 1);
            && 0 <= m < |id| && Close(head + (id + rest), 1) == |head| + m
            && (head + (id + rest))[..|head| + m] == head + id[..m]
            && Behind(head + (id + rest), 1) == (id + rest)[m + 1..]
  {
    CloseInside(id, rest, 1);
    CloseAfterBraceFree(head, id + rest, 1);
    var m := Close(id, 1);
    assert (id + rest)[..m] == id[..m];
  }

  /** An id that closes a brace it did not open ends its object early: the object has no id. */
  lemma OverclosedIsDropped(devices: seq<ClaimedDevice>)
    requires devices != [] && Plain(devices[0].deviceId) && Walk(devices[0].deviceId, 0) < 0
    ensures Close(Inner(devices), 1) >= 0
    ensures ParseObject(Inner(devices)[..Close(Inner(devices), 1)]) == []
    ensures IdKeys(Behind(Inner(devices), 1)) <= IdKeys(FromId(devices))
  {
    hide *;
    var d := devices[0];
    HeadAndTailBraceFree(d);
    InnerIs(devices);
    ClosesInside(Head(d), d.deviceId, Rest(devices));
    CutIdIsNoId(d, Close(d.deviceId, 1));
    SuffixIdKeys(d.deviceId + Rest(devices), Close(d.deviceId, 1) + 1);
  }

  lemma InnerIs(devices: seq<ClaimedDevice>)
    requires devices != []
    ensures Inner(devices) == Head(devices[0]) + (devices[0].deviceId + Rest(devices))
    ensures FromId(devices) == devices[0].deviceId + Rest(devices)
  {
    hide Head, Rest;
  }

  /** Matching that meets another object's brace first needs one more closing brace behind it. */
  lemma CloseMeetsBrace(rest: string, open: nat)
    requires open > 0
    ensures var text := "," + ("{" + rest);
            && Close(text, open) == (if Close(rest, open + 1) < 0 then -1 else Close(rest, open + 1) + 2)
            && (Close(text, open) >= 0 ==> Behind(text, open) == Behind(rest, open + 1))
  {
    assert ("," + ("{" + rest))[1..] == "{" + rest && ("{" + rest)[1..] == rest;
  }

  lemma CloseMeetsEnd(open: nat)
    requires open > 0
    ensures Close("]\n", open) == -1
  {
    assert "]\n"[1..] == "\n" && "\n"[1..] == "";
  }

  lemma BehindHoldsNoMore(text: string, depth: nat)
    requires depth > 0
    ensures IdKeys(Behind(text, depth)) <= IdKeys(text)
  {
    SuffixIdKeys(text, Close(text, depth) + 1);
  }

  /** From the end of an object, matching `open` braces takes more than the next object's head. */
  lemma NextObjectOpened(devices: seq<ClaimedDevice>, open: nat)
    requires devices != [] && (forall d :: d in devices ==> Plain(d.deviceId))
    requires open > 0 && Close(Following(devices), open) >= 0
    ensures IdKeys(Behind(Following(devices), open)) <= |devices| - 2
  {
    CloseMeetsEnd(open);
    var next := devices[1..];
    var head, fromId := Head(next[0]), FromId(next);
    ObjectsParts(next);
    HeadAndTailBraceFree(next[0]);
    OneIdKeyEach(next);
    hide Head, Tail, FromId, IdKeys, Close, ObjectsText, Behind;
    CloseMeetsBrace(head + fromId, open);
    CloseAfterBraceFree(head, fromId, open + 1);
    BehindHoldsNoMore(fromId, open + 1);
  }

  lemma InnerParts(devices: seq<ClaimedDevice>)
    requires devices != []
    ensures Inner(devices) == (ObjectBody(devices[0]) + "}") + Following(devices)
  {
    hide Head, Tail, Following;
    var d, end := devices[0], "}" + Following(devices);
    Assoc(ObjectBody(d), "}", Following(devices));
    Assoc(Head(d), d.deviceId + Tail(d), end);
    Assoc(d.deviceId, Tail(d), end);
  }

  /** Matching that leaves `open` braces after `body` ends in what follows it. */
  lemma ClosesBehind(body: string, following: string, open: nat)
    requires open > 0 && Walk(body, 0) == open - 1 && Close(body + following, 1) >= 0
    ensures Close(following, open) >= 0 && Behind(body + following, 1) == Behind(following, open)
  {
    ClosePasses(body, following, 1);
  }

  /** An id that leaves a brace open makes its object swallow the key of the next one. */
  lemma UnderclosedSwallows(devices: seq<ClaimedDevice>)
    requires devices != [] && (forall d :: d in devices ==> Plain(d.deviceId))
    requires Walk(devices[0].deviceId, 0) > 0 && Close(Inner(devices), 1) >= 0
    ensures IdKeys(Behind(Inner(devices), 1)) <= |devices| - 2
  {
    hide *;
    InnerParts(devices);
    WalkBody(devices[0], 0);
    var open := Walk(devices[0].deviceId, 0);
    ClosesBehind(ObjectBody(devices[0]) + "}", Following(devices), open);
    NextObjectOpened(devices, open);
  }

  /** A list whose first id is unbalanced is read back with at least one entry fewer. */
  lemma UnbalancedLosesAnEntry(devices: seq<ClaimedDevice>)
    requires devices != [] && (forall d :: d in devices ==> Plain(d.deviceId))
    requires !Balanced(devices[0].deviceId)
    ensures |ReadText(ObjectsText(devices))| < |devices|
  {
    ObjectsParts(devices);
    OneIdKeyEach(devices);
    ReadBrace(Inner(devices));
    if Walk(devices[0].deviceId, 0) < 0 {
      OverclosedIsDropped(devices);
    } else if Close(Inner(devices), 1) >= 0 {
      UnderclosedSwallows(devices);
    }
    HeadAndTailBraceFree(devices[0]);
    hide Head, Tail, Walk, IdKeys, ParseObject, FromId, Behind, ObjectsText, ReadText;
    if Close(Inner(devices), 1) < 0 {
      ReadSkips(Head(devices[0]), FromId(devices));
      EntriesNeedIdKeys(FromId(devices));
    } else {
      EntriesNeedIdKeys(Behind(Inner(devices), 1));
    }
  }

  /** The reader never yields an empty id or one with a quote in it. */
  lemma {:induction false} ReadIdsArePlain(text: string)
    ensures forall d :: d in ReadText(text) ==> d.deviceId != "" && Plain(d.deviceId)
    decreases |text|
  {
    hide ParseObject, Close, Plain;
    if text != [] {
      var rest := text[1..];
      if text[0] != '{' || Close(rest, 1) < 0 {
        ReadIdsArePlain(rest);
      } else {
        var n := Close(rest, 1);
        ReadIdsArePlain(rest[n + 1..]);
        ParsedIdIsPlain(rest[..n]);
      }
    }
  }

  lemma ParsedIdIsPlain(obj: string)
    ensures forall d :: d in ParseObject(obj) ==> d.deviceId != "" && Plain(d.deviceId)
  {
    if After(obj, ID_KEY).Some? {
      UpToQuoteIsPlain(After(obj, ID_KEY).value);
    }
  }

  lemma {:induction false} ReadBackMeansBalanced(devices: seq<ClaimedDevice>)
    requires forall d :: d in devices ==> d.deviceId != "" && Plain(d.deviceId)
    requires ReadText(ObjectsText(devices)) == devices
    ensures forall d :: d in devices ==> Balanced(d.deviceId)
  {
    if devices != [] {
      var d, rest := devices[0], devices[1..];
      if !Balanced(d.deviceId) {
        UnbalancedLosesAnEntry(devices);
      } else if rest != [] {
        ReadsObject(d);
        hide ObjectText, Balanced;
        ReadAppend(ObjectText(d), "," + ObjectsText(rest));
        ReadSkips(",", ObjectsText(rest));
        assert devices == [d] + ReadText(ObjectsText(rest));
        ReadBackMeansBalanced(rest);
      }
    }
  }

  /** The registry reads back as it was written exactly when every id in it is printable. */
  lemma RoundTripExact(devices: seq<ClaimedDevice>)
    ensures ReadText(RegistryFile(devices)) == devices <==> AllPrintable(devices)
  {
    if AllPrintable(devices) {
      RoundTrip(devices);
    } else if ReadText(RegistryFile(devices)) == devices {
      ReadIdsArePlain(RegistryFile(devices));
      ReadSkips("[", ObjectsText(devices));
      ReadBackMeansBalanced(devices);
    }
  }
}
