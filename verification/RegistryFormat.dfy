/** The registry's text itself: what is printed character by character, and how the reader searches. */
module RegistryFormat {
  import opened Wrappers
  import opened Decimal
  import opened RegistryText
  import opened RegistryScan
  import opened RegistryRoundTrip

  // ----- Printing

  lemma KeysAre()
    ensures PID_KEY == "\"pid\":" && ID_KEY == "\"device_id\":\""
    ensures INTERFACE_KEY == "\"interface_number\":" && DRIVER_KEY == "\"kernel_driver_attached\":"
  {
  }

  /** An entry is printed as a JSON object of four members in this order, without blanks. */
  lemma ObjectFormat(d: ClaimedDevice)
    ensures ObjectText(d) ==
            "{\"pid\":" + (IntText(d.pid) + (",\"device_id\":\"" + (d.deviceId
            + ("\",\"interface_number\":" + (IntText(d.interfaceNumber)
            + (",\"kernel_driver_attached\":" + ((if d.kernelDriverAttached then "true" else "false") + "}")))))))
  {
    hide *;
    ObjectParts(d);
    MembersAre();
  }

  lemma MembersAre()
    ensures "{" + PID_KEY == "{\"pid\":" && "," + ID_KEY == ",\"device_id\":\""
    ensures "\"," + INTERFACE_KEY == "\",\"interface_number\":" && "," + DRIVER_KEY == ",\"kernel_driver_attached\":"
  {
    hide *;
    KeysAre();
    InterfaceMember();
    DriverMember();
  }

  lemma InterfaceMember()
    ensures "\"," + "\"interface_number\":" == "\",\"interface_number\":"
  {
  }

  lemma DriverMember()
    ensures "," + "\"kernel_driver_attached\":" == ",\"kernel_driver_attached\":"
  {
  }

  lemma ObjectParts(d: ClaimedDevice)
    ensures ObjectText(d) ==
            ("{" + PID_KEY) + (IntText(d.pid) + (("," + ID_KEY) + (d.deviceId
            + (("\"," + INTERFACE_KEY) + (IntText(d.interfaceNumber)
            + (("," + DRIVER_KEY) + ((if d.kernelDriverAttached then "true" else "false") + "}")))))))
  {
    hide IntText, PID_KEY, ID_KEY, INTERFACE_KEY, DRIVER_KEY;
    var driver := BoolText(d.kernelDriverAttached);
    var fromDriver := DRIVER_KEY + driver;
    var fromNumber := IntText(d.interfaceNumber) + ("," + fromDriver);
    Assoc(",", DRIVER_KEY, driver + "}");
    Assoc(DRIVER_KEY, driver, "}");
    Assoc(",", fromDriver, "}");
    Assoc(IntText(d.interfaceNumber), "," + fromDriver, "}");
    Assoc(INTERFACE_KEY, fromNumber, "}");
    Assoc("\",", INTERFACE_KEY + fromNumber, "}");
    Assoc("\",", INTERFACE_KEY, fromNumber + "}");
    Assoc(d.deviceId, Tail(d), "}");
    Assoc(Head(d), d.deviceId + Tail(d), "}");
    var rest := d.deviceId + (Tail(d) + "}");
    Assoc(PID_KEY, IntText(d.pid) + ("," + ID_KEY), rest);
    Assoc(IntText(d.pid), "," + ID_KEY, rest);
    Assoc("{", PID_KEY, IntText(d.pid) + (("," + ID_KEY) + rest));
  }

  /** The texts in order, a comma between any two. */
  function CommaSeparated(texts: seq<string>): string {
    if texts == [] then ""
    else if |texts| == 1 then texts[0]
    else CommaSeparated(texts[..|texts| - 1]) + ("," + texts[|texts| - 1])
  }

  lemma {:induction false} CommaAtFront(first: string, texts: seq<string>)
    requires texts != []
    ensures CommaSeparated([first] + texts) == first + ("," + CommaSeparated(texts))
  {
    var all := [first] + texts;
    if |texts| == 1 {
      assert all[..1] == [first];
    } else {
      var init, last := texts[..|texts| - 1], texts[|texts| - 1];
      assert all[..|all| - 1] == [first] + init && all[|all| - 1] == last;
      CommaAtFront(first, init);
      Assoc(first, "," + CommaSeparated(init), "," + last);
      Assoc(",", CommaSeparated(init), "," + last);
    }
  }

  function Texts(devices: seq<ClaimedDevice>): seq<string> {
    seq(|devices|, i requires 0 <= i < |devices| => ObjectText(devices[i]))
  }

  lemma {:induction false} ObjectsFormat(devices: seq<ClaimedDevice>)
    ensures ObjectsText(devices) == CommaSeparated(Texts(devices)) + "]\n"
  {
    hide ObjectText;
    if devices == [] {
      assert "" + "]\n" == "]\n";
    } else if |devices| > 1 {
      var first, rest := ObjectText(devices[0]), Texts(devices[1..]);
      ObjectsFormat(devices[1..]);
      assert Texts(devices) == [first] + rest;
      CommaAtFront(first, rest);
      Assoc(first, "," + CommaSeparated(rest), "]\n");
      Assoc(",", CommaSeparated(rest), "]\n");
    }
  }

  /** The file is the objects in the order of the list, in brackets, with a newline behind. */
  lemma FileFormat(devices: seq<ClaimedDevice>)
    ensures RegistryFile(devices) == "[" + (CommaSeparated(Texts(devices)) + "]\n")
  {
    ObjectsFormat(devices);
  }

  // ----- Reading

  /** Opening braces less closing braces. */
  function Net(text: string): int {
    if text == "" then 0 else (if text[0] == '{' then 1 else if text[0] == '}' then -1 else 0) + Net(text[1..])
  }

  /** The depth is the braces' net count, as long as no prefix closes more than is open. */
  lemma {:induction false} WalkIsNet(text: string, depth: nat)
    ensures Walk(text, depth) >= 0 <==> forall i :: 0 <= i <= |text| ==> depth + Net(text[..i]) >= 0
    ensures Walk(text, depth) >= 0 ==> Walk(text, depth) == depth + Net(text)
  {
    if text != "" {
      var rest := text[1..];
      var depth' := depth + if text[0] == '{' then 1 else if text[0] == '}' then -1 else 0;
      forall i | 1 <= i <= |text| ensures depth + Net(text[..i]) == depth' + Net(rest[..i - 1]) {
        assert text[..i][1..] == rest[..i - 1] && text[..i][0] == text[0];
      }
      assert text[..1] == [text[0]] && rest[..0] == "";
      if depth' >= 0 {
        WalkIsNet(rest, depth');
        assert forall i :: 0 <= i <= |rest| ==> depth' + Net(rest[..i]) == depth + Net(text[..i + 1]);
      } else {
        assert depth + Net(text[..1]) < 0;
      }
    }
  }

  /** Balanced braces: as many of both kinds, and never more closing ones in a prefix. */
  lemma BalancedIs(text: string)
    ensures Balanced(text) <==> Net(text) == 0 && forall i :: 0 <= i <= |text| ==> Net(text[..i]) >= 0
  {
    WalkIsNet(text, 0);
  }

  /** The reader takes the text from the first opening brace to the one that closes it as an object. */
  lemma ReadsFirst(junk: string, body: string, rest: string)
    requires '{' !in junk && Balanced(body)
    ensures ReadText(junk + ("{" + (body + ("}" + rest)))) == ParseObject(body) + ReadText(rest)
  {
    hide ReadText, ParseObject, Walk;
    var behind := "}" + rest;
    ReadSkips(junk, "{" + (body + behind));
    ReadBrace(body + behind);
    BalancedPasses(body, rest);
    assert (body + behind)[..|body|] == body;
    assert Behind(body + behind, 1) == rest;
  }

  lemma BalancedPasses(body: string, rest: string)
    requires Balanced(body)
    ensures Close(body + ("}" + rest), 1) == |body|
  {
    ClosePasses(body, "}" + rest, 1);
  }

  /** An opening brace that nothing closes is passed over. */
  lemma ReadsPastUnclosed(junk: string, inner: string)
    requires '{' !in junk && forall i :: 0 <= i <= |inner| ==> Net(inner[..i]) >= 0
    ensures ReadText(junk + ("{" + inner)) == ReadText(inner)
  {
    ReadSkips(junk, "{" + inner);
    ReadBrace(inner);
    WalkIsNet(inner, 0);
    hide ReadText, Walk;
    ClosePasses(inner, "", 1);
    assert inner + "" == inner;
  }

  predicate StandsAt(text: string, key: string, i: nat)
    requires i <= |text|
  {
    key <= text[i..]
  }

  /** The text behind the first place where the key stands; None only if it stands nowhere. */
  lemma {:induction false} AfterIsFirst(text: string, key: string)
    ensures After(text, key).Some? ==>
              exists i :: 0 <= i <= |text| && StandsAt(text, key, i) && After(text, key).value == text[i..][|key|..]
                          && forall j :: 0 <= j < i ==> !StandsAt(text, key, j)
    ensures After(text, key).None? ==> forall j :: 0 <= j <= |text| ==> !StandsAt(text, key, j)
  {
    assert text[0..] == text;
    if key <= text {
      assert StandsAt(text, key, 0);
    } else if text != "" {
      var rest := text[1..];
      AfterIsFirst(rest, key);
      forall j | 1 <= j <= |text| ensures StandsAt(text, key, j) <==> StandsAt(rest, key, j - 1) {
        assert text[j..] == rest[j - 1..];
      }
      if After(rest, key).Some? {
        var i :| 0 <= i <= |rest| && StandsAt(rest, key, i) && After(rest, key).value == rest[i..][|key|..]
                 && forall j :: 0 <= j < i ==> !StandsAt(rest, key, j);
        assert text[i + 1..] == rest[i..] && StandsAt(text, key, i + 1);
      }
    }
  }

  /** The blanks in front are dropped, and nothing else. */
  lemma {:induction false} SkipBlanksIs(blanks: string, rest: string)
    requires forall i :: 0 <= i < |blanks| ==> blanks[i] == ' ' || blanks[i] == '\t'
    requires rest == "" || (rest[0] != ' ' && rest[0] != '\t')
    ensures SkipBlanks(blanks + rest) == rest
  {
    if blanks == "" {
      assert blanks + rest == rest;
    } else {
      assert (blanks + rest)[1..] == blanks[1..] + rest && (blanks + rest)[0] == blanks[0];
      SkipBlanksIs(blanks[1..], rest);
    }
  }

  /** A flag is read as true exactly if, behind its key and blanks, the text goes on with "true". */
  lemma ReadsBool(obj: string, key: string, blanks: string, rest: string)
    requires forall i :: 0 <= i < |blanks| ==> blanks[i] == ' ' || blanks[i] == '\t'
    requires rest == "" || (rest[0] != ' ' && rest[0] != '\t')
    requires After(obj, key) == Some(blanks + rest)
    ensures ExtractBool(obj, key) <==> "true" <= rest
  {
    SkipBlanksIs(blanks, rest);
  }

  /** A number is read from behind its key, with white space and a sign before the digits. */
  lemma ReadsInt(obj: string, key: string, spaces: string, sign: string, n: nat, rest: string)
    requires forall c :: c in spaces ==> c in SPACES
    requires sign == "" || sign == "+" || sign == "-"
    requires rest == "" || !('0' <= rest[0] <= '9')
    requires After(obj, key) == Some(spaces + (sign + (NatText(n) + rest)))
    ensures var value := if sign == "-" then -(n as int) else n;
            ExtractInt(obj, key) == if -0x8000_0000_0000_0000 <= value <= 0x7FFF_FFFF_FFFF_FFFF then value else 0
  {
    StollReads(spaces, sign, n, rest);
  }

  /** A string is read from behind its key up to the next quote. */
  lemma ReadsString(obj: string, key: string, value: string, rest: string)
    requires Plain(value) && After(obj, key) == Some(value + ("\"" + rest))
    ensures ExtractString(obj, key) == value
  {
    UpToQuoteStops(value, rest);
  }

  /** What a key that is missing, or has no value behind it, is read as. */
  lemma MissingIsDefault(obj: string, key: string)
    ensures After(obj, key).None? ==>
              ExtractInt(obj, key) == 0 && ExtractString(obj, key) == "" && !ExtractBool(obj, key)
    ensures After(obj, key).Some? && '"' !in After(obj, key).value ==> ExtractString(obj, key) == ""
  {
    if After(obj, key).Some? { UpToQuoteIsPlain(After(obj, key).value); }
  }

  /** An object yields the entry of its four keys, cut to an `int` each, unless it has no id. */
  lemma ParsesKeys(obj: string)
    ensures ExtractString(obj, "\"device_id\":\"") == "" ==> ParseObject(obj) == []
    ensures ExtractString(obj, "\"device_id\":\"") != "" ==>
              && |ParseObject(obj)| == 1
              && var d := ParseObject(obj)[0];
                 && d.deviceId == ExtractString(obj, "\"device_id\":\"")
                 && (d.pid - ExtractInt(obj, "\"pid\":")) % 0x1_0000_0000 == 0
                 && (d.interfaceNumber - ExtractInt(obj, "\"interface_number\":")) % 0x1_0000_0000 == 0
                 && d.kernelDriverAttached == ExtractBool(obj, "\"kernel_driver_attached\":")
  {
    hide ExtractInt, ExtractString, ExtractBool, ToInt32, Key;
    KeysAre();
    ToInt32Congruent(ExtractInt(obj, PID_KEY));
    ToInt32Congruent(ExtractInt(obj, INTERFACE_KEY));
  }
}
