/** The crash-recovery registry as text: the hand-written printer and the hand-written reader. */
module RegistryText {
  import opened Wrappers
  import opened Decimal

  /** One entry of the registry. */
  datatype ClaimedDevice = ClaimedDevice(
    pid: int32,
    deviceId: string,
    interfaceNumber: int32,
    kernelDriverAttached: bool)

  // ----- Printing

  function Key(name: string): string {
    "\"" + (name + "\":")
  }

  const PID_KEY := Key("pid")
  const ID_KEY := Key("device_id") + "\""
  const INTERFACE_KEY := Key("interface_number")
  const DRIVER_KEY := Key("kernel_driver_attached")

  function BoolText(b: bool): string {
    if b then "true" else "false"
  }

  /** Everything of an object's text before its id, and everything after the id. */
  function Head(d: ClaimedDevice): string {
    PID_KEY + (IntText(d.pid) + ("," + ID_KEY))
  }

  function Tail(d: ClaimedDevice): string {
    "\"," + (INTERFACE_KEY + (IntText(d.interfaceNumber) + ("," + (DRIVER_KEY + BoolText(d.kernelDriverAttached)))))
  }

  function ObjectBody(d: ClaimedDevice): string {
    Head(d) + (d.deviceId + Tail(d))
  }

  function ObjectText(d: ClaimedDevice): string {
    "{" + (ObjectBody(d) + "}")
  }

  /** The rest of the file from the first object of `devices` on. */
  function ObjectsText(devices: seq<ClaimedDevice>): string {
    if devices == [] then "]\n"
    else if |devices| == 1 then ObjectText(devices[0]) + "]\n"
    else ObjectText(devices[0]) + ("," + ObjectsText(devices[1..]))
  }

  function RegistryFile(devices: seq<ClaimedDevice>): string {
    "[" + ObjectsText(devices)
  }

  // ----- Reading

  /** What follows the first occurrence of `key`. */
  function After(text: string, key: string): Option<string> {
    if key <= text then Some(text[|key|..])
    else if text == [] then None
    else After(text[1..], key)
  }

  /** The text before the first quote, if there is a quote. */
  function UpToQuote(text: string): Option<string> {
    if text == [] then None
    else if text[0] == '"' then Some([])
    else match UpToQuote(text[1..]) case None => None case Some(s) => Some([text[0]] + s)
  }

  function ExtractString(obj: string, key: string): string {
    match After(obj, key)
    case None => ""
    case Some(rest) => match UpToQuote(rest) case None => "" case Some(s) => s
  }

  function ExtractInt(obj: string, key: string): int {
    match After(obj, key)
    case None => 0
    case Some(rest) => match Stoll(rest) case None => 0 case Some(n) => n
  }

  function SkipBlanks(text: string): string {
    if text != [] && (text[0] == ' ' || text[0] == '\t') then SkipBlanks(text[1..]) else text
  }

  function ExtractBool(obj: string, key: string): bool {
    match After(obj, key)
    case None => false
    case Some(rest) => "true" <= SkipBlanks(rest)
  }

  function Entry(obj: string): ClaimedDevice {
    ClaimedDevice(
      ToInt32(ExtractInt(obj, PID_KEY)),
      ExtractString(obj, ID_KEY),
      ToInt32(ExtractInt(obj, INTERFACE_KEY)),
      ExtractBool(obj, DRIVER_KEY))
  }

  /** The entry an object's text yields; an object without an id yields none. */
  function ParseObject(obj: string): (devices: seq<ClaimedDevice>)
    ensures |devices| <= 1
  {
    if Entry(obj).deviceId == "" then [] else [Entry(obj)]
  }

  /** How many characters precede the brace that closes `depth` open ones; -1 if none does. */
  function Close(text: string, depth: nat): (n: int)
    requires depth > 0
    ensures -1 <= n < |text|
    ensures n >= 0 ==> text[n] == '}'
  {
    if text == [] then -1
    else if text[0] == '}' && depth == 1 then 0
    else
      var depth' := if text[0] == '{' then depth + 1 else if text[0] == '}' then depth - 1 else depth;
      var n := Close(text[1..], depth');
      if n < 0 then -1 else n + 1
  }

  /** The entries of a text: one object after the other, unmatched braces skipped. */
  function ReadText(text: string): seq<ClaimedDevice>
    decreases |text|
  {
    if text == [] then []
    else if text[0] != '{' then ReadText(text[1..])
    else
      var n := Close(text[1..], 1);
      if n < 0 then ReadText(text[1..])
      else ParseObject(text[1..][..n]) + ReadText(text[1..][n + 1..])
  }
}
