/**
 The command side of the engine: the ten numbers of a switch or status
 command, the text `_write_cmd` puts on the wire, and `turn_on`,
 `turn_off` and `status_request` as the commands they write and the
 registry change they make.

 A command is `[channel, type, a1, a2, a3, flag, 255, 255, 255, 255]`:
 type 5 switches (flag 1 on, 0 off), type 4 asks for the state (flag 0).
 The channel comes from the known devices, `"01"` when the id is unknown,
 and a text channel is read in base 16; the address numbers are `int()` of
 the id's three-character slices. A failing `int()` raises `ValueError`
 before anything is written.
 */
module Commands {
  import opened Wrappers
  import opened PyText
  import opened Registry
  import opened Frame
  import opened Poller

  /** What a command asks of a plug. */
  datatype Kind = SetState(on: bool) | StatusQuery

  /** Byte 1 of a command: 5 to switch, 4 to query. */
  function CommandType(k: Kind): int {
    if k.SetState? then 5 else 4
  }

  /** Byte 5 of a command: 1 only when switching on. */
  function Flag(k: Kind): int {
    if k == SetState(true) then 1 else 0
  }

  /** The channel of a device: its known channel, `"01"` for an unknown id. */
  function ChannelOf(known: Known, id: string): (r: Channel)
    ensures id in known ==> r == known[id]
    ensures id !in known ==> r == ChanText("01")
  {
    if id in known then known[id] else ChanText("01")
  }

  /** `int(channel, 16)` for a text channel, the number itself otherwise. */
  function ChannelNumber(c: Channel): (r: Option<int>)
    ensures c.ChanNumber? ==> r == Some(c.number)
    ensures c.ChanText? ==> r == ParseInt(c.text, Hex)
  {
    match c
    case ChanText(text) => ParseInt(text, Hex)
    case ChanNumber(n) => Some(n)
  }

  /** The trailing bytes of every command. */
  const Trailer: seq<int> := [255, 255, 255, 255]

  /** The ten numbers of a command on channel `chan` to the plug at `a`. */
  function Command(chan: int, a: Address, kind: Kind): (r: seq<int>)
    ensures |r| == 10 && r[0] == chan && r[1] == CommandType(kind) && r[5] == Flag(kind)
    ensures r[2] == a.a1 && r[3] == a.a2 && r[4] == a.a3 && r[6..] == Trailer
  {
    [chan, CommandType(kind), a.a1, a.a2, a.a3, Flag(kind)] + Trailer
  }

  /**
   The command to device `id`: `ValueError` when the id's slices or the
   channel do not parse, otherwise the command on the parsed channel to
   the parsed address. Whether it raises does not depend on the kind.
   */
  function CommandFields(known: Known, id: string, kind: Kind): (r: Result<seq<int>>)
    ensures r.Raised? <==> AddressOf(id).None? || ChannelNumber(ChannelOf(known, id)).None?
    ensures r.Raised? ==> r.error == ValueError
    ensures r.Ok? ==> r.value == Command(ChannelNumber(ChannelOf(known, id)).value, AddressOf(id).value, kind)
  {
    match AddressOf(id)
    case None => Raised(ValueError)
    case Some(a) =>
      match ChannelNumber(ChannelOf(known, id))
      case None => Raised(ValueError)
      case Some(chan) => Ok(Command(chan, a, kind))
  }

  /**
   A command to a device whose id is nine digits and whose channel parses
   is always built, and its address numbers, printed and zero-padded to
   three digits, spell the id again: the command reaches the plug the id
   names.
   */
  lemma CommandAddressesDevice(known: Known, id: string, kind: Kind)
    requires |id| == 9 && AllDigits(id)
    requires ChannelNumber(ChannelOf(known, id)).Some?
    ensures CommandFields(known, id, kind).Ok?
    ensures var c := CommandFields(known, id, kind).value;
      DeviceId(IntToString(c[2]), IntToString(c[3]), IntToString(c[4])) == id
  {
    IdRoundTrip(id);
    var a := AddressOf(id).value;
    var c := Command(ChannelNumber(ChannelOf(known, id)).value, a, kind);
    assert CommandFields(known, id, kind) == Ok(c);
    assert c[2] == a.a1 && c[3] == a.a2 && c[4] == a.a3;
  }

  /** The switch and status commands to one device differ only in the type and flag bytes. */
  lemma SameDeviceSameBytes(chan: int, a: Address, k1: Kind, k2: Kind)
    ensures forall i :: 0 <= i < 10 && i != 1 && i != 5 ==> Command(chan, a, k1)[i] == Command(chan, a, k2)[i]
  {
    var c1, c2 := Command(chan, a, k1), Command(chan, a, k2);
    forall i | 6 <= i < 10 ensures c1[i] == c2[i] {
      assert c1[i] == c1[6..][i - 6] && c2[i] == c2[6..][i - 6];
    }
  }

  // ----- the wire text ------------------------------------------------------

  /** `str(b)` of every number. */
  function Texts(fields: seq<int>): (r: seq<string>)
    ensures |r| == |fields|
    ensures forall i :: 0 <= i < |r| ==> r[i] == IntToString(fields[i])
  {
    if |fields| == 0 then [] else [IntToString(fields[0])] + Texts(fields[1..])
  }

  /** `",".join(str(b) for b in cmd) + "s"`, the text `_write_cmd` writes. */
  function Wire(fields: seq<int>): (r: string)
    ensures |r| > 0 && r[|r| - 1] == 's'
  {
    Join(Texts(fields), ',') + "s"
  }

  /** Every part read as a decimal integer, or `None` when one does not parse. */
  function ParseAll(parts: seq<string>): (r: Option<seq<int>>)
    ensures r.Some? ==> |r.value| == |parts|
  {
    if |parts| == 0 then Some([])
    else
      match ParseInt(parts[0], Decimal)
      case None => None
      case Some(v) =>
        match ParseAll(parts[1..])
        case None => None
        case Some(vs) => Some([v] + vs)
  }

  /** Reads a command text back into its numbers: drop the final `s`, split at commas, parse. */
  function DecodeWire(w: string): (r: Option<seq<int>>)
    ensures |w| == 0 || w[|w| - 1] != 's' ==> r == None
  {
    if |w| > 0 && w[|w| - 1] == 's' then ParseAll(Split(w[..|w| - 1], ',')) else None
  }

  /** Printing the numbers and parsing the texts gives the numbers back. */
  lemma {:induction false} ParseTexts(fields: seq<int>)
    ensures ParseAll(Texts(fields)) == Some(fields)
  {
    if |fields| > 0 {
      var t := Texts(fields);
      ParseIntToString(fields[0]);
      assert t[0] == IntToString(fields[0]);
      ParseTexts(fields[1..]);
      assert t[1..] == Texts(fields[1..]);
      ParseAllCons(t, fields[0], fields[1..]);
      assert [fields[0]] + fields[1..] == fields;
    }
  }

  /** The parts parse when the first does and the rest do. */
  lemma ParseAllCons(parts: seq<string>, v: int, vs: seq<int>)
    requires |parts| > 0
    requires ParseInt(parts[0], Decimal) == Some(v) && ParseAll(parts[1..]) == Some(vs)
    ensures ParseAll(parts) == Some([v] + vs)
  {
  }

  /** The command text reads back as the numbers it was written from. */
  lemma WireRoundTrip(fields: seq<int>)
    requires |fields| > 0
    ensures DecodeWire(Wire(fields)) == Some(fields)
  {
    var parts := Texts(fields);
    var w := Wire(fields);
    assert w[..|w| - 1] == Join(parts, ',');
    SplitOfJoin(parts, ',');
    ParseTexts(fields);
  }

  /** Two command texts are equal only when their numbers are. */
  lemma WireInjective(a: seq<int>, b: seq<int>)
    requires |a| > 0 && |b| > 0
    requires Wire(a) == Wire(b)
    ensures a == b
  {
    WireRoundTrip(a);
    WireRoundTrip(b);
  }

  /**
   A worked instance: the command that switches on device `009088163`, whose
   channel is the default `"01"`, is `1,5,9,88,163,1,255,255,255,255`.
   */
  lemma SwitchOnExample(known: Known, id: string)
    requires known == map[] && id == "009088163"
    ensures CommandFields(known, id, SetState(true)) == Ok([1, 5, 9, 88, 163, 1, 255, 255, 255, 255])
  {
    ExampleAddress(id);
    ExampleChannel(known, id);
    ExampleBytes();
  }

  /**
   The same instance on the wire: `_write_cmd` writes the text
   `1,5,9,88,163,1,255,255,255,255s` for it.
   */
  lemma SwitchOnWire(known: Known, id: string)
    requires known == map[] && id == "009088163"
    ensures CommandFields(known, id, SetState(true)).Ok?
    ensures Wire(CommandFields(known, id, SetState(true)).value) == "1,5,9,88,163,1,255,255,255,255s"
  {
    SwitchOnExample(known, id);
    ExampleWire(CommandFields(known, id, SetState(true)).value);
  }

  lemma ExampleWire(fields: seq<int>)
    requires fields == [1, 5, 9, 88, 163, 1, 255, 255, 255, 255]
    ensures Wire(fields) == "1,5,9,88,163,1,255,255,255,255s"
  {
    var parts := Texts(fields);
    ExampleTextsHead(fields, parts);
    ExampleTextsTail(fields, parts);
    JoinSplit(parts, ',', 6);
    ExampleJoinHead(parts[..6]);
    ExampleJoinTail(parts[6..]);
    ExampleHalves(Join(parts[..6], ','), Join(parts[6..], ','));
    ExampleSuffix(Join(parts, ','));
  }

  lemma ExampleSuffix(j: string)
    requires j == "1,5,9,88,163,1,255,255,255,255"
    ensures j + "s" == "1,5,9,88,163,1,255,255,255,255s"
  {
  }

  lemma ExampleHalves(a: string, b: string)
    requires a == "1,5,9,88,163,1" && b == "255,255,255,255"
    ensures a + [','] + b == "1,5,9,88,163,1,255,255,255,255"
  {
  }

  lemma ExampleJoinHead(q: seq<string>)
    requires q == ["1", "5", "9", "88", "163", "1"]
    ensures Join(q, ',') == "1,5,9,88,163,1"
  {
    JoinSplit(q, ',', 3);
    JoinThree(q[..3], "1", "5", "9");
    JoinThree(q[3..], "88", "163", "1");
  }

  lemma ExampleJoinTail(q: seq<string>)
    requires q == ["255", "255", "255", "255"]
    ensures Join(q, ',') == "255,255,255,255"
  {
    JoinThree(q[1..], "255", "255", "255");
    JoinSuffix(q, ',', 0);
    assert q[0..] == q;
  }

  /** Three parts joined: each two separated by one comma. */
  lemma JoinThree(q: seq<string>, a: string, b: string, c: string)
    requires q == [a, b, c]
    ensures Join(q, ',') == a + "," + b + "," + c
  {
    JoinSuffix(q, ',', 2);
    JoinSuffix(q, ',', 1);
    JoinSuffix(q, ',', 0);
    assert q[0..] == q;
    assert Join(q, ',') == a + [','] + (b + [','] + c);
  }

  lemma ExampleTextsHead(fields: seq<int>, parts: seq<string>)
    requires fields == [1, 5, 9, 88, 163, 1, 255, 255, 255, 255]
    requires parts == Texts(fields)
    ensures parts[..6] == ["1", "5", "9", "88", "163", "1"]
  {
    SmallTexts();
    Text88();
    Text163();
    assert parts[0] == IntToString(1) && parts[1] == IntToString(5) && parts[2] == IntToString(9);
    assert parts[3] == IntToString(88) && parts[4] == IntToString(163) && parts[5] == IntToString(1);
  }

  lemma ExampleTextsTail(fields: seq<int>, parts: seq<string>)
    requires fields == [1, 5, 9, 88, 163, 1, 255, 255, 255, 255]
    requires parts == Texts(fields)
    ensures parts[6..] == ["255", "255", "255", "255"]
  {
    Text255();
    assert parts[6] == IntToString(255) && parts[7] == IntToString(255);
    assert parts[8] == IntToString(255) && parts[9] == IntToString(255);
  }

  lemma SmallTexts()
    ensures IntToString(1) == "1" && IntToString(5) == "5" && IntToString(9) == "9"
  {
  }

  lemma Text88()
    ensures IntToString(88) == "88"
  {
    assert NatToString(8) == "8";
  }

  lemma Text163()
    ensures IntToString(163) == "163"
  {
    assert NatToString(16) == "16";
  }

  lemma Text255()
    ensures IntToString(255) == "255"
  {
    assert NatToString(25) == "25";
  }

  lemma ExampleBytes()
    ensures Command(1, Address(9, 88, 163), SetState(true)) == [1, 5, 9, 88, 163, 1, 255, 255, 255, 255]
  {
    assert [1, 5, 9, 88, 163, 1] + Trailer == [1, 5, 9, 88, 163, 1, 255, 255, 255, 255];
  }

  lemma ExampleAddress(id: string)
    requires id == "009088163"
    ensures AddressOf(id) == Some(Address(9, 88, 163))
  {
    assert Slice(id, 0, 3) == ['0', '0', '9'] && Slice(id, 3, 6) == ['0', '8', '8'] && Slice(id, 6, 9) == ['1', '6', '3'];
    ThreeDigitsParse('0', '0', '9');
    ThreeDigitsParse('0', '8', '8');
    ThreeDigitsParse('1', '6', '3');
  }

  lemma ExampleChannel(known: Known, id: string)
    requires known == map[]
    ensures ChannelNumber(ChannelOf(known, id)) == Some(1)
  {
    var s := "01";
    TrimNoSpace(s, IntBlanks);
    assert Unsigned(s) == s && DigitsOf(s, Hex) == s;
    assert IsDigitOf(s[0], Hex) && IsDigitOf(s[1], Hex);
    assert ValueOf(s, Hex) == 1 by {
      assert s[..1] == "0" && "0"[..0] == "";
    }
  }

  /** `int()` of three ASCII digits. */
  lemma ThreeDigitsParse(a: char, b: char, c: char)
    requires IsDigit(a) && IsDigit(b) && IsDigit(c)
    ensures ParseInt([a, b, c], Decimal) == Some(DigitValue(a) * 100 + DigitValue(b) * 10 + DigitValue(c))
  {
    var s := [a, b, c];
    assert AllDigits(s);
    ParseDigits(s);
    ValueOfThree(s);
  }

  // ----- turn_on, turn_off, status_request -----------------------------------

  /** The commands a call writes, the registry after it, and what it returns or raises. */
  datatype Outcome = Outcome(written: seq<string>, devices: Devices, result: Result<bool>)

  /**
   `turn_on` (`on`) and `turn_off` once the switch command and the status
   command have been built or have failed: a failed switch command raises
   before anything is written; otherwise its text is written, then the
   device's `state` is set to 1 or 0 (`KeyError`, after the write, for an id
   without an entry), then the status command is written and true returned.
   The status answer is not used, and no other entry or key changes.
   */
  function Switch(devices: Devices, id: string, on: bool, switch: Result<seq<int>>, status: Result<seq<int>>): (r: Outcome)
    ensures switch.Raised? ==> r == Outcome([], devices, Raised(switch.error))
    ensures switch.Ok? && id !in devices ==> r == Outcome([Wire(switch.value)], devices, Raised(KeyError))
    ensures switch.Ok? && id in devices ==>
              && r.devices.Keys == devices.Keys
              && GetState(r.devices, id) == Some(if on then 1 else 0)
              && r.devices[id] == devices[id].(state := r.devices[id].state)
              && (forall k :: k in devices && k != id ==> r.devices[k] == devices[k])
    ensures switch.Ok? && id in devices && status.Ok? ==>
              r.written == [Wire(switch.value), Wire(status.value)] && r.result == Ok(true)
    ensures switch.Ok? && id in devices && status.Raised? ==>
              r.written == [Wire(switch.value)] && r.result == Raised(status.error)
  {
    match switch
    case Raised(e) => Outcome([], devices, Raised(e))
    case Ok(cmd) =>
      if id !in devices then Outcome([Wire(cmd)], devices, Raised(KeyError))
      else
        var updated := devices[id := devices[id].(state := Has(if on then 1 else 0))];
        match status
        case Raised(e) => Outcome([Wire(cmd)], updated, Raised(e))
        case Ok(query) => Outcome([Wire(cmd), Wire(query)], updated, Ok(true))
  }

  /**
   `turn_on` (`on`) and `turn_off` of device `id`: `ValueError`, with nothing
   written and the registry unchanged, exactly when its command cannot be
   built; otherwise the switch command's text is written first. On return
   the state reads 1 or 0 and the status command's text was written second.
   */
  function Turn(devices: Devices, known: Known, id: string, on: bool): (r: Outcome)
    ensures CommandFields(known, id, SetState(on)).Raised? <==> r.result == Raised(ValueError)
    ensures r.result == Raised(ValueError) ==> r.written == [] && r.devices == devices
    ensures r.result == Raised(KeyError) ==> id !in devices && r.devices == devices
    ensures r.result != Raised(ValueError) ==>
      && CommandFields(known, id, SetState(on)).Ok? && |r.written| > 0
      && r.written[0] == Wire(CommandFields(known, id, SetState(on)).value)
    ensures r.result.Ok? ==>
      && GetState(r.devices, id) == Some(if on then 1 else 0) && |r.written| == 2
      && CommandFields(known, id, StatusQuery).Ok?
      && r.written[1] == Wire(CommandFields(known, id, StatusQuery).value)
  {
    Switch(devices, id, on, CommandFields(known, id, SetState(on)), CommandFields(known, id, StatusQuery))
  }

  /**
   What `turn_on` and `turn_off` write reads back, through the wire format,
   as the switch command and then the status command to the device.
   */
  lemma TurnReadsBack(devices: Devices, known: Known, id: string, on: bool)
    ensures var r := Turn(devices, known, id, on);
      r.result != Raised(ValueError) ==>
        DecodeWire(r.written[0]) == Some(CommandFields(known, id, SetState(on)).value)
    ensures var r := Turn(devices, known, id, on);
      r.result.Ok? ==> DecodeWire(r.written[1]) == Some(CommandFields(known, id, StatusQuery).value)
  {
    var r := Turn(devices, known, id, on);
    if r.result != Raised(ValueError) {
      WireRoundTrip(CommandFields(known, id, SetState(on)).value);
    }
    if r.result.Ok? {
      WireRoundTrip(CommandFields(known, id, StatusQuery).value);
    }
  }

  /**
   `status_request`: write the status command (`ValueError`, nothing written
   and the registry untouched when it cannot be built), then let the
   refresher handle `lines` while the device's state is sampled. The answer
   is true exactly when a sampled state differs from the one the registry
   held at the start; without a frame from the device it is false. The
   registry returned is the one the refresher leaves.
   */
  function StatusRequest(devices: Devices, known: Known, id: string, lines: seq<string>): (r: Outcome)
    ensures CommandFields(known, id, StatusQuery).Raised? <==> r.result == Raised(ValueError)
    ensures r.result == Raised(ValueError) ==> r.written == [] && r.devices == devices
    ensures r.result.Ok? ==>
      && r.written == [Wire(CommandFields(known, id, StatusQuery).value)]
      && r.devices == RefreshLines(devices, lines, false).devices
      && (r.result.value <==>
            exists n :: 0 <= n <= |lines| && StateAfter(devices, id, lines, n) != GetState(devices, id))
      && (r.result.value ==> Reports(lines, id))
  {
    match CommandFields(known, id, StatusQuery)
    case Raised(e) => Outcome([], devices, Raised(e))
    case Ok(cmd) =>
      Outcome([Wire(cmd)], RefreshLines(devices, lines, false).devices, Ok(StatusProbe(devices, id, lines)))
  }
}
