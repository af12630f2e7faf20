/**
 The background refresher (`_refresh`) with the serial port replaced by the
 lines it reads, and the wait loop of `status_request` that watches what the
 refresher writes.

 A line updates the registry only when it passes the telemetry pattern. The
 refresher then creates an all-`None` entry for an id it has never seen and
 writes power, state and consumption in that order; `int()` on token 11 is
 the only call that can still fail, and the exception it raises is swallowed
 after power and state are written. The refresher has no check for the
 170/170 sentinel.
 */
module Poller {
  import opened Wrappers
  import opened PyText
  import opened Registry
  import opened Frame

  /** The id a line reports when it passes the telemetry pattern. */
  function ReadingId(line: string): (r: Option<string>)
    ensures r.Some? <==> MatchReading(line)
    ensures r.Some? ==> ReadingShape(Split(line, ' ')) && r.value == DeviceIdOf(Split(line, ' '))
  {
    if MatchReading(line) then
      ReadingTokens(line);
      Some(DeviceIdOf(Split(line, ' ')))
    else None
  }

  /** The registry after one refresher pass, and the id `notify_new_data` was called for. */
  datatype Refresh = Refresh(devices: Devices, notified: Option<string>)

  /**
   What an accepted frame makes of the entry it finds: power and state are
   always written, from the digit tokens 7 to 9; consumption only when token
   11 parses, and only then is the update complete; the channel is kept.
   */
  function RefreshedEntry(base: Entry, t: seq<string>): (r: Applied)
    requires ReadingShape(t)
    ensures r.entry.channel == base.channel
    ensures r.entry.power == Has(Raw(ValueOf(t[8], Decimal), ValueOf(t[9], Decimal)))
    ensures r.entry.state == Has(ValueOf(t[7], Decimal))
    ensures r.complete <==> ParseInt(t[11], Decimal).Some?
    ensures r.complete ==>
      r.entry.consumption == Has(Raw(ValueOf(t[10], Decimal), ParseInt(t[11], Decimal).value))
    ensures !r.complete ==> r.entry.consumption == base.consumption
  {
    ShapeFields(t);
    ApplyTelemetry(base, t)
  }

  /** Tokens 7 to 10 of an accepted frame are digit runs, so their `int()` calls succeed. */
  lemma ShapeFields(t: seq<string>)
    requires ReadingShape(t)
    ensures IntAt(t, 7) == Some(ValueOf(t[7], Decimal))
    ensures RawAt(t, 8) == Some(Raw(ValueOf(t[8], Decimal), ValueOf(t[9], Decimal)))
    ensures IntAt(t, 10) == Some(ValueOf(t[10], Decimal))
  {
    DigitField(t, 7);
    DigitField(t, 8);
    DigitField(t, 9);
    DigitField(t, 10);
  }

  lemma DigitField(t: seq<string>, k: nat)
    requires k < |t| && |t[k]| > 0 && AllDigits(t[k])
    ensures IntAt(t, k) == Some(ValueOf(t[k], Decimal))
  {
    ParseDigits(t[k]);
  }

  /**
   The registry after an accepted frame from device `id`: the id gets an
   entry (an all-`None` one if it had none) updated as `RefreshedEntry`
   says, and no other entry changes.
   */
  function RefreshFrame(devices: Devices, id: string, t: seq<string>): (r: Devices)
    requires ReadingShape(t)
    ensures r.Keys == devices.Keys + {id}
    ensures forall k :: k in devices && k != id ==> r[k] == devices[k]
    ensures r[id] == RefreshedEntry(if id in devices then devices[id] else NullEntry, t).entry
  {
    devices[id := RefreshedEntry(if id in devices then devices[id] else NullEntry, t).entry]
  }

  /**
   One refresher pass over a line: a line that fails the pattern changes
   nothing and notifies nobody; one that passes is applied as a frame, and
   its device is notified exactly when token 11 parsed too and a host is
   attached.
   */
  function RefreshStep(devices: Devices, line: string, hass: bool): (r: Refresh)
    ensures ReadingId(line).None? ==> r == Refresh(devices, None)
    ensures ReadingId(line).Some? ==>
      var t := Split(line, ' ');
      && r.devices == RefreshFrame(devices, ReadingId(line).value, t)
      && (r.notified.Some? <==> hass && ParseInt(t[11], Decimal).Some?)
      && (r.notified.Some? ==> r.notified == ReadingId(line))
  {
    match ReadingId(line)
    case None => Refresh(devices, None)
    case Some(id) =>
      var t := Split(line, ' ');
      Refresh(RefreshFrame(devices, id, t), if hass && ParseInt(t[11], Decimal).Some? then Some(id) else None)
  }

  /**
   The refresher over a sequence of lines: the registry after them and the
   last id notified. Entries are never removed.
   */
  function RefreshLines(devices: Devices, lines: seq<string>, hass: bool): (r: Refresh)
    ensures devices.Keys <= r.devices.Keys
    decreases |lines|
  {
    if |lines| == 0 then Refresh(devices, None)
    else
      var first := RefreshStep(devices, lines[0], hass);
      var rest := RefreshLines(first.devices, lines[1..], hass);
      Refresh(rest.devices, if rest.notified.Some? then rest.notified else first.notified)
  }

  /** Whether some line reports `id`. */
  predicate Reports(lines: seq<string>, id: string) {
    exists i :: 0 <= i < |lines| && ReadingId(lines[i]) == Some(id)
  }

  /**
   An entry no line reports is left exactly as it was, and an id no line
   reports gets no entry.
   */
  lemma {:induction false} RefreshLeavesOthers(devices: Devices, lines: seq<string>, hass: bool, id: string)
    requires !Reports(lines, id)
    ensures id in RefreshLines(devices, lines, hass).devices <==> id in devices
    ensures id in devices ==> RefreshLines(devices, lines, hass).devices[id] == devices[id]
    decreases |lines|
  {
    if |lines| > 0 {
      var first := RefreshStep(devices, lines[0], hass);
      assert ReadingId(lines[0]) != Some(id);
      forall i | 0 <= i < |lines| - 1 ensures ReadingId(lines[1..][i]) != Some(id) {
        assert lines[1..][i] == lines[i + 1];
      }
      RefreshLeavesOthers(first.devices, lines[1..], hass, id);
    }
  }

  /**
   The refresher does not filter the 170/170 sentinel: such a frame still
   overwrites the device's power with the raw value 170 * 256 + 170.
   */
  lemma SentinelNotFiltered(devices: Devices, t: seq<string>)
    requires ReadingShape(t) && IsSentinel(t)
    ensures RefreshFrame(devices, DeviceIdOf(t), t)[DeviceIdOf(t)].power == Has(43690)
  {
    assert t[8] == "170" && t[9] == "170";
    assert ValueOf("170", Decimal) == 170 by {
      assert "170"[..2] == "17" && "17"[..1] == "1" && "1"[..0] == "";
    }
  }

  /** Whether a host is attached decides only the notifications, never the registry the refresher leaves. */
  lemma {:induction false} RefreshIgnoresHost(devices: Devices, lines: seq<string>)
    ensures RefreshLines(devices, lines, true).devices == RefreshLines(devices, lines, false).devices
    decreases |lines|
  {
    if |lines| > 0 {
      RefreshIgnoresHost(RefreshStep(devices, lines[0], false).devices, lines[1..]);
    }
  }

  // ----- status_request's wait loop ----------------------------------------

  /** The device's `state`, as `get_state` reads it, once the refresher has handled the first `n` lines. */
  function StateAfter(devices: Devices, id: string, lines: seq<string>, n: nat): Option<int>
    requires n <= |lines|
  {
    GetState(RefreshLines(devices, lines[..n], false).devices, id)
  }

  /** Sampling after `n + 1` lines is sampling after `n` more lines once the first is handled. */
  lemma StateAfterStep(devices: Devices, id: string, lines: seq<string>, n: nat)
    requires n < |lines|
    ensures StateAfter(devices, id, lines, n + 1)
         == StateAfter(RefreshStep(devices, lines[0], false).devices, id, lines[1..], n)
  {
    assert lines[..n + 1][0] == lines[0] && lines[..n + 1][1..] == lines[1..][..n];
  }

  /** Before any line the sampled state is the registry's own. */
  lemma StateAfterNone(devices: Devices, id: string, lines: seq<string>)
    ensures StateAfter(devices, id, lines, 0) == GetState(devices, id)
  {
    assert lines[..0] == [];
  }

  /**
   `status_request` after its command is written: it samples the device's
   `state` (as `get_state` reads it) while the refresher handles `lines`, and
   answers true exactly when one of the states it samples differs from the
   one it saw first. A change can only come from a frame of that device, so
   without one the answer is false.
   */
  function AwaitStatus(devices: Devices, id: string, last: Option<int>, lines: seq<string>): (r: bool)
    ensures r <==> exists n :: 0 <= n <= |lines| && StateAfter(devices, id, lines, n) != last
    ensures r ==> Reports(lines, id) || GetState(devices, id) != last
    decreases |lines|
  {
    StateAfterNone(devices, id, lines);
    if GetState(devices, id) != last then true
    else if |lines| == 0 then false
    else
      var next := RefreshStep(devices, lines[0], false).devices;
      var r := AwaitStatus(next, id, last, lines[1..]);
      AwaitStep(devices, id, last, lines);
      assert r && !Reports(lines[1..], id) ==> ReadingId(lines[0]) == Some(id);
      assert Reports(lines[1..], id) ==> Reports(lines, id) by {
        if Reports(lines[1..], id) {
          var i :| 0 <= i < |lines| - 1 && ReadingId(lines[1..][i]) == Some(id);
          assert lines[1..][i] == lines[i + 1];
        }
      }
      r
  }

  /**
   When the registry's own state is the one first seen, some sample differs
   from it exactly when some sample after the first line differs.
   */
  lemma AwaitStep(devices: Devices, id: string, last: Option<int>, lines: seq<string>)
    requires |lines| > 0 && GetState(devices, id) == last
    ensures var next := RefreshStep(devices, lines[0], false).devices;
      (exists n :: 0 <= n <= |lines| && StateAfter(devices, id, lines, n) != last)
      <==> (exists n :: 0 <= n <= |lines| - 1 && StateAfter(next, id, lines[1..], n) != last)
  {
    var next := RefreshStep(devices, lines[0], false).devices;
    StateAfterNone(devices, id, lines);
    if n :| 0 <= n <= |lines| && StateAfter(devices, id, lines, n) != last {
      StateAfterStep(devices, id, lines, n - 1);
      assert StateAfter(next, id, lines[1..], n - 1) != last;
    }
    if n :| 0 <= n <= |lines| - 1 && StateAfter(next, id, lines[1..], n) != last {
      StateAfterStep(devices, id, lines, n);
      assert StateAfter(devices, id, lines, n + 1) != last;
    }
  }

  /**
   The answer of the wait loop when it starts from the state the registry
   holds: true exactly when a sampled state differs from that one, and
   without a frame from the device within the window it is false.
   */
  function StatusProbe(devices: Devices, id: string, lines: seq<string>): (r: bool)
    ensures r <==> exists n :: 0 <= n <= |lines| && StateAfter(devices, id, lines, n) != GetState(devices, id)
    ensures !Reports(lines, id) ==> !r
  {
    AwaitStatus(devices, id, GetState(devices, id), lines)
  }
}
