/**
 The discovery scan (`start_scan`) with the serial port replaced by the
 lines it reads: the registry is reseeded from the known devices, then every
 line is decoded and may overwrite one telemetry entry and register one new
 device. The loop's time test is modelled on integer clock readings.
 */
module Discovery {
  import opened Wrappers
  import opened PyText
  import opened Registry
  import opened Frame

  /** `_devices`, `_known_devices` and the list of new ids while a scan runs. */
  datatype ScanState = ScanState(devices: Devices, known: Known, found: seq<string>)

  predicate NoDuplicates(s: seq<string>) {
    forall i, j :: 0 <= i < j < |s| ==> s[i] != s[j]
  }

  function Elements(s: seq<string>): set<string> {
    set i | 0 <= i < |s| :: s[i]
  }

  /** A report whose five reading fields all parsed. */
  predicate Accepted(f: ScanFrame) {
    f.Report? && f.applied.complete
  }

  /**
   The entry a report leaves for its id: the written reading, plus the
   channel token once every field parsed; after a failed `int()` the
   partial entry stays as it is, without a channel.
   */
  function ReportedEntry(f: ScanFrame): (r: Entry)
    requires f.Report?
    ensures r.channel == if Accepted(f) then Has(ChanText(f.channel)) else f.applied.entry.channel
    ensures r.(channel := f.applied.entry.channel) == f.applied.entry
  {
    if f.applied.complete then f.applied.entry.(channel := Has(ChanText(f.channel))) else f.applied.entry
  }

  /**
   Handles one decoded scan line. An ignored line (too short, too few
   tokens, or the 170/170 sentinel) changes nothing. A report replaces its
   id's entry and no other. Only an accepted report from an id that is not
   yet known registers that id, with its channel token, and appends it to
   the result list.
   */
  function Register(st: ScanState, f: ScanFrame): (r: ScanState)
    ensures f.Ignored? ==> r == st
    ensures f.Report? ==>
      && r.devices.Keys == st.devices.Keys + {f.id}
      && (forall k :: k in st.devices && k != f.id ==> r.devices[k] == st.devices[k])
      && r.devices[f.id] == ReportedEntry(f)
    ensures r.found != st.found <==> Accepted(f) && f.id !in st.known
    ensures r.found != st.found ==>
      r.found == st.found + [f.id] && r.known == st.known[f.id := ChanText(f.channel)]
    ensures r.found == st.found ==> r.known == st.known
  {
    if f.Ignored? then st
    else
      var devices := st.devices[f.id := ReportedEntry(f)];
      if Accepted(f) && f.id !in st.known then
        ScanState(devices, st.known[f.id := ChanText(f.channel)], st.found + [f.id])
      else st.(devices := devices)
  }

  /**
   For a scan line, what `Register` leaves in its id's entry: when tokens 7
   to 11 all parse, exactly the reading and the channel token, with the
   frame accepted; otherwise no channel and no consumption, and the frame
   not accepted.
   */
  lemma ScanLineEntry(st: ScanState, raw: string)
    requires DecodeScanFrame(raw).Report?
    ensures var f := DecodeScanFrame(raw);
      && (Accepted(f) <==> ParseTelemetry(f.tokens).Some?)
      && (ParseTelemetry(f.tokens).Some? ==>
            var m := ParseTelemetry(f.tokens).value;
            Register(st, f).devices[f.id] == Entry(Has(m.state), Has(m.power), Has(m.consumption), Has(ChanText(f.tokens[2]))))
      && (ParseTelemetry(f.tokens).None? ==>
            Register(st, f).devices[f.id].channel == Missing && Register(st, f).devices[f.id].consumption == Missing)
  {
    var f := DecodeScanFrame(raw);
    assert f.applied == ApplyTelemetry(EmptyEntry, f.tokens);
  }

  /** The frames a sequence of scan lines decodes to. */
  function Frames(lines: seq<string>): (r: seq<ScanFrame>)
    ensures |r| == |lines|
  {
    if |lines| == 0 then [] else [DecodeScanFrame(lines[0])] + Frames(lines[1..])
  }

  lemma {:induction false} FrameAt(lines: seq<string>, i: nat)
    requires i < |lines|
    ensures Frames(lines)[i] == DecodeScanFrame(lines[i])
  {
    if i > 0 {
      FrameAt(lines[1..], i - 1);
    }
  }

  /**
   The scan loop over a finite sequence of decoded lines. The result list
   only grows at its end and the known devices only gain entries.
   */
  function ScanFrames(st: ScanState, fs: seq<ScanFrame>): (r: ScanState)
    ensures |st.found| <= |r.found| && r.found[..|st.found|] == st.found
    ensures forall k :: k in st.known ==> k in r.known && r.known[k] == st.known[k]
    decreases |fs|
  {
    if |fs| == 0 then st else ScanFrames(Register(st, fs[0]), fs[1..])
  }

  /**
   What the scan keeps true relative to the known devices `known0` it
   started from: the new ids are distinct, none was known before, the known
   devices are exactly the old ones plus the new ids, and old channels are
   untouched.
   */
  predicate Registered(st: ScanState, known0: Known) {
    && NoDuplicates(st.found)
    && (forall i :: 0 <= i < |st.found| ==> st.found[i] !in known0)
    && st.known.Keys == known0.Keys + Elements(st.found)
    && forall k :: k in known0 ==> st.known[k] == known0[k]
  }

  lemma RegisterKeepsRegistration(st: ScanState, f: ScanFrame, known0: Known)
    requires Registered(st, known0)
    ensures Registered(Register(st, f), known0)
  {
    var r := Register(st, f);
    if r.found != st.found {
      AppendElements(st.found, f.id);
      assert f.id !in Elements(st.found);
    }
  }

  lemma AppendElements(s: seq<string>, x: string)
    ensures Elements(s + [x]) == Elements(s) + {x}
  {
    var t := s + [x];
    assert t[|s|] == x;
    forall y | y in Elements(t) ensures y in Elements(s) + {x} {
      var i :| 0 <= i < |t| && t[i] == y;
      if i < |s| {
        assert t[i] == s[i];
      }
    }
    forall y | y in Elements(s) ensures y in Elements(t) {
      var i :| 0 <= i < |s| && s[i] == y;
      assert t[i] == y;
    }
  }

  /** The registration invariant holds after any sequence of frames. */
  lemma {:induction false} ScanKeepsRegistration(st: ScanState, fs: seq<ScanFrame>, known0: Known)
    requires Registered(st, known0)
    ensures Registered(ScanFrames(st, fs), known0)
    decreases |fs|
  {
    if |fs| > 0 {
      RegisterKeepsRegistration(st, fs[0], known0);
      ScanKeepsRegistration(Register(st, fs[0]), fs[1..], known0);
    }
  }

  /** The state a scan starts from: the registry reseeded from the known devices, no new ids. */
  function ScanStart(devices: Devices, known: Known): (r: ScanState)
    ensures Registered(r, known)
    ensures r.devices.Keys == devices.Keys + known.Keys
    ensures forall d :: d in known ==> r.devices[d] == Zeroed(known[d])
  {
    ScanState(Seed(devices, known), known, [])
  }

  /**
   `start_scan` over the lines read before the loop stops: the returned ids
   are distinct and were all unknown, the known devices gain exactly them
   and keep every existing channel, and each returned id is registered by
   the first line that reports it with a reading parsed in full, under that
   line's channel token.
   */
  function Scan(devices: Devices, known: Known, lines: seq<string>): (r: ScanState)
    ensures NoDuplicates(r.found)
    ensures forall i :: 0 <= i < |r.found| ==> r.found[i] !in known
    ensures r.known.Keys == known.Keys + Elements(r.found)
    ensures forall k :: k in known ==> r.known[k] == known[k]
    ensures FoundFirstAccepted(r, Frames(lines))
  {
    var st := ScanStart(devices, known);
    var fs := Frames(lines);
    ScanKeepsRegistration(st, fs, known);
    ScanFromEmpty(st, fs);
    ScanFrames(st, fs)
  }

  /**
   Every id in the result list is a known device, registered under the
   channel of the first accepted frame from that device.
   */
  predicate FoundFirstAccepted(st: ScanState, fs: seq<ScanFrame>) {
    forall i :: 0 <= i < |st.found| ==>
      st.found[i] in st.known
      && exists j :: 0 <= j < |fs| && FirstAcceptedAt(fs, st.found[i], j) && st.known[st.found[i]] == ChanText(fs[j].channel)
  }

  /** `ScanRegistersFirstAccepted` for a scan that starts with no new ids. */
  lemma ScanFromEmpty(st: ScanState, fs: seq<ScanFrame>)
    requires st.found == []
    ensures FoundFirstAccepted(ScanFrames(st, fs), fs)
  {
    ScanRegistersFirstAccepted(st, fs);
  }

  /** Drops the frames a scan ignores. */
  function Relevant(fs: seq<ScanFrame>): (r: seq<ScanFrame>)
    ensures |r| <= |fs|
    ensures forall i :: 0 <= i < |r| ==> r[i].Report?
  {
    if |fs| == 0 then []
    else if fs[0].Ignored? then Relevant(fs[1..])
    else [fs[0]] + Relevant(fs[1..])
  }

  /**
   Short lines, lines with too few tokens and 170/170 sentinel lines are
   invisible: removing them from a scan changes neither the registry, the
   known devices nor the result list.
   */
  lemma {:induction false} IgnoredLinesInvisible(st: ScanState, fs: seq<ScanFrame>)
    ensures ScanFrames(st, fs) == ScanFrames(st, Relevant(fs))
    decreases |fs|
  {
    if |fs| > 0 {
      IgnoredLinesInvisible(Register(st, fs[0]), fs[1..]);
      if fs[0].Report? {
        var r := [fs[0]] + Relevant(fs[1..]);
        assert r[0] == fs[0] && r[1..] == Relevant(fs[1..]);
      }
    }
  }

  /** Scanning two batches of frames is scanning their concatenation. */
  lemma {:induction false} ScanSplit(st: ScanState, a: seq<ScanFrame>, b: seq<ScanFrame>)
    ensures ScanFrames(st, a + b) == ScanFrames(ScanFrames(st, a), b)
    decreases |a|
  {
    if |a| > 0 {
      assert (a + b)[0] == a[0] && (a + b)[1..] == a[1..] + b;
      ScanSplit(Register(st, a[0]), a[1..], b);
    } else {
      assert a + b == b;
    }
  }

  /**
   An accepted frame from an unknown device registers that device exactly
   once, whatever other frames, including further frames from the same
   device, come before or after it.
   */
  lemma {:induction false} ScanRegistersOnce(st: ScanState, known0: Known, fs: seq<ScanFrame>, i: nat)
    requires Registered(st, known0)
    requires i < |fs|
    requires Accepted(fs[i]) && fs[i].id !in known0
    ensures var r := ScanFrames(st, fs);
      fs[i].id in Elements(r.found) && NoDuplicates(r.found)
  {
    var f := fs[i];
    var tail := [f] + fs[i + 1..];
    assert fs[..i] + tail == fs;
    ScanSplit(st, fs[..i], tail);
    var before := ScanFrames(st, fs[..i]);
    ScanKeepsRegistration(st, fs[..i], known0);
    var after := Register(before, f);
    RegisterKeepsRegistration(before, f, known0);
    assert f.id in after.known;
    assert tail[0] == f && tail[1..] == fs[i + 1..];
    ScanKeepsRegistration(after, fs[i + 1..], known0);
  }

  /** `fs[j]` is the first accepted frame from device `x`. */
  predicate FirstAcceptedAt(fs: seq<ScanFrame>, x: string, j: int) {
    && 0 <= j < |fs| && Accepted(fs[j]) && fs[j].id == x
    && forall k :: 0 <= k < j ==> !(Accepted(fs[k]) && fs[k].id == x)
  }

  /**
   The converse: every id the scan appends was not known before, and it
   comes, with the channel it is registered under, from the first accepted
   frame of that device.
   */
  lemma {:induction false} ScanRegistersFirstAccepted(st: ScanState, fs: seq<ScanFrame>)
    ensures var r := ScanFrames(st, fs);
      forall i :: |st.found| <= i < |r.found| ==>
        && r.found[i] !in st.known && r.found[i] in r.known
        && exists j :: FirstAcceptedAt(fs, r.found[i], j) && r.known[r.found[i]] == ChanText(fs[j].channel)
    decreases |fs|
  {
    if |fs| > 0 {
      var f := fs[0];
      var next := Register(st, f);
      var r := ScanFrames(st, fs);
      assert r == ScanFrames(next, fs[1..]);
      ScanRegistersFirstAccepted(next, fs[1..]);
      forall i | |st.found| <= i < |r.found|
        ensures r.found[i] !in st.known && r.found[i] in r.known
        ensures exists j :: FirstAcceptedAt(fs, r.found[i], j) && r.known[r.found[i]] == ChanText(fs[j].channel)
      {
        var x := r.found[i];
        if i < |next.found| {
          assert next.found != st.found;
          assert x == next.found[i] == f.id;
          assert FirstAcceptedAt(fs, x, 0);
        } else {
          var j' :| FirstAcceptedAt(fs[1..], x, j') && r.known[x] == ChanText(fs[1..][j'].channel);
          assert Accepted(f) && f.id == x ==> x in next.known;
          forall k | 0 <= k < j' + 1 ensures !(Accepted(fs[k]) && fs[k].id == x) {
            if k > 0 {
              assert fs[k] == fs[1..][k - 1];
            }
          }
          assert FirstAcceptedAt(fs, x, j' + 1);
        }
      }
    }
  }

  /**
   The same for a whole scan: a line whose reading parses in full, from a
   device that was not known, puts that device in the result list, once.
   */
  lemma ScanFindsNewDevice(devices: Devices, known: Known, lines: seq<string>, i: nat)
    requires i < |lines|
    requires DecodeScanFrame(lines[i]).Report?
    requires ParseTelemetry(DecodeScanFrame(lines[i]).tokens).Some?
    requires DecodeScanFrame(lines[i]).id !in known
    ensures var r := Scan(devices, known, lines);
      DecodeScanFrame(lines[i]).id in Elements(r.found) && NoDuplicates(r.found)
  {
    FrameAt(lines, i);
    var f := DecodeScanFrame(lines[i]);
    assert f.applied == ApplyTelemetry(EmptyEntry, f.tokens);
    ScanRegistersOnce(ScanStart(devices, known), known, Frames(lines), i);
  }

  // ----- the loop's time test -----------------------------------------------

  /** `DISCOVERY_TIME`: the intended settle window after the last new device, in seconds. */
  function DiscoveryTime(fast: bool): int {
    if fast then 5 else 15
  }

  /** `DISCOVERY_TIMEOUT`: the scan's window in seconds. */
  function DiscoveryTimeout(fast: bool): int {
    if fast then 5 else 30
  }

  /**
   The loop test `not (elapsed > TIMEOUT) or not (elapsed > TIME or found)`.
   Because `DISCOVERY_TIME` never exceeds `DISCOVERY_TIMEOUT`, it is the
   same as `elapsed <= DISCOVERY_TIMEOUT`: `found` plays no part.
   */
  function ScanContinues(elapsed: int, found: bool, fast: bool): (r: bool)
    ensures r <==> elapsed <= DiscoveryTimeout(fast)
  {
    !(elapsed > DiscoveryTimeout(fast)) || !(elapsed > DiscoveryTime(fast) || found)
  }

  /**
   One pass of the loop: `clock` is the integer clock when the loop test
   runs, `line` the line then read, and `done` the clock once that line is
   handled, which becomes the new `start` when the line registers a device.
   */
  datatype Tick = Tick(clock: int, line: string, done: int)

  /** A pass with its line already decoded. */
  datatype Pass = Pass(clock: int, frame: ScanFrame, done: int)

  function FramesOf(ticks: seq<Pass>): (r: seq<ScanFrame>)
    ensures |r| == |ticks|
  {
    if |ticks| == 0 then [] else [ticks[0].frame] + FramesOf(ticks[1..])
  }

  /** Handling the first `n + 1` ticks is handling the first, then `n` more. */
  lemma TimedPrefix(st: ScanState, ticks: seq<Pass>, n: nat)
    requires n < |ticks|
    ensures ScanFrames(st, FramesOf(ticks[..n + 1]))
         == ScanFrames(Register(st, ticks[0].frame), FramesOf(ticks[1..][..n]))
  {
    assert ticks[..n + 1][0] == ticks[0] && ticks[..n + 1][1..] == ticks[1..][..n];
  }

  datatype Timed = Timed(state: ScanState, start: int, consumed: nat)

  /** The new ids once the first `n` passes are handled. */
  function FoundAfter(st: ScanState, ticks: seq<Pass>, n: nat): seq<string>
    requires n <= |ticks|
  {
    ScanFrames(st, FramesOf(ticks[..n])).found
  }

  /**
   Where the scan's window starts once the first `n` passes are handled: at
   the `done` clock of the last of them that registered a device, or at
   `start` when none did.
   */
  function RestartAfter(st: ScanState, start: int, ticks: seq<Pass>, n: nat): int
    requires n <= |ticks|
  {
    if n == 0 then start
    else if |FoundAfter(st, ticks, n)| > |FoundAfter(st, ticks, n - 1)| then ticks[n - 1].done
    else RestartAfter(st, start, ticks, n - 1)
  }

  /** The new ids after `k + 1` passes are those the rest of the passes leave after the first one is handled. */
  lemma FoundShift(st: ScanState, ticks: seq<Pass>, k: nat)
    requires k < |ticks|
    ensures FoundAfter(st, ticks, k + 1) == FoundAfter(Register(st, ticks[0].frame), ticks[1..], k)
  {
    TimedPrefix(st, ticks, k);
  }

  /** The window start seen from the second pass on, after the first pass has been handled. */
  lemma {:induction false} RestartShift(st: ScanState, start: int, ticks: seq<Pass>, m: nat)
    requires m < |ticks|
    ensures var next := Register(st, ticks[0].frame);
      var start' := if |next.found| > |st.found| then ticks[0].done else start;
      RestartAfter(next, start', ticks[1..], m) == RestartAfter(st, start, ticks, m + 1)
  {
    var next := Register(st, ticks[0].frame);
    FoundShift(st, ticks, m);
    if m == 0 {
      assert ticks[..0] == [] && ticks[1..][..0] == [];
      assert FoundAfter(st, ticks, 0) == st.found;
      assert FoundAfter(next, ticks[1..], 0) == next.found;
    } else {
      FoundShift(st, ticks, m - 1);
      assert ticks[1..][m - 1] == ticks[m];
      RestartShift(st, start, ticks, m - 1);
    }
  }

  /**
   One pass of the timed loop in terms of the window starts: when the first
   pass came within the window and the rest of the loop kept to the window
   starts it saw, the whole loop kept to the window starts of all passes.
   */
  lemma TimedStep(st: ScanState, fast: bool, start: int, ticks: seq<Pass>, rest: Timed)
    requires |ticks| > 0 && ticks[0].clock - start <= DiscoveryTimeout(fast)
    requires rest.consumed < |ticks|
    requires var next := Register(st, ticks[0].frame);
      var start' := if |next.found| > |st.found| then ticks[0].done else start;
      && rest.start == RestartAfter(next, start', ticks[1..], rest.consumed)
      && forall j :: 0 <= j < rest.consumed ==>
           ticks[1..][j].clock - RestartAfter(next, start', ticks[1..], j) <= DiscoveryTimeout(fast)
    ensures rest.start == RestartAfter(st, start, ticks, rest.consumed + 1)
    ensures forall j :: 0 <= j < rest.consumed + 1 ==>
              ticks[j].clock - RestartAfter(st, start, ticks, j) <= DiscoveryTimeout(fast)
  {
    RestartShift(st, start, ticks, rest.consumed);
    forall j | 1 <= j < rest.consumed + 1
      ensures ticks[j].clock - RestartAfter(st, start, ticks, j) <= DiscoveryTimeout(fast)
    {
      RestartShift(st, start, ticks, j - 1);
      assert ticks[1..][j - 1] == ticks[j];
    }
  }

  /**
   The scan loop with its time test: lines are handled while the test
   passes, and each newly registered device moves `start` to the clock after
   its line. The loop handles a prefix of the ticks, exactly as the untimed
   fold does; every pass it handled came at most `DISCOVERY_TIMEOUT` after
   the window start then in force, and it stops at the first tick whose
   clock is more than `DISCOVERY_TIMEOUT` past the window start; that start
   is the clock after the last registering line, or `start` when no device
   was found.
   */
  function ScanTimed(st: ScanState, fast: bool, start: int, ticks: seq<Pass>): (r: Timed)
    ensures r.consumed <= |ticks|
    ensures r.state == ScanFrames(st, FramesOf(ticks[..r.consumed]))
    ensures r.start == RestartAfter(st, start, ticks, r.consumed)
    ensures forall j :: 0 <= j < r.consumed ==>
              ticks[j].clock - RestartAfter(st, start, ticks, j) <= DiscoveryTimeout(fast)
    ensures r.consumed < |ticks| ==> ticks[r.consumed].clock - r.start > DiscoveryTimeout(fast)
    ensures |r.state.found| == |st.found| ==> r.start == start
    decreases |ticks|
  {
    if |ticks| == 0 || !ScanContinues(ticks[0].clock - start, |st.found| > 0, fast) then
      assert ticks[..0] == [];
      Timed(st, start, 0)
    else
      var f := ticks[0].frame;
      var next := Register(st, f);
      var start' := if |next.found| > |st.found| then ticks[0].done else start;
      var rest := ScanTimed(next, fast, start', ticks[1..]);
      var r := Timed(rest.state, rest.start, rest.consumed + 1);
      TimedPrefix(st, ticks, rest.consumed);
      TimedStep(st, fast, start, ticks, rest);
      r
  }

  /** The ticks with their lines decoded. */
  function Decoded(ticks: seq<Tick>): (r: seq<Pass>)
    ensures |r| == |ticks|
  {
    if |ticks| == 0 then []
    else [Pass(ticks[0].clock, DecodeScanFrame(ticks[0].line), ticks[0].done)] + Decoded(ticks[1..])
  }

  lemma {:induction false} DecodedAt(ticks: seq<Tick>, i: nat)
    requires i < |ticks|
    ensures Decoded(ticks)[i] == Pass(ticks[i].clock, DecodeScanFrame(ticks[i].line), ticks[i].done)
  {
    if i > 0 {
      DecodedAt(ticks[1..], i - 1);
    }
  }

  function LinesOf(ticks: seq<Tick>): (r: seq<string>)
    ensures |r| == |ticks|
  {
    if |ticks| == 0 then [] else [ticks[0].line] + LinesOf(ticks[1..])
  }

  /** Decoding the ticks' lines one by one gives the frames of their lines. */
  lemma {:induction false} DecodedFrames(ticks: seq<Tick>, n: nat)
    requires n <= |ticks|
    ensures FramesOf(Decoded(ticks)[..n]) == Frames(LinesOf(ticks[..n]))
  {
    if n > 0 {
      DecodedFrames(ticks[1..], n - 1);
      var d := Decoded(ticks);
      assert d[..n][0] == d[0] && d[..n][1..] == d[1..][..n - 1];
      assert d[1..] == Decoded(ticks[1..]);
      var lines := LinesOf(ticks[..n]);
      assert ticks[..n][0] == ticks[0] && ticks[..n][1..] == ticks[1..][..n - 1];
      assert lines[0] == ticks[0].line && lines[1..] == LinesOf(ticks[1..][..n - 1]);
      var fs := Frames(lines);
      assert fs[0] == DecodeScanFrame(ticks[0].line) && fs[1..] == Frames(LinesOf(ticks[1..][..n - 1]));
    }
  }

  /**
   `start_scan` with its clock: reseed, then run the timed loop from
   `start` with no device found yet. The outcome is the untimed scan of the
   lines the loop read. Each line it read came at most `DISCOVERY_TIMEOUT`
   after the window start then in force, the clock after the last line that
   registered a device (or `start`), and the loop stopped only at a tick
   more than `DISCOVERY_TIMEOUT` past the final window start.
   */
  function StartScan(devices: Devices, known: Known, fast: bool, start: int, ticks: seq<Tick>): (r: Timed)
    ensures r.consumed <= |ticks|
    ensures r.state == Scan(devices, known, LinesOf(ticks[..r.consumed]))
    ensures r.start == RestartAfter(ScanStart(devices, known), start, Decoded(ticks), r.consumed)
    ensures forall j :: 0 <= j < r.consumed ==>
              ticks[j].clock - RestartAfter(ScanStart(devices, known), start, Decoded(ticks), j) <= DiscoveryTimeout(fast)
    ensures r.consumed < |ticks| ==> ticks[r.consumed].clock - r.start > DiscoveryTimeout(fast)
    ensures r.state.found == [] ==> r.start == start
  {
    var passes := Decoded(ticks);
    var r := ScanTimed(ScanStart(devices, known), fast, start, passes);
    DecodedFrames(ticks, r.consumed);
    assert r.consumed < |ticks| ==> passes[r.consumed].clock == ticks[r.consumed].clock by {
      if r.consumed < |ticks| {
        DecodedAt(ticks, r.consumed);
      }
    }
    assert forall j :: 0 <= j < r.consumed ==> passes[j].clock == ticks[j].clock by {
      forall j | 0 <= j < r.consumed ensures passes[j].clock == ticks[j].clock {
        DecodedAt(ticks, j);
      }
    }
    r
  }
}
