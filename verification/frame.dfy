/**
 The frame codec: how a line from the gateway becomes tokens, a device id
 and a telemetry reading, and how a device id becomes the three address
 numbers a command carries.

 A telemetry line reads `OK 24 <channel> 4 <a1> <a2> <a3> <state> <p_hi>
 <p_lo> <c_hi> <c_lo>`; after splitting on single spaces the fields sit at
 token positions 2 and 4..11. Two code paths read such lines: the
 discovery scan (tolerant tokenising, then `int()` on the fields) and the
 background refresher (a regular-expression prefix match).
 */
module Frame {
  import opened Wrappers
  import opened PyText
  import opened Registry

  /** The number of tokens of a complete telemetry line. */
  const FrameWidth: nat := 12

  // ----- discovery-scan tokenising ----------------------------------------

  /**
   The `pop(0)` loop of the scan: drop leading tokens while the first one is
   not `"OK"` and at least 12 remain.
   */
  function TrimLeading(t: seq<string>): (r: seq<string>)
    ensures |r| <= |t| && r == t[|t| - |r|..]
    ensures forall j :: 0 <= j < |t| - |r| ==> t[j] != "OK"
    ensures |r| >= FrameWidth ==> r[0] == "OK"
    ensures |r| < |t| ==> |r| >= FrameWidth - 1
  {
    if |t| >= FrameWidth && t[0] != "OK" then
      var r := TrimLeading(t[1..]);
      assert t[1..][|t| - 1 - |r|..] == t[|t| - |r|..];
      assert forall j :: 1 <= j < |t| - |r| ==> t[j] == t[1..][j - 1];
      r
    else t
  }

  /**
   Token normalisation of a scan line: only a line of more than 12 tokens is
   trimmed, and then it keeps its tail from the first `"OK"` that still
   leaves 12 tokens, or its last 11 tokens when there is none.
   */
  function Normalise(t: seq<string>): (r: seq<string>)
    ensures |t| <= FrameWidth ==> r == t
    ensures |r| <= |t| && r == t[|t| - |r|..]
    ensures forall j :: 0 <= j < |t| - |r| ==> t[j] != "OK"
    ensures |t| > FrameWidth ==> |r| == FrameWidth - 1 || (|r| >= FrameWidth && r[0] == "OK")
  {
    if |t| > FrameWidth then TrimLeading(t) else t
  }

  /**
   The tokens of a scan line, or `None` when the line is skipped: its
   stripped text is shorter than 2 characters, or fewer than 12 tokens are
   left after normalisation. A kept line is its normalised tokens, a tail of
   its split text that starts at `"OK"` when the split text had more than 12
   tokens.
   */
  function ScanTokens(raw: string): (r: Option<seq<string>>)
    ensures |Strip(raw)| < 2 ==> r == None
    ensures |Strip(raw)| >= 2 ==> (r.Some? <==> |Normalise(Split(Strip(raw), ' '))| >= FrameWidth)
    ensures r.Some? ==> r.value == Normalise(Split(Strip(raw), ' '))
    ensures r.Some? ==> |r.value| >= FrameWidth
    ensures r.Some? ==> var t := Split(Strip(raw), ' '); |r.value| <= |t| && r.value == t[|t| - |r.value|..]
    ensures r.Some? && |Split(Strip(raw), ' ')| > FrameWidth ==> r.value[0] == "OK"
    ensures |Strip(raw)| >= 2 && |Split(Strip(raw), ' ')| == FrameWidth ==>
              r == Some(Split(Strip(raw), ' '))
    ensures |Strip(raw)| >= 2 && |Split(Strip(raw), ' ')| < FrameWidth ==> r == None
  {
    var s := Strip(raw);
    if |s| < 2 then None
    else
      var t := Normalise(Split(s, ' '));
      if |t| < FrameWidth then None else Some(t)
  }

  /** Power bytes `170 170` mark a frame that carries no reading. */
  predicate IsSentinel(t: seq<string>)
    requires |t| >= FrameWidth
  {
    t[8] == "170" && t[9] == "170"
  }

  // ----- device id ----------------------------------------------------------

  /** The device id: the three address tokens, each zero-padded to width 3. */
  function DeviceId(a1: string, a2: string, a3: string): string {
    ZFill(a1, 3) + ZFill(a2, 3) + ZFill(a3, 3)
  }

  function DeviceIdOf(t: seq<string>): string
    requires |t| >= FrameWidth
  {
    DeviceId(t[4], t[5], t[6])
  }

  datatype Address = Address(a1: int, a2: int, a3: int)

  /**
   The address numbers of a device id: `int()` of the slices `[0:3]`,
   `[3:6]` and `[6:9]`; `None` when one of them does not parse, as Python
   raises `ValueError` there.
   */
  function AddressOf(id: string): (r: Option<Address>)
    ensures r.Some? <==> (&& ParseInt(Slice(id, 0, 3), Decimal).Some?
                          && ParseInt(Slice(id, 3, 6), Decimal).Some?
                          && ParseInt(Slice(id, 6, 9), Decimal).Some?)
    ensures r.Some? ==> r.value.a1 == ParseInt(Slice(id, 0, 3), Decimal).value
    ensures r.Some? ==> r.value.a2 == ParseInt(Slice(id, 3, 6), Decimal).value
    ensures r.Some? ==> r.value.a3 == ParseInt(Slice(id, 6, 9), Decimal).value
  {
    var a1 := ParseInt(Slice(id, 0, 3), Decimal);
    var a2 := ParseInt(Slice(id, 3, 6), Decimal);
    var a3 := ParseInt(Slice(id, 6, 9), Decimal);
    if a1.Some? && a2.Some? && a3.Some? then Some(Address(a1.value, a2.value, a3.value)) else None
  }

  lemma DigitsSlice(s: string, i: nat, j: nat)
    requires i <= j <= |s| && AllDigits(s)
    ensures AllDigits(s[i..j])
  {
    forall k | 0 <= k < j - i ensures IsDigit(s[i..j][k]) {
      assert s[i..j][k] == s[i + k];
    }
  }

  /** A three-digit group parses to its value and re-pads to itself. */
  lemma GroupRoundTrip(g: string)
    requires |g| == 3 && AllDigits(g)
    ensures ParseInt(g, Decimal) == Some(ValueOf(g, Decimal))
    ensures ZFill(IntToString(ValueOf(g, Decimal)), 3) == g
  {
    ParseDigits(g);
    ThreeDigitsRoundTrip(g);
  }

  /**
   Every 9-digit id decomposes into three numbers whose `str(n).zfill(3)`
   concatenation is the id again.
   */
  lemma IdRoundTrip(id: string)
    requires |id| == 9 && AllDigits(id)
    ensures AddressOf(id).Some?
    ensures var a := AddressOf(id).value;
      0 <= a.a1 < 1000 && 0 <= a.a2 < 1000 && 0 <= a.a3 < 1000
      && DeviceId(IntToString(a.a1), IntToString(a.a2), IntToString(a.a3)) == id
  {
    var v1, v2, v3 := IdGroups(id);
    ThreeGroups(id);
  }

  lemma ThreeGroups(id: string)
    requires |id| == 9
    ensures id == id[0..3] + id[3..6] + id[6..9]
  {
  }

  /** The value of the three-digit group of `id` at `i`. */
  function GroupValue(id: string, i: nat): nat
    requires i + 3 <= |id|
  {
    ValueOf(id[i..i + 3], Decimal)
  }

  lemma IdGroups(id: string) returns (v1: nat, v2: nat, v3: nat)
    requires |id| == 9 && AllDigits(id)
    ensures v1 < 1000 && v2 < 1000 && v3 < 1000
    ensures AddressOf(id) == Some(Address(v1, v2, v3))
    ensures DeviceId(IntToString(v1), IntToString(v2), IntToString(v3)) == id[0..3] + id[3..6] + id[6..9]
  {
    v1, v2, v3 := GroupValue(id, 0), GroupValue(id, 3), GroupValue(id, 6);
    IdAddress(id);
    IdPadding(id);
  }

  lemma IdAddress(id: string)
    requires |id| == 9 && AllDigits(id)
    ensures AddressOf(id) == Some(Address(GroupValue(id, 0), GroupValue(id, 3), GroupValue(id, 6)))
  {
    GroupParses(id, 0, 3);
    GroupParses(id, 3, 6);
    GroupParses(id, 6, 9);
    AddressFromGroups(id, GroupValue(id, 0), GroupValue(id, 3), GroupValue(id, 6));
  }

  lemma IdPadding(id: string)
    requires |id| == 9 && AllDigits(id)
    ensures GroupValue(id, 0) < 1000 && GroupValue(id, 3) < 1000 && GroupValue(id, 6) < 1000
    ensures DeviceId(IntToString(GroupValue(id, 0)), IntToString(GroupValue(id, 3)), IntToString(GroupValue(id, 6)))
         == id[0..3] + id[3..6] + id[6..9]
  {
    GroupPads(id, 0);
    GroupPads(id, 3);
    GroupPads(id, 6);
  }

  lemma AddressFromGroups(id: string, v1: int, v2: int, v3: int)
    requires ParseInt(Slice(id, 0, 3), Decimal) == Some(v1)
    requires ParseInt(Slice(id, 3, 6), Decimal) == Some(v2)
    requires ParseInt(Slice(id, 6, 9), Decimal) == Some(v3)
    ensures AddressOf(id) == Some(Address(v1, v2, v3))
  {
  }

  /** The group of three digits at `i` parses to its value. */
  lemma GroupParses(id: string, i: nat, j: nat)
    requires j == i + 3 <= |id| && AllDigits(id)
    ensures ParseInt(Slice(id, i, j), Decimal) == Some(GroupValue(id, i))
  {
    DigitsSlice(id, i, j);
    assert Slice(id, i, j) == id[i..j];
    ParseDigits(id[i..j]);
  }

  /** The group of three digits at `i` has a value below 1000 that re-pads to the group. */
  lemma GroupPads(id: string, i: nat)
    requires i + 3 <= |id| && AllDigits(id)
    ensures GroupValue(id, i) < 1000
    ensures ZFill(IntToString(GroupValue(id, i)), 3) == id[i..i + 3]
  {
    DigitsSlice(id, i, i + 3);
    ThreeDigitsRoundTrip(id[i..i + 3]);
  }

  /**
   For address tokens of one to three digits, the id built from them is nine
   digits, slicing and parsing it recovers the three token values, and
   re-padding those values rebuilds the same id.
   */
  lemma TokensRoundTrip(t1: string, t2: string, t3: string)
    requires 1 <= |t1| <= 3 && AllDigits(t1)
    requires 1 <= |t2| <= 3 && AllDigits(t2)
    requires 1 <= |t3| <= 3 && AllDigits(t3)
    ensures var id := DeviceId(t1, t2, t3);
      && |id| == 9 && AllDigits(id)
      && AddressOf(id) == Some(Address(ValueOf(t1, Decimal), ValueOf(t2, Decimal), ValueOf(t3, Decimal)))
      && DeviceId(IntToString(ValueOf(t1, Decimal)), IntToString(ValueOf(t2, Decimal)),
                  IntToString(ValueOf(t3, Decimal))) == id
  {
    ZFillDigits(t1);
    ZFillDigits(t2);
    ZFillDigits(t3);
    var g1, g2, g3 := ZFill(t1, 3), ZFill(t2, 3), ZFill(t3, 3);
    var id := g1 + g2 + g3;
    assert id[0..3] == g1 && id[3..6] == g2 && id[6..9] == g3;
    IdRoundTrip(id);
    GroupRoundTrip(g1);
    GroupRoundTrip(g2);
    GroupRoundTrip(g3);
  }

  // ----- telemetry fields ---------------------------------------------------

  /** A two-byte big-endian field as the raw integer `hi * 256 + lo`. */
  function Raw(hi: int, lo: int): int {
    hi * 256 + lo
  }

  datatype Telemetry = Telemetry(state: int, power: int, consumption: int)

  function IntAt(t: seq<string>, k: nat): Option<int>
    requires k < |t|
  {
    ParseInt(t[k], Decimal)
  }

  /** The raw two-byte field at tokens `k` and `k + 1`, when both parse. */
  function RawAt(t: seq<string>, k: nat): (r: Option<int>)
    requires k + 1 < |t|
    ensures r.Some? <==> IntAt(t, k).Some? && IntAt(t, k + 1).Some?
    ensures r.Some? ==> r.value == Raw(IntAt(t, k).value, IntAt(t, k + 1).value)
  {
    var hi := IntAt(t, k);
    var lo := IntAt(t, k + 1);
    if hi.Some? && lo.Some? then Some(Raw(hi.value, lo.value)) else None
  }

  /** The reading of a frame: defined exactly when tokens 7 to 11 all parse as integers. */
  function ParseTelemetry(t: seq<string>): (r: Option<Telemetry>)
    requires |t| >= FrameWidth
    ensures r.Some? <==> && IntAt(t, 7).Some? && IntAt(t, 8).Some? && IntAt(t, 9).Some?
                         && IntAt(t, 10).Some? && IntAt(t, 11).Some?
    ensures r.Some? ==> && r.value.state == IntAt(t, 7).value
                        && r.value.power == Raw(IntAt(t, 8).value, IntAt(t, 9).value)
                        && r.value.consumption == Raw(IntAt(t, 10).value, IntAt(t, 11).value)
  {
    var power := RawAt(t, 8);
    var state := IntAt(t, 7);
    var consumption := RawAt(t, 10);
    if power.Some? && state.Some? && consumption.Some? then
      Some(Telemetry(state.value, power.value, consumption.value))
    else None
  }

  datatype Applied = Applied(entry: Entry, complete: bool)

  /**
   Writes a frame's reading into an entry the way both code paths do it:
   power, then state, then consumption, each assigned only once its
   `int()` calls succeed and none after the first failure. A failure leaves
   the fields already written in place and `complete` false.
   */
  function ApplyTelemetry(e: Entry, t: seq<string>): (r: Applied)
    requires |t| >= FrameWidth
    ensures r.complete <==> ParseTelemetry(t).Some?
    ensures r.complete ==> var m := ParseTelemetry(t).value;
      r.entry == e.(state := Has(m.state), power := Has(m.power), consumption := Has(m.consumption))
    ensures r.entry.channel == e.channel
    ensures r.entry.power == if RawAt(t, 8).Some? then Has(RawAt(t, 8).value) else e.power
    ensures r.entry.state ==
              if RawAt(t, 8).Some? && IntAt(t, 7).Some? then Has(IntAt(t, 7).value) else e.state
    ensures !r.complete ==> r.entry.consumption == e.consumption
  {
    var power := RawAt(t, 8);
    if power.None? then Applied(e, false)
    else
      var e1 := e.(power := Has(power.value));
      var state := IntAt(t, 7);
      if state.None? then Applied(e1, false)
      else
        var e2 := e1.(state := Has(state.value));
        var consumption := RawAt(t, 10);
        if consumption.None? then Applied(e2, false)
        else Applied(e2.(consumption := Has(consumption.value)), true)
  }

  /**
   What a discovery scan makes of one line: nothing, or a report of the id
   built from tokens 4 to 6, the channel token 2, the tokens themselves, and
   what writing the reading into the fresh entry `{}` leaves.
   */
  datatype ScanFrame =
    | Ignored                                                  // too short, too few tokens, or the 170/170 sentinel
    | Report(id: string, channel: string, tokens: seq<string>, applied: Applied)

  /**
   Decodes a scan line: a line with enough tokens and a real power reading
   reports its id and channel token, and the reading is applied to `{}`.
   */
  function DecodeScanFrame(raw: string): (r: ScanFrame)
    ensures r.Ignored? <==> ScanTokens(raw).None? || IsSentinel(ScanTokens(raw).value)
    ensures r.Report? ==> && ScanTokens(raw) == Some(r.tokens)
                          && r.id == DeviceIdOf(r.tokens)
                          && r.channel == r.tokens[2]
                          && r.applied == ApplyTelemetry(EmptyEntry, r.tokens)
  {
    match ScanTokens(raw)
    case None => Ignored
    case Some(t) => if IsSentinel(t) then Ignored else Report(DeviceIdOf(t), t[2], t, ApplyTelemetry(EmptyEntry, t))
  }

  // ----- refresher pattern --------------------------------------------------

  /**
   One space-delimited piece of the refresher's regular expression
   `OK 24 (\d+) 4 (\d+) (\d+) (\d+) (\d+) (\d+) (\d+) (\d+) (\d+)`: a literal
   word or a `\d+` group.
   */
  datatype TokenPattern = Word(text: string) | Number

  const ReadingPattern: seq<TokenPattern> :=
    [Word("OK"), Word("24"), Number, Word("4"), Number, Number, Number, Number, Number, Number, Number, Number]

  /** The length of the run of ASCII digits `s` starts with. */
  function DigitRun(s: string): (n: nat)
    ensures n <= |s|
    ensures forall i :: 0 <= i < n ==> IsDigit(s[i])
    ensures n < |s| ==> !IsDigit(s[n])
  {
    if |s| > 0 && IsDigit(s[0]) then 1 + DigitRun(s[1..]) else 0
  }

  /**
   How much of the front of `s` one pattern piece matches: a word matches
   itself, `\d+` the whole leading digit run. Taking the whole run loses no
   match, because in this pattern every group is followed by a space or ends
   the pattern.
   */
  function HeadLength(p: TokenPattern, s: string): (r: Option<nat>)
    ensures r.Some? ==> r.value <= |s|
  {
    match p
    case Word(w) => if w <= s then Some(|w|) else None
    case Number => var n := DigitRun(s); if n > 0 then Some(n) else None
  }

  /**
   `re.match`: the pattern pieces, separated by single spaces, match a prefix
   of `s`; whatever follows the last piece is ignored.
   */
  predicate MatchesFrom(ps: seq<TokenPattern>, s: string)
    decreases |ps|
  {
    if |ps| == 0 then true
    else
      match HeadLength(ps[0], s)
      case None => false
      case Some(n) =>
        |ps| == 1 || (n < |s| && s[n] == ' ' && MatchesFrom(ps[1..], s[n + 1..]))
  }

  /** The refresher's test: does the line match the telemetry pattern? */
  predicate MatchReading(line: string) {
    MatchesFrom(ReadingPattern, line)
  }

  /** A token fits a pattern piece that is followed by a space. */
  predicate Fits(p: TokenPattern, tok: string) {
    match p
    case Word(w) => tok == w
    case Number => |tok| > 0 && AllDigits(tok)
  }

  /** A token starts with a match of the last pattern piece. */
  predicate StartsLike(p: TokenPattern, tok: string) {
    match p
    case Word(w) => w <= tok
    case Number => |tok| > 0 && IsDigit(tok[0])
  }

  predicate TokensFit(ps: seq<TokenPattern>, t: seq<string>) {
    && |t| >= |ps|
    && (forall i :: 0 <= i < |ps| - 1 ==> Fits(ps[i], t[i]))
    && (|ps| > 0 ==> StartsLike(ps[|ps| - 1], t[|ps| - 1]))
  }

  predicate SpaceFreeWords(ps: seq<TokenPattern>) {
    forall i :: 0 <= i < |ps| ==> ps[i].Word? ==> ' ' !in ps[i].text
  }

  /** The first part of a split, and how the remaining parts continue. */
  lemma SplitHead(s: string)
    ensures var t := Split(s, ' '); |t[0]| <= |s| && t[0] == s[..|t[0]|]
    ensures |Split(s, ' ')| > 1 <==> ' ' in s
    ensures ' ' in s ==> var k := |Split(s, ' ')[0]|;
      k < |s| && s[k] == ' ' && Split(s, ' ')[1..] == Split(s[k + 1..], ' ')
  {
  }

  /** A last pattern piece matches the front of `s` exactly when it starts the first token. */
  lemma LastPiece(p: TokenPattern, s: string)
    requires p.Word? ==> ' ' !in p.text
    ensures HeadLength(p, s).Some? <==> StartsLike(p, Split(s, ' ')[0])
  {
    SplitHead(s);
    var t0 := Split(s, ' ')[0];
    assert ' ' !in t0;
    match p
    case Word(w) =>
      if w <= s {
        forall i | 0 <= i < |w| ensures s[i] != ' ' {
          assert s[i] == w[i];
        }
      }
    case Number =>
      if |s| > 0 && IsDigit(s[0]) {
        assert s[0] != ' ';
      }
  }

  /**
   A pattern piece followed by a space matches the front of `s` exactly when
   `s` has a second token and the first token fits the piece; the match then
   covers the first token.
   */
  lemma PieceThenSpace(p: TokenPattern, s: string)
    requires p.Word? ==> ' ' !in p.text
    ensures (&& HeadLength(p, s).Some?
             && HeadLength(p, s).value < |s|
             && s[HeadLength(p, s).value] == ' ')
        <==> |Split(s, ' ')| > 1 && Fits(p, Split(s, ' ')[0])
    ensures |Split(s, ' ')| > 1 && Fits(p, Split(s, ' ')[0]) ==>
              HeadLength(p, s) == Some(|Split(s, ' ')[0]|)
  {
    SplitHead(s);
    var t := Split(s, ' ');
    var k := |t[0]|;
    var h := HeadLength(p, s);
    if h.Some? && h.value < |s| && s[h.value] == ' ' {
      var n := h.value;
      assert ' ' in s;
      forall i | 0 <= i < n ensures s[i] != ' ' {
        match p
        case Word(w) => assert s[i] == w[i];
        case Number => assert IsDigit(s[i]);
      }
      IndexOfFirst(s, ' ', n);
      assert k == n;
      assert t[0] == s[..n];
      match p
      case Word(w) =>
      case Number =>
    }
    if |t| > 1 && Fits(p, t[0]) {
      assert ' ' in s && s[k] == ' ';
      match p
      case Word(w) =>
      case Number =>
        forall i | 0 <= i < k ensures IsDigit(s[i]) {
          assert s[i] == t[0][i];
        }
        assert !IsDigit(s[k]);
        assert DigitRun(s) == k;
    }
  }

  /** Token fitting splits into the first piece and the rest. */
  lemma TokensFitCons(ps: seq<TokenPattern>, t: seq<string>)
    requires |ps| > 1 && |t| > 0
    ensures TokensFit(ps, t) <==> Fits(ps[0], t[0]) && TokensFit(ps[1..], t[1..])
  {
    if Fits(ps[0], t[0]) && TokensFit(ps[1..], t[1..]) {
      forall i | 0 <= i < |ps| - 1 ensures Fits(ps[i], t[i]) {
        if i > 0 {
          assert ps[1..][i - 1] == ps[i] && t[1..][i - 1] == t[i];
        }
      }
      assert ps[1..][|ps| - 2] == ps[|ps| - 1] && t[1..][|ps| - 2] == t[|ps| - 1];
    }
    if TokensFit(ps, t) {
      forall i | 0 <= i < |ps| - 2 ensures Fits(ps[1..][i], t[1..][i]) {
        assert ps[1..][i] == ps[i + 1] && t[1..][i] == t[i + 1];
      }
      assert ps[1..][|ps| - 2] == ps[|ps| - 1] && t[1..][|ps| - 2] == t[|ps| - 1];
    }
  }

  /**
   The character-level pattern match agrees with splitting on spaces and
   testing token by token.
   */
  lemma {:induction false} MatchesFromTokens(ps: seq<TokenPattern>, s: string)
    requires |ps| > 0 && SpaceFreeWords(ps)
    ensures MatchesFrom(ps, s) <==> TokensFit(ps, Split(s, ' '))
    decreases |ps|
  {
    var t := Split(s, ' ');
    if |ps| == 1 {
      LastPiece(ps[0], s);
    } else {
      assert SpaceFreeWords(ps[1..]);
      SplitHead(s);
      PieceThenSpace(ps[0], s);
      TokensFitCons(ps, t);
      if |t| > 1 && Fits(ps[0], t[0]) {
        var k := |t[0]|;
        MatchesFromTokens(ps[1..], s[k + 1..]);
      }
    }
  }

  lemma ReadingWordsSpaceFree()
    ensures SpaceFreeWords(ReadingPattern)
  {
    assert ' ' !in "OK" && ' ' !in "24" && ' ' !in "4";
  }

  /**
   A line passes the refresher's pattern exactly when its space-split tokens
   read `OK`, `24`, digits, `4`, then seven digit tokens, and token 11 starts
   with a digit. Tokens 2 and 4 to 10 therefore always parse as integers.
   */
  lemma ReadingTokens(line: string)
    ensures MatchReading(line) <==> TokensFit(ReadingPattern, Split(line, ' '))
    ensures MatchReading(line) ==> ReadingShape(Split(line, ' '))
  {
    ReadingWordsSpaceFree();
    MatchesFromTokens(ReadingPattern, line);
    if MatchReading(line) {
      FitReadingShape(Split(line, ' '));
    }
  }

  /** The token shape of a line the refresher accepts. */
  predicate ReadingShape(t: seq<string>) {
    && |t| >= FrameWidth && t[0] == "OK" && t[1] == "24" && t[3] == "4"
    && |t[2]| > 0 && AllDigits(t[2])
    && (forall k :: 4 <= k < 11 ==> |t[k]| > 0 && AllDigits(t[k]))
    && |t[11]| > 0 && IsDigit(t[11][0])
  }

  lemma FitReadingShape(t: seq<string>)
    requires TokensFit(ReadingPattern, t)
    ensures ReadingShape(t)
  {
    var ps := ReadingPattern;
    assert Fits(ps[0], t[0]) && Fits(ps[1], t[1]) && Fits(ps[2], t[2]) && Fits(ps[3], t[3]);
    assert Fits(ps[4], t[4]) && Fits(ps[5], t[5]) && Fits(ps[6], t[6]) && Fits(ps[7], t[7]);
    assert Fits(ps[8], t[8]) && Fits(ps[9], t[9]) && Fits(ps[10], t[10]);
    assert StartsLike(ps[11], t[11]);
  }
}
