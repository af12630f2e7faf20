# PCA301 serial engine — a Dafny model

This project models the protocol logic of the `PCA` class. That class drives
PCA301 smart plugs over a serial line, and the repository holds two copies
of it:

- the packaged `custom_components/pca301/pypca.py`, with a lock and a status
  request after every switch;
- the older root `pypca.py`, without either.

In the model the serial port is a finite sequence of text lines read and a
sequence of command texts written. With that done, the engine is string,
integer and dictionary manipulation, and the model states and proves what
each part does.

The modules follow the engine's structure:

- `Wrappers`: `Option` and `Result`. `Raised(ValueError)` and
  `Raised(KeyError)` stand for the Python exceptions.
- `PyText`: the pieces of Python the engine relies on, written out:
  - `str.strip`, `str.split(" ")`, `",".join`, `str.zfill` and `s[i:j]`;
  - `int(s)` and `int(s, 16)`, as a partial parser with surrounding
    whitespace, a sign, the `0x` prefix and `_` digit separators. `int()`
    skips less whitespace than `str.strip` does: the separators U+001C to
    U+001F are not skipped;
  - `str(n)`, with the round trip `int(str(n)) == n`.
- `Registry`: `_known_devices` (id to channel) and `_devices` (id to an inner
  dict). An inner dict is an `Entry` of four slots, each missing, `None` or
  holding a value, because the engine builds those dicts key by key.
  `get_devices`, `get_state`, `get_current_power` and
  `get_total_consumption` read them.
- `Frame`: the scan-line pipeline of `start_scan`:
  - strip, split and the `pop(0)` trimming;
  - the too-short test and the `170/170` sentinel;
  - the zero-padded device id and channel token 2;
  - the telemetry fields as raw integers `hi * 256 + lo`, written in source
    order, so that a failing `int()` leaves a partial entry behind.

  It also holds the refresher's regular expression, matched character by
  character and proved equal to a token-by-token test.
- `Discovery`: `start_scan` as a fold over decoded lines:
  - the reseed from the known devices and the registration of new ids;
  - the invariant the scan keeps (new ids distinct and unknown, known devices
    only grow);
  - the loop's time test on integer clock readings, and the timed loop that
    restarts its window on each new device.
- `Poller`: the background `_refresh` over a sequence of lines, and the wait
  loop of `status_request`.
- `Commands`: the ten-number commands of `turn_on`, `turn_off` and
  `status_request`, and the wire text of `_write_cmd`. The wire text is
  proved to read back as its numbers. Two operations are defined here:
  - the packaged `turn_on`/`turn_off`: write the switch command, set the
    state, then write the status command;
  - `status_request`.
- `Legacy`: the older copy's `turn_on`/`turn_off`, which write only the
  switch command. It is proved to differ from the packaged one only by the
  status text written last.

In the older copy, the scan line handling (`pypca.py:155-205`), the
refresher (`pypca.py:269-290`), the wire join (`pypca.py:214`) and the
registry reads (`pypca.py:103-127`) are the same logic as in the packaged
copy. They are modelled once; several rows below cite the older lines.

The channel a scan records is kept as the text token it read (`ChanText`).
A channel stored as a number (`ChanNumber`) is read as the number itself,
which is what `int(channel)` does for an integer.

## Model

| member | source | states |
|---|---|---|
| `PyText.TrimExact` | custom_components/pca301/pypca.py:206-209 | `strip`, and the whitespace skip of `int()`, remove exactly the leading and trailing blanks of their kind: what is left is a contiguous piece of the text that neither starts nor ends with such a blank |
| `PyText.TrimNoSpace` | custom_components/pca301/pypca.py:209 | a text without whitespace is unchanged by `strip` and by `int()`'s whitespace skip |
| `PyText.ParseIntSeparator` | custom_components/pca301/pypca.py:239-245 | `int()` raises `ValueError` for every text that holds one of the separators U+001C to U+001F anywhere, although `strip` removes them at the ends |
| `PyText.ParseIntPadded` | custom_components/pca301/pypca.py:239-245 | surrounding whitespace that `int()` skips never changes what it parses |
| `PyText.SeparatorExample` | custom_components/pca301/pypca.py:206-245 | the text U+001C followed by `1` strips to `"1"`, yet `int()` of it raises `ValueError` |
| `PyText.Split` | custom_components/pca301/pypca.py:216 | `split(" ")` yields at least one part, no part contains a space, and joining the parts with spaces gives the text back |
| `PyText.SplitOfJoin` | custom_components/pca301/pypca.py:272 | splitting a `",".join` of comma-free parts at commas gives exactly those parts |
| `PyText.ParseDigits` | custom_components/pca301/pypca.py:291-293 | `int()` of a non-empty run of ASCII digits succeeds with that run's decimal value |
| `PyText.ParseIntToString` | custom_components/pca301/pypca.py:272 | `int(str(n)) == n` for every integer, negative ones included |
| `PyText.NatToString` | custom_components/pca301/pypca.py:231-233 | `str(n)` of a natural number is a run of digits, without a leading zero unless `n` is 0, whose value is `n` |
| `PyText.ZFillDigits` | custom_components/pca301/pypca.py:230-234 | `zfill(3)` of one to three digits gives three digits with the same value |
| `PyText.ThreeDigitsRoundTrip` | custom_components/pca301/pypca.py:308-310 | a three-digit group has a value below 1000, and `str(value).zfill(3)` spells the group again |
| `Frame.TrimLeading` | custom_components/pca301/pypca.py:219-222 | the `pop(0)` loop drops only tokens other than `"OK"`, keeps a suffix, and stops at an `"OK"` with at least 12 tokens left or with exactly 11 left |
| `Frame.Normalise` | pypca.py:177-180 | a line of at most 12 tokens is never trimmed; a longer one keeps a suffix that starts with `"OK"` and has at least 12 tokens, or has 11 tokens |
| `Frame.ScanTokens` | custom_components/pca301/pypca.py:206-226 | a line whose stripped text is shorter than 2 is skipped, as is one with fewer than 12 tokens; an accepted line has at least 12 tokens, forming a suffix of its split; exactly 12 tokens are kept as they are; a line whose stripped text has at least 2 characters is accepted exactly when its trimmed split has at least 12 tokens, and an accepted line is that trimmed split, starting with `"OK"` when its split was longer than 12 |
| `Frame.AddressOf` | custom_components/pca301/pypca.py:291-293 | the address numbers are `int()` of the id's slices `[0:3]`, `[3:6]` and `[6:9]`, and exist exactly when all three parse |
| `Frame.IdRoundTrip` | custom_components/pca301/pypca.py:308-310 | every 9-digit id slices into three numbers below 1000 whose zero-padded `str` concatenation is the id again |
| `Frame.TokensRoundTrip` | custom_components/pca301/pypca.py:230-234 | for address tokens of one to three digits, the built id has 9 digits, slicing and parsing it recovers the token values, and re-padding those values rebuilds the same id |
| `Frame.ParseTelemetry` | custom_components/pca301/pypca.py:239-245 | a frame's reading exists exactly when tokens 7 to 11 all parse; state is token 7, power `t8 * 256 + t9`, consumption `t10 * 256 + t11` |
| `Frame.ApplyTelemetry` | custom_components/pca301/pypca.py:238-245 | power, state and consumption are written in that order, each only after its `int()` calls succeed; the update is complete exactly when the reading parses, and a failure keeps the fields already written; the channel is untouched |
| `Frame.DecodeScanFrame` | custom_components/pca301/pypca.py:228-237 | a scan line is ignored exactly when it is skipped or carries the `170/170` sentinel; otherwise it reports the padded id of tokens 4 to 6, channel token 2, and the reading applied to the fresh entry `{}` |
| `Frame.ReadingTokens` | custom_components/pca301/pypca.py:29-31 | a line matches `OK 24 (\d+) 4 (\d+) ... (\d+)` exactly when its space-split tokens fit the pattern token by token; a matching line has the shape `OK 24 n 4` followed by digit tokens, with token 11 starting with a digit |
| `Frame.MatchesFromTokens` | custom_components/pca301/pypca.py:344 | the character-level `re.match` of space-separated pattern pieces agrees with splitting the line on spaces and testing each token |
| `Registry.Seed` | custom_components/pca301/pypca.py:184-189 | every known id gets a zeroed entry with its known channel; every other entry stays as it was |
| `Registry.GetDevices` | custom_components/pca301/pypca.py:112-123 | with no entries but some known devices, the registry becomes exactly the known ids, each zeroed with its known channel; otherwise it is returned unchanged |
| `Registry.GetDevicesIdempotent` | pypca.py:103-114 | calling `get_devices` twice gives what calling it once gives |
| `Registry.GetState` | custom_components/pca301/pypca.py:131-136 | `None` for an absent id or a missing or `None` state, otherwise the stored state; it never raises |
| `Registry.GetCurrentPower` | custom_components/pca301/pypca.py:125-126 | `KeyError` exactly when the id or its `power` key is missing; otherwise the stored power or `None` |
| `Registry.GetTotalConsumption` | custom_components/pca301/pypca.py:128-129 | `KeyError` exactly when the id or its `consumption` key is missing; otherwise the stored consumption or `None` |
| `Discovery.ReportedEntry` | custom_components/pca301/pypca.py:238-246 | the entry a report leaves gets channel token 2 only when the whole reading parsed; otherwise it is the partial entry without a channel |
| `Discovery.Register` | custom_components/pca301/pypca.py:238-258 | an ignored line changes nothing; a report replaces its own id's entry and no other; an id is registered with channel token 2 and appended to the result exactly when the reading parsed and the id was unknown; otherwise the known devices are unchanged |
| `Discovery.ScanLineEntry` | custom_components/pca301/pypca.py:259-261 | after a scan line, the id's entry holds exactly the reading and the channel when tokens 7 to 11 parse; when one fails the exception is swallowed, leaving an entry without channel or consumption and registering nothing |
| `Discovery.ScanFrames` | custom_components/pca301/pypca.py:191-261 | over any lines, the result list only grows at its end and known devices keep their channels |
| `Discovery.RegisterKeepsRegistration` | custom_components/pca301/pypca.py:247-258 | one line preserves the scan invariant: new ids distinct and previously unknown, known devices exactly the old ones plus the new ids, old channels untouched |
| `Discovery.ScanKeepsRegistration` | custom_components/pca301/pypca.py:190-261 | the scan invariant holds after any sequence of lines |
| `Discovery.ScanStart` | custom_components/pca301/pypca.py:183-190 | the scan starts from the registry reseeded with zeroed known devices, no new ids, and the invariant holding |
| `Discovery.ScanRegistersFirstAccepted` | custom_components/pca301/pypca.py:247-258 | every id a scan appends was unknown before it, and came from the first line with that id whose reading parsed; it is registered with that line's channel token |
| `Discovery.Scan` | custom_components/pca301/pypca.py:183-265 | the returned ids are distinct and none was known; the known devices become exactly the old ones plus the returned ids, with old channels kept; each returned id is registered with the channel token of the first line from it whose reading parsed |
| `Discovery.IgnoredLinesInvisible` | pypca.py:170-187 | removing the short, too-few-token and `170/170` lines from a scan changes neither the registry, the known devices nor the result |
| `Discovery.ScanSplit` | custom_components/pca301/pypca.py:191-193 | scanning two batches of lines one after the other is scanning their concatenation |
| `Discovery.ScanRegistersOnce` | pypca.py:195-202 | an accepted line from an unknown id puts that id in the result exactly once, whatever lines, including repeats of that device, come before or after |
| `Discovery.ScanFindsNewDevice` | custom_components/pca301/pypca.py:247-258 | in a whole scan, a line whose reading parses from a device that was not known puts that device in the result list, once |
| `Discovery.ScanContinues` | custom_components/pca301/pypca.py:176-193 | the loop test `not (e > TIMEOUT) or not (e > TIME or found)` with 5/5 or 15/30 holds exactly when `e <= TIMEOUT`; `found` never matters |
| `Discovery.ScanTimed` | pypca.py:162-202 | the timed loop handles a prefix of the lines, equal to the untimed scan of that prefix; the window restarts at the clock reading taken after the last line that registered a new device, and stays at the first start when none did; every line handled was read within the timeout of the window's start at that point, and the loop stops only at a clock more than the timeout past it |
| `Discovery.StartScan` | custom_components/pca301/pypca.py:174-265 | `start_scan` with its clock: the outcome is the untimed scan of the lines read; the window restarts at the clock reading after the last registering line, or stays at the first start; every line read passed the loop test against the window of its moment, and the loop stopped only because the clock ran past the window |
| `Poller.ReadingId` | custom_components/pca301/pypca.py:344-351 | a line yields an id exactly when it matches the telemetry pattern; the id is the zero-padded tokens 4 to 6 |
| `Poller.RefreshedEntry` | custom_components/pca301/pypca.py:360-366 | a matched frame writes power `t8 * 256 + t9` and state `t7`, whose tokens the pattern makes digit runs; consumption is written, and the update is complete, exactly when token 11 parses; the channel is kept |
| `Poller.RefreshFrame` | custom_components/pca301/pypca.py:353-366 | the frame's id gets an entry, an all-`None` one when it had none, updated as above; no other entry changes |
| `Poller.RefreshStep` | custom_components/pca301/pypca.py:344-376 | a non-matching line changes nothing; a matching one is applied, and its device is notified exactly when a host is attached and token 11 parsed |
| `Poller.RefreshLines` | custom_components/pca301/pypca.py:322-378 | the refresher never removes an entry |
| `Poller.RefreshIgnoresHost` | custom_components/pca301/pypca.py:366-369 | whether a host is attached changes only the notifications, never the registry the refresher leaves |
| `Poller.StateAfterStep` | custom_components/pca301/pypca.py:430-434 | the state sampled after `n + 1` lines is the state sampled after `n` lines of the rest, once the first line is handled |
| `Poller.RefreshLeavesOthers` | pypca.py:269-290 | an id no line reports keeps its entry exactly, and gets none if it had none |
| `Poller.SentinelNotFiltered` | pypca.py:284-286 | the refresher has no `170/170` check: such a frame overwrites the power with the raw value 43690 |
| `Poller.AwaitStatus` | custom_components/pca301/pypca.py:430-434 | the wait loop answers true exactly when the state sampled after some number of refresher lines differs from the state first seen; a change needs a frame from that device |
| `Poller.StatusProbe` | custom_components/pca301/pypca.py:427-435 | starting from the registry's own state, the answer is true exactly when a sampled state differs from it; without a frame from the device during the wait, it is false |
| `Commands.ChannelOf` | custom_components/pca301/pypca.py:290 | the known channel of the id, or `"01"` for an unknown id |
| `Commands.ChannelNumber` | custom_components/pca301/pypca.py:294 | a text channel is `int(channel, 16)`, a numeric one itself |
| `Commands.Command` | custom_components/pca301/pypca.py:312 | a command is ten numbers: channel, type, the three address numbers, flag, then `255` four times |
| `Commands.CommandFields` | custom_components/pca301/pypca.py:307-312 | `ValueError` exactly when an address slice or the channel does not parse, for every kind of command; otherwise the command on the parsed channel to the parsed address |
| `Commands.CommandAddressesDevice` | custom_components/pca301/pypca.py:308-310 | for a 9-digit id with a parsable channel the command is always built, and its address numbers re-padded spell the id: the command reaches that device |
| `Commands.SameDeviceSameBytes` | custom_components/pca301/pypca.py:413-420 | a device's switch and status commands differ only in the type and flag bytes |
| `Commands.SwitchOnExample` | custom_components/pca301/pypca.py:305-312 | switching on device `009088163` with the default channel `"01"` builds `1,5,9,88,163,1,255,255,255,255` |
| `Commands.SwitchOnWire` | custom_components/pca301/pypca.py:305-313 | the same command goes on the wire as the text `1,5,9,88,163,1,255,255,255,255s` |
| `Commands.ParseTexts` | custom_components/pca301/pypca.py:272 | printing the numbers with `str` and parsing each text back gives the numbers |
| `Commands.WireRoundTrip` | custom_components/pca301/pypca.py:272 | the wire text reads back, after dropping `s` and splitting at commas, as exactly the numbers it was written from |
| `Commands.WireInjective` | pypca.py:214 | two commands with the same wire text are the same command |
| `Commands.Switch` | custom_components/pca301/pypca.py:288-320 | a failed switch command raises before anything is written; otherwise its text is written, then a missing entry raises `KeyError`; else only that id's state becomes 1 or 0, keys and other entries unchanged, then the status text is written and true returned |
| `Commands.Turn` | custom_components/pca301/pypca.py:305-320 | `turn_on`/`turn_off` raise `ValueError`, writing nothing and changing nothing, exactly when the command cannot be built; otherwise the switch text is written first; on return the state reads 1 or 0 and the status text was written second |
| `Commands.TurnReadsBack` | custom_components/pca301/pypca.py:312-319 | what `turn_on`/`turn_off` write reads back as the switch command and then the status command to the device |
| `Commands.StatusRequest` | custom_components/pca301/pypca.py:410-435 | `ValueError`, with nothing written, exactly when the status command cannot be built; otherwise its text is written and the registry becomes the one the refresher leaves after `lines`; the answer is true exactly when a sampled state differs from the one the registry held at the start, and only if a frame from the device arrived |
| `Legacy.SetOnly` | pypca.py:244-256 | the older switch: a failed command raises before anything is written; otherwise exactly its text is written, then `KeyError` for a missing entry or the state set and true returned |
| `Legacy.Turn` | pypca.py:230-256 | the older `turn_on`/`turn_off` raise `ValueError`, writing nothing, exactly when the command cannot be built; otherwise exactly the switch text is written, and on return the state reads 1 or 0 |
| `Legacy.TurnAddsOnlyStatus` | pypca.py:230-242 | the packaged and older switches leave the same registry and result; the older one writes the packaged one's texts minus the final status text |

## Left out

- Serial I/O (`open`, `close`, `get_ready`, `readline`, `write`, buffer resets) is left out. Lines read are an input sequence; texts written are an output sequence. A failing `write` inside `_write_cmd`, which is only logged, is not modelled.
- Threads, locks and sleeps are left out, because their point is concurrency: `_start_worker`, `_stop_worker`, `_serial_lock` and the non-blocking acquire in `_refresh`. Only `status_request`'s wait interleaves with the refresher: it samples the state after each refresher line. Everywhere else the refresher and the other operations are modelled as running one after the other.
- Time is left out. The clock is an integer reading attached to each line the scan reads. The reading taken after a registered line stands for `start = time.time()`, a float in the source; its fraction of a second is not modelled.
- `Discovery.ScanTimed`: the clock is sampled once per loop test. The model does not cover a clock that moves backwards or that is read at other moments.
- `Poller.AwaitStatus` samples the state after each refresher line. The source polls every 50 ms until a 2-second timeout, so it may miss a state that a later line changes back; the model has no timeout and no polling interval, and answers from whatever lines it is given.
- Float scaling is left out: power and consumption stay as the raw integers, not divided by 10.0 and 100.0.
- `Frame.ApplyTelemetry`: does not model the `OverflowError` that the division by 10.0 or 100.0 raises for a raw value of 2^1024 - 2^970 or more, which needs a token of about 308 digits. In a scan that exception leaves the entry `{}` and registers nothing; the model writes the raw value.
- `Poller.RefreshedEntry`: does not model that `OverflowError` either. In the refresher it aborts the frame after the entry is created; the model writes power, state and consumption.
- `PyText.ParseInt`: does not model the limit of 4300 digits that Python 3.11 and later put on `int()` of decimal text, or the same limit on `str()` of a large number. There such a token raises `ValueError`; the model parses it.
- `Commands.Turn`: the registry it returns is the one right after the state is set. Lines the refresher handles during the 0.5-second sleep and the status wait are not applied to it; `Commands.StatusRequest` models that wait on its own.
- `notify_new_data` is left out: it schedules Home Assistant registry updates. A host being attached is a boolean, and a notification is the id it would be sent for.
- `_re_devices` is never used by the code and is left out.
- Python's `int()` and the regex `\d` accept non-ASCII Unicode digits; the model accepts only ASCII digits.
- A float or boolean channel in `_known_devices` is not modelled; a channel is text or an integer.
- Device-file discovery (`serial_helper.py`), the Home Assistant flows and entities (`config_flow.py`, `options_flow.py`, `sensor.py`, `switch.py`, `__init__.py`) and the older copy's `status_request` are not part of this model.
- The `170/170` power test exists only in `start_scan` (`custom_components/pca301/pypca.py:229`). Neither copy's `_refresh` checks it, and the model follows the code: see `Poller.SentinelNotFiltered`.
