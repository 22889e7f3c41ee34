# hexagon_lamp — a verified model of the device link, the motor schedule and the editor state

hexagon_lamp drives a lamp made of motorised hexagons:

- **device_commander** (Go) keeps one serial link per motor controller. It:
  - opens the ports with retries;
  - exchanges handshakes;
  - classifies what the devices send into acknowledgements, heartbeats and text;
  - reconnects a link that breaks;
  - sends operator and pattern commands;
  - schedules a motion pattern segment by segment;
  - maps a 54-LED panel onto an 11×12 grid.
- **device_helpers** (Go) holds three older variants of the same link code:
  - a tool with a bounded update queue, in `main.go` and `serial.go`;
  - a debugging tool with a different handshake, in `tui-debug.go`;
  - a device-discovery join, in `devices.go`.
- **simplefoc_tuning** (C++) has a polled button classifier: single, double and long press.
- **pattern_editor** (JavaScript) edits the motor tracks and previews them with a frame-by-frame animation.

This project models that core in Dafny and proves what the code promises.

## How the model is built

**Serial driver as a script.** The driver is replaced by an `Env` (module `Link`), a script of outcomes that every operation consumes from its front. It holds:

- the outcome of each port open;
- whether each write succeeds;
- each read: a chunk of text, a failed read, or (once the script is empty) a timeout.

**Loops.** Each loop of the Go code is a `method` with a `while` or `for` loop. Its `ensures` ties what it returns, and the state it leaves, to a recursive function over the script. Lemmas about those functions state the promises:

- bounded retries;
- the first marker wins;
- only the matching slot is replaced;
- what reaches a connection's `Output`.

**Connections and arrays.**

- A connection (`SerialConnection`) is a class whose `port` and `output` fields are updated in place.
- The connection registry is an `array<SerialConnection>`. A Go slice passed by value can have its slots reassigned but cannot grow.
- The LED buffer of the panel and the animation counters are arrays updated in place.
- The button handler is a class whose fields `checkButton` updates.

**Text.** A Go string is a byte sequence; the model holds text as a sequence of characters. On well-formed UTF-8 the two agree for every operation here except cutting a string by a byte count, which only the console's Backspace does. The console's three command lines are therefore held one byte per character: typing appends the rune's UTF-8 bytes (`GoStrings.Utf8`), and Backspace removes one byte.

**Pure code.** The line filters, the device-discovery parsing and the editor's track edits are pure, so they are functions.

Modules, one per file:

| module | file | models |
|---|---|---|
| `Wrappers` | wrappers.dfy | `Option` |
| `GoStrings` | gostrings.dfy | `strings.Split`, `Join`, `Contains`, `HasPrefix`, `TrimSpace`, and `string(r)` (a rune as its UTF-8 bytes) |
| `Link` | link.dfy | the shared link: script, connection class, wait, open, handshake and periodic-handshake loops, registry lookup and slot replacement |
| `Comms` | comms.dfy | device_commander/comms/serial.go and commands.go |
| `Scheduler` | scheduler.dfy | device_commander/motors/scheduler.go |
| `Console` | console.dfy | device_commander/main.go: output trimming, filtering, statuses, key handling |
| `Helpers` | helpers.dfy | device_helpers/main.go and device_helpers/serial.go |
| `TuiDebug` | tuidebug.dfy | device_helpers/tui-debug.go |
| `Devices` | devices.dfy | device_helpers/devices.go |
| `Button` | button.dfy | simplefoc_tuning/ButtonHandler.cpp and ButtonHandler.h |
| `Lights` | lights.dfy | device_commander/lights/animations.go |
| `PatternEditor` | editor.dfy | pattern_editor/src/MotorPatternEditor.js |
| `MotorAnimation` | animation.dfy | pattern_editor/src/MotorAnimation.js |

These behaviours are modelled as the code has them, not as its comments suggest:

- The commander's `OpenSerialPort` performs no handshake, because the call is commented out.
- The commander's reader reports a heartbeat as `"HB\n"`, while `processDeviceUpdate` looks for `"HEARTBEAT"`. So a heartbeat never updates `LastHeartbeat`, and `"HB"` lines stay in the output.
- Reconnection never adds a registry entry.
- `ScheduleMotorMovements` succeeds for any non-nil pattern; the motor ID is checked once per segment.
- The button reports `LONG_PRESS` while the button is still held. The next poll while it is still down counts as a new press, so releasing it then reports `SINGLE_PRESS`. `Button.LongHoldThenSingle` states this sequence.
- tui-debug's `sendCommandWithRetry` always writes `retries` times, even after a write succeeds.

## Model

| member | source | states |
|---|---|---|
| Link.SerialConnection.constructor | device_commander/comms/serial.go:45-50 | a connection holds exactly the port, device ID, output and port name it is given |
| Link.SerialConnection.CopyFrom | device_commander/comms/serial.go:235 | `*conn = *newConn`: all four fields of the other connection are copied |
| Link.FirstMatch | device_commander/comms/serial.go:162-166 | the marker found is the first one, in list order, that the chunk contains; none found means the chunk contains no marker |
| Link.FindMarker | device_commander/comms/serial.go:162-166 | the marker loop returns exactly `FirstMatch` |
| Link.Wait | device_commander/comms/serial.go:136-170 | a wait consumes only reads (opens and writes untouched), never more than the script has, and a match is one of the expected markers |
| Link.WaitSuffix | device_commander/comms/serial.go:144-168 | what a wait leaves is a suffix of the reads: it consumes from the front only |
| Link.WaitReceives | device_commander/comms/serial.go:159-160 | everything received by a wait is the concatenation of the chunks it consumed, in order |
| Link.WaitEnds | device_commander/comms/serial.go:144-169 | every consumed read but the last is a chunk with no marker; the wait matches iff the last consumed chunk has a marker (and returns the first one in list order), and fails iff the last read failed |
| Link.WaitMatchIsReceived | device_commander/comms/serial.go:160-164 | a returned marker is contained in what the wait appended to `Output` |
| Link.WaitForAnyResponse | device_commander/comms/serial.go:136-170 | the loop returns the wait's result and remaining script and appends exactly the received text to `Output` |
| Link.RetryOpenBounds | device_commander/comms/serial.go:63-75 | at most `limit` open attempts, at least one when a port opened, and exactly `limit` when none did |
| Link.RetryOpenFirst | device_commander/comms/serial.go:63-72 | the port returned is the first successful open, and every earlier attempt failed |
| Link.RetryOpenSucceeds | device_commander/comms/serial.go:63-75 | opening succeeds iff one of the first `limit` opens in the script succeeds |
| Link.RetryOpenRest | device_commander/comms/serial.go:63-72 | opening consumes exactly as many open outcomes as it made attempts, and nothing else |
| Link.RetryOpenExhausted | device_commander/comms/serial.go:73-75 | with no open outcome left in the script, opening fails and leaves the script untouched |
| Link.RetryOpen | device_commander/comms/serial.go:63-75 | the counted retry loop computes exactly the retry specification |
| Link.HandshakeBounds | device_commander/comms/serial.go:101-119 | at most `tries` handshake attempts; success means a reply contained an expected marker; failure means every attempt was used |
| Link.HandshakeStops | device_commander/comms/serial.go:111-113 | a handshake stops at its first success: more allowed tries change nothing |
| Link.TryHandshake | device_commander/comms/serial.go:104-114 | one attempt: a failed write is a failed attempt; otherwise one wait, whose text is appended to `Output` |
| Link.PerformHandshake | device_commander/comms/serial.go:101-119 | the handshake loop computes the handshake specification and appends what it received to `Output` |
| Link.PeriodicStops | device_commander/comms/serial.go:126-133 | the periodic handshake runs one handshake per tick until the first failure, then exits and requests one reconnection; more ticks change nothing once it has exited |
| Link.PeriodicHandshake | device_commander/comms/serial.go:121-134 | the ticker loop computes the periodic specification |
| Link.Ids | device_commander/comms/serial.go:227-228 | the device IDs of the registry, slot by slot |
| Link.IndexOf | device_commander/main.go:658-665 | the first index holding the ID, or -1 exactly when the ID is absent |
| Link.FindDevice | device_commander/main.go:658-665 | the registry loop returns `IndexOf` of the registry's IDs |
| Link.HandshakeKeepsOpens | device_commander/comms/serial.go:101-119 | a handshake never opens a port |
| Link.ReplaceSlot | device_commander/comms/serial.go:225-233 | only the first slot whose device ID matches is replaced; with no match the registry is unchanged and nothing is added |
| Link.Install | device_commander/comms/serial.go:224-236 | the new connection takes the old ID, replaces the first matching slot, and its port, output and name are copied into the original connection, which keeps its ID |
| Comms.OpenSerialPort | device_commander/comms/serial.go:52-99 | up to 5 open attempts; on success a fresh connection with the given port name, empty ID and empty `Output`; error only after 5 failures; no handshake traffic |
| Comms.OpenWithoutHandshake | device_commander/comms/serial.go:63-98 | opening makes at most 5 attempts, fails only when all 5 failed, returns the first opened port, and consumes no write and no read |
| Comms.PerformHandshake | device_commander/comms/serial.go:101-119 | the commander's handshake: 5 tries of "H\n" accepting "K" or "HB" |
| Comms.HandshakeFiveTries | device_commander/comms/serial.go:101-119 | at most 5 attempts; failure only after all 5; success means "K" or "HB" was received; it stops at the first success |
| Comms.PeriodicHandshake | device_commander/comms/serial.go:121-134 | the commander's periodic handshake with its 5-try handshake |
| Comms.MarkerEvents | device_commander/comms/serial.go:192-197 | a chunk's events are only "ACK\n" and "HB\n", at most one per line |
| Comms.MarkerEventsOne | device_commander/comms/serial.go:192-200 | one line raises "ACK\n" exactly when it trims to "K", "HB\n" exactly when it trims to "HB", and nothing otherwise; it is kept exactly when it is a payload line |
| Comms.MarkerEventsConcat | device_commander/comms/serial.go:190-197 | the events of a concatenation of lines are the events of the first part followed by those of the second, so with MarkerEventsOne they are the per-line events in line order |
| Comms.Kept | device_commander/comms/serial.go:192-200 | the kept lines are lines of the chunk that are neither "K", "HB" nor blank once trimmed |
| Comms.KeptIff | device_commander/comms/serial.go:192-200 | a line is kept if and only if it is one of the chunk's lines and a payload line (not "K", "HB" or blank once trimmed) |
| Comms.KeptConcat | device_commander/comms/serial.go:190-200 | the kept lines of a concatenation are those of the first part followed by those of the second, so with MarkerEventsOne they are the payload lines, untrimmed, in line order |
| Comms.KeptWithoutNewline | device_commander/comms/serial.go:190-200 | no kept line contains a newline |
| Comms.ChunkTextWhenKept | device_commander/comms/serial.go:203-204 | a chunk adds text to `Output` iff some line was kept |
| Comms.ChunkTextLines | device_commander/comms/serial.go:203-206 | the appended text splits back into exactly the kept lines plus a final empty piece, so it holds no marker or blank line |
| Comms.ClassifyLines | device_commander/comms/serial.go:190-201 | the line loop returns exactly the marker events and the kept lines |
| Comms.HandleChunk | device_commander/comms/serial.go:186-210 | one chunk's events (markers, then the payload event) and `Output` grown by exactly the joined kept lines plus "\n" |
| Comms.ReaderStopsOnError | device_commander/comms/serial.go:176-184 | the reader requests a reconnection iff a read fails, and it stops at the first failure; otherwise it drains the script |
| Comms.ReadTextLines | device_commander/comms/serial.go:203-206 | appending one read's text keeps every line of `Output`'s new text a payload line |
| Comms.ReaderAppendsPayload | device_commander/comms/serial.go:190-210 | everything the reader appends to `Output` consists of payload lines only: no "K", "HB" or blank line |
| Comms.ReadSerialOutput | device_commander/comms/serial.go:172-213 | the reader loop computes the reader specification: events, reconnection request, remaining script and `Output` growth |
| Comms.RetryOpenKeepsFirst | device_commander/comms/serial.go:221-239 | a failed round of opening does not skip past a port that could still open |
| Comms.ReconnectFirst | device_commander/comms/serial.go:221-239 | reconnection ends with the first port in the script that opens |
| Comms.FirstOpenedAt | device_commander/comms/serial.go:221-239 | the first port that opens, given the failures before it |
| Comms.AttemptReconnection | device_commander/comms/serial.go:215-240 | reconnection keeps the connection's ID and name; on success the new port with empty `Output`, installed in the first matching slot only; on failure nothing changes |
| Comms.Reopen | device_commander/comms/serial.go:221-224 | the reconnection loop returns a fresh connection for the first port that opens |
| Comms.RetryWriteTrace | device_commander/comms/commands.go:20-32 | at most 3 writes of command+"\n", at least one; every write before the last failed; it stops at the first success; exhausting the tries raises no error |
| Comms.SendWithRetry | device_commander/comms/commands.go:20-32 | the retry loop computes the write-retry specification |
| Comms.Ports | device_commander/comms/commands.go:15 | the registry's ports, slot by slot |
| Comms.Broadcast | device_commander/comms/commands.go:10-18 | one retry group per connection |
| Comms.BroadcastTrace | device_commander/comms/commands.go:15-17 | each connection gets between 1 and 3 writes, all of the command to its own port, in slice order |
| Comms.BroadcastGroupAt | device_commander/comms/commands.go:15-17 | connection k's writes are a retry run on what the earlier connections left of the script |
| Comms.SendCommandToAll | device_commander/comms/commands.go:10-18 | the slice loop writes exactly the broadcast groups, in order; an empty registry writes nothing |
| Comms.SendCommand | device_commander/comms/commands.go:34-79 | requires an index in range; the target's `Output` is cleared, then holds the immediate response or stays empty; its port, ID and name are unchanged |
| Scheduler.DigitChar | device_commander/motors/scheduler.go:53 | a decimal digit character reads back as its value |
| Scheduler.NatDigits | device_commander/motors/scheduler.go:53 | a whole number prints as a non-empty run of decimal digits with no leading zero, and as "0" exactly when it is zero |
| Scheduler.DigitsRoundTrip | device_commander/motors/scheduler.go:53 | the digits read back as the number |
| Scheduler.FormatSpeed | device_commander/motors/scheduler.go:53 | "%.2f" of a speed in hundredths has two digits after the point and a sign exactly when negative |
| Scheduler.MagnitudeRoundTrip | device_commander/motors/scheduler.go:53 | digits, point, two digits read back as the magnitude in hundredths |
| Scheduler.SpeedRoundTrip | device_commander/motors/scheduler.go:53 | the formatted speed reads back as the same speed: "%.2f" loses nothing on hundredths |
| Scheduler.MoveMotor | device_commander/motors/scheduler.go:52-62 | an out-of-range motor ID is an error with nothing sent; otherwise exactly one "M<speed>" command goes to connection `motorId` |
| Scheduler.StartTimes | device_commander/motors/scheduler.go:30-45 | one start time per segment |
| Scheduler.StartTimesFromOrigin | device_commander/motors/scheduler.go:30-45 | segment k starts at the start time plus the durations of the segments before it, all from one origin |
| Scheduler.StartTimesSpacing | device_commander/motors/scheduler.go:33-45 | consecutive starts are exactly the earlier segment's duration apart: no drift |
| Scheduler.Commands | device_commander/motors/scheduler.go:31-39 | one command per segment |
| Scheduler.CommandsAt | device_commander/motors/scheduler.go:39 | segment k's command is "M" with that segment's speed |
| Scheduler.Sends | device_commander/motors/scheduler.go:31-46 | one send per segment |
| Scheduler.SendsOnePerSegment | device_commander/motors/scheduler.go:31-46 | each segment causes between 1 and 3 writes, and a response is recorded iff there was a segment |
| Scheduler.SendsGroupAt | device_commander/motors/scheduler.go:31-46 | segment k's writes are one `SendCommand` on what the earlier segments left of the script |
| Scheduler.SendsInOrder | device_commander/motors/scheduler.go:31-46 | every write for segment k carries segment k's command, to the motor's port |
| Scheduler.MoveSegment | device_commander/motors/scheduler.go:39-42 | one segment's `MoveMotor`; an invalid motor ID fails without stopping anything |
| Scheduler.RunSegments | device_commander/motors/scheduler.go:29-47 | the segment loop: start times from one origin; with an invalid motor every segment fails and nothing is sent; otherwise the writes are the per-segment sends in order |
| Scheduler.ScheduleMotorMovements | device_commander/motors/scheduler.go:22-50 | an error exactly for a nil pattern, which schedules nothing; any other pattern succeeds even with an out-of-range motor ID |
| Console.LastLines | device_commander/main.go:354-357 | the last lines of the output: exactly 100 when there were more, and all of them when there were no more than 100 |
| Console.LimitOutputBufferKeepsTail | device_commander/main.go:351-359 | the trimmed output is a suffix of the input with at most 100 lines, those lines are the input's last ones, and input of at most 100 lines is returned unchanged |
| Console.LimitOutputBufferIdempotent | device_commander/main.go:351-359 | trimming twice is trimming once |
| Console.FilterLines | device_commander/main.go:424-431 | the filter never adds lines |
| Console.FilterLinesConcat | device_commander/main.go:426-431 | filtering distributes over concatenation |
| Console.FilterLinesOne | device_commander/main.go:427-430 | a single line is dropped iff it is a status line |
| Console.FilterLinesKeepsOthers | device_commander/main.go:423-433 | a line survives iff it was in the input and is not "ACK" or "HEARTBEAT" once trimmed |
| Console.FilterLinesIdempotent | device_commander/main.go:423-433 | filtering twice is filtering once |
| Console.SerialAfterFindsFirst | device_commander/main.go:633-641 | the result is the trimmed line after the first "SERIAL_NO:" line that has a successor, or "" when there is none |
| Console.StatusUpdatedEffect | device_commander/main.go:510-527 | an unseen device gets a fresh status; the ACK time is set iff isACK and the heartbeat time iff isHeartbeat; no entry is removed and other devices are untouched |
| Console.HeartbeatEventIgnored | device_commander/main.go:404-409 | the reader's "HB\n" event never updates any status |
| Console.HeartbeatEventShown | device_commander/main.go:411-415 | the "HB\n" event survives the filter and is appended to the output |
| Console.AckEventNoted | device_commander/main.go:404-406 | the "ACK\n" event sets the device's ACK time and leaves its heartbeat time alone |
| Console.AckEventHidden | device_commander/main.go:411-416 | the "ACK\n" event leaves the output unchanged |
| Console.HeartbeatEventFiltered | device_commander/main.go:423-433 | example: `filterAckHeartbeat` keeps the reader's heartbeat event "HB\n" (the general rule is FilterOneLine) |
| Console.AckEventFiltered | device_commander/main.go:423-433 | example: `filterAckHeartbeat` removes the reader's acknowledgement event "ACK\n" entirely (the general rule is FilterOneLine) |
| Console.AckIsStatusLine | device_commander/main.go:428 | example: "ACK" is a status line |
| Console.HbNotStatusLine | device_commander/main.go:428 | example: "HB" is not a status line |
| Console.MarkersDiffer | device_commander/comms/serial.go:197 | example: the reader's heartbeat marker "HB" is neither "ACK" nor "HEARTBEAT", so the console's filter does not recognise it |
| Console.FilterOneLine | device_commander/main.go:423-433 | for every line without a newline: that line plus a newline is removed entirely if it is a status line and kept whole otherwise |
| Console.BuffersEdits | device_commander/main.go:196-228 | typing appends the rune's UTF-8 bytes to exactly the selected buffer; Backspace removes the last byte of the selected buffer only when it is non-empty; so Backspace undoes typing exactly when the rune is ASCII, and after a multi-byte rune it leaves the rune's leading bytes behind |
| Console.AccentThenBackspace | device_commander/main.go:198-227 | typing 'é' and then Backspace leaves the stray byte 0xC3 in the line, which is then not the line it was before |
| Console.CursorMoves | device_commander/main.go:210-217 | Tab and Backtab keep the cursor within [0, len+2), and each undoes the other |
| Console.Console.constructor | device_commander/main.go:100-103 | the console starts on the first connection with empty buffers (the zero values of the globals at main.go:30-40), and every configured device has a zero status, never acknowledged and with no heartbeat |
| Console.Console.Tab | device_commander/main.go:210-215 | Tab moves forward, Shift+Tab back, over len+2 positions |
| Console.Console.Backtab | device_commander/main.go:216-217 | Backtab moves back over len+2 positions |
| Console.Console.Backspace | device_commander/main.go:196-209 | erases the last byte of the buffer the cursor selects, when it has one |
| Console.Console.TypeRune | device_commander/main.go:218-228 | Alt+q or Meta+q quits with the buffers unchanged; any other rune's UTF-8 bytes are appended to the selected buffer |
| Console.Console.Enter | device_commander/main.go:181-195 | on a connection: one `SendCommand` of the input buffer; on the broadcast or Bluetooth entry: one `SendCommandToAll` of that buffer, playing the pattern when the broadcast buffer is "PAT"; the buffer used is cleared |
| Console.Console.UpdateDeviceStatus | device_commander/main.go:510-527 | the status map becomes `StatusUpdated` |
| Console.Console.ProcessDeviceUpdate | device_commander/main.go:401-420 | only the first connection with the update's ID is affected: its statuses are noted and its output grows by the filtered text, trimmed; with no match nothing changes |
| Console.Console.NoteStatuses | device_commander/main.go:404-409 | "ACK" in the text sets the ACK time; "HEARTBEAT" sets the heartbeat time |
| Console.NoteOutput | device_commander/main.go:411-416 | the output becomes the trimmed output plus filtered text, and only when the filtered text is not empty |
| Helpers.OpenNeedsHandshake | device_helpers/serial.go:30-78 | at most 3 open attempts; a connection is returned only after a handshake that received "ACK" or "HEARTBEAT"; a failed handshake is an error |
| Helpers.OpenConsumes | device_helpers/serial.go:30-78 | every open call uses up at least one open outcome |
| Helpers.OpenSerialPort | device_helpers/main.go:192-240 | returns a fresh connection exactly when the open and its handshake succeed, holding the handshake's text as output |
| Helpers.PerformHandshake | device_helpers/main.go:242-259 | the 3-try handshake accepting "ACK" or "HEARTBEAT" |
| Helpers.HandshakeThreeTries | device_helpers/serial.go:80-97 | at most 3 attempts; failure only after all 3; success means "ACK" or "HEARTBEAT" was received |
| Helpers.PeriodicHandshake | device_helpers/main.go:261-273 | the periodic handshake with the 3-try handshake |
| Helpers.PeriodicExitsOnFailure | device_helpers/serial.go:99-111 | the periodic handshake exits after its first failed handshake, having requested one reconnection, and not before |
| Helpers.UpdateChannel.constructor | device_helpers/main.go:41 | the update queue starts empty with the given capacity (100) |
| Helpers.UpdateChannel.TrySend | device_helpers/main.go:326-331 | a non-blocking send succeeds iff the queue is below capacity; a full queue is left unchanged |
| Helpers.UpdateChannel.Receive | device_helpers/main.go:523 | receiving takes the oldest update, first in first out |
| Helpers.Take | device_helpers/serial.go:163-169 | a prefix of the updates, of length n clamped to between 0 and the number of updates |
| Helpers.ReaderFillsQueue | device_helpers/serial.go:138-172 | the queue ends as the old queue plus the reader's updates that fit, in order; it never exceeds capacity; the rest are counted as dropped |
| Helpers.ReaderReconnects | device_helpers/serial.go:141-154 | the reader requests a reconnection iff its port is nil or a read fails; otherwise it drains the script |
| Helpers.ReadSerialOutput | device_helpers/main.go:300-334 | the reader loop computes the reader specification: final queue, drop count, reconnection request |
| Helpers.ReconnectUntilOpened | device_helpers/serial.go:174-195 | reconnection retries until an open with handshake succeeds, and gives up only when no open is left |
| Helpers.OpenExhausted | device_helpers/serial.go:30-78 | with no open outcome left, opening fails and consumes nothing |
| Helpers.AttemptReconnection | device_helpers/main.go:336-357 | keeps the connection's ID and name, installs the new connection in the first matching slot only, and the registry length never changes |
| Helpers.Reopen | device_helpers/main.go:337-355 | the reconnection loop keeps calling `openSerialPort` on the same port name and returns a fresh connection for the first port that opens, with the handshake's text as its output |
| Helpers.SendCommandToAll | device_helpers/main.go:387-398 | exactly one write per connection, in slice order, with no retry; tui-debug.go:216-227 is the same loop and is modelled by this member |
| Helpers.ApplyUpdate | device_helpers/main.go:526-531 | only the first connection with the update's ID changes, and its output becomes the trimmed output plus the update's text |
| Helpers.ScreenUpdateStep | device_helpers/main.go:520-532 | one update is taken from the queue and applied to the first matching connection; with an empty queue nothing changes |
| Helpers.CursorStaysOnEntries | device_helpers/main.go:169-176 | Tab and Backtab keep the cursor within [0, len+1) and undo each other |
| Helpers.Selection.constructor | device_helpers/main.go:169-176 | the cursor starts at 0 |
| Helpers.Selection.Tab | device_helpers/main.go:169-174 | Tab moves forward, Shift+Tab back, over len+1 positions (also tui-debug.go:166-171) |
| Helpers.Selection.Backtab | device_helpers/main.go:175-176 | Backtab moves back over len+1 positions |
| TuiDebug.FirstPrefixed | device_helpers/tui-debug.go:392-396 | the first expected reply, in list order, that the whole output is a prefix of |
| TuiDebug.Await | device_helpers/tui-debug.go:368-401 | a wait keeps the port, opens and writes, and a reply is one of the expected ones, given only while holding a port |
| TuiDebug.WaitMatchesAccumulated | device_helpers/tui-debug.go:368-401 | a nil port fails at once; the output only grows; a reply is the first expected one that the accumulated output contains or, failing that, starts |
| TuiDebug.StaleAcknowledgement | device_helpers/tui-debug.go:386-389 | an "ACK_HANDSHAKE" already in the output is accepted again on the next chunk |
| TuiDebug.PartialReplyAccepted | device_helpers/tui-debug.go:392-396 | example: a first chunk "ACK" is taken as "ACK_HANDSHAKE" (the general rule is FirstPrefixed) |
| TuiDebug.FindPrefixed | device_helpers/tui-debug.go:392-396 | the prefix loop returns `FirstPrefixed` |
| TuiDebug.WaitForAnyResponse | device_helpers/tui-debug.go:368-401 | the wait loop computes the wait specification on the connection's output |
| TuiDebug.Establish | device_helpers/tui-debug.go:335-366 | establishing keeps the port and the opens |
| TuiDebug.EstablishWaits | device_helpers/tui-debug.go:344-363 | the waits of `establishConnection` keep the port and the opens |
| TuiDebug.EstablishAccepts | device_helpers/tui-debug.go:344-365 | it succeeds iff one of the 3 waits gets "ACK_HANDSHAKE" or "HEARTBEAT" after only waits that got nothing or "WAITING_FOR_CONNECTION" |
| TuiDebug.EstablishConnection | device_helpers/tui-debug.go:335-366 | the loop computes the establish specification |
| TuiDebug.Reconnected | device_helpers/tui-debug.go:187-214 | `reconnect` uses exactly one open outcome |
| TuiDebug.ReconnectDropsPort | device_helpers/tui-debug.go:190-213 | the old port is dropped before reopening: a failed reopen leaves the port nil; a successful one holds the new port; success implies a port |
| TuiDebug.Reconnect | device_helpers/tui-debug.go:187-214 | the method computes the reconnect specification |
| TuiDebug.AttemptHoldsPort | device_helpers/tui-debug.go:297-328 | an attempt that connects holds a port |
| TuiDebug.Open | device_helpers/tui-debug.go:266-333 | `openSerialPort` with the final Close guarded never closes a nil port, and connects only while holding a port |
| TuiDebug.GuardOnlyAffectsClose | device_helpers/tui-debug.go:297-332 | guarding the final Close changes nothing but that Close: where the code as written would close nil, the guarded one returns the error |
| TuiDebug.OpenGuard | device_helpers/tui-debug.go:266-333 | the same comparison for the whole of `openSerialPort` |
| TuiDebug.NilCloseReachable | device_helpers/tui-debug.go:310-331 | the script in "## Findings" drives `openSerialPort` as written to Close a nil port |
| TuiDebug.OpenSerialPort | device_helpers/tui-debug.go:266-333 | returns a fresh connection with the given name and empty ID exactly when the guarded open connects; otherwise an error |
| TuiDebug.Attempt | device_helpers/tui-debug.go:298-328 | one attempt of `openSerialPort` computes `AttemptOnce` |
| TuiDebug.ReaderSkipsWaiting | device_helpers/tui-debug.go:403-441 | every chunk shown is non-empty and free of "WAITING_FOR_CONNECTION"; the reader runs until the script is drained or the port is lost with no open left |
| TuiDebug.ReaderChunk | device_helpers/tui-debug.go:427-437 | a chunk containing "WAITING_FOR_CONNECTION" marks the port nil and is not appended; any other chunk is appended to `Output` |
| TuiDebug.ReadSerialOutput | device_helpers/tui-debug.go:403-441 | the reader loop on connection `index` computes the reader specification and keeps the connection's ID and name |
| TuiDebug.SendCommandWithRetry | device_helpers/tui-debug.go:477-490 | exactly `retries` writes of command+"\n", even after a success, each using one write outcome |
| Devices.AssignLastWins | device_helpers/devices.go:50-52 | the keys are exactly the keys assigned, and each holds the value of its last assignment |
| Devices.ParseDeviceMappingsLastWins | device_helpers/devices.go:45-54 | serial maps to device ID for every mapping, and a later duplicate serial overwrites an earlier one |
| Devices.TtyKeepsTwoPartLines | device_helpers/devices.go:67-73 | a pair is kept iff some line splits on ":" into exactly those two parts |
| Devices.ScanRecords | device_helpers/devices.go:87-108 | no emitted record is empty, and every record holds only "iSerial" and, for STM32 products, "iProduct" |
| Devices.ScanSplitsAtBus | device_helpers/devices.go:88-93 | a "Bus " line closes the current record and starts a new one |
| Devices.GetUsbDevices | device_helpers/devices.go:77-109 | the line loop computes the record scan, and every record is non-empty and well formed |
| Devices.CombineInfoMembers | device_helpers/devices.go:111-129 | an entry appears iff some USB device has an "iSerial" that is a key of both maps, with the device ID and port looked up by that serial |
| Devices.CombineInfoAppend | device_helpers/devices.go:114-126 | devices are joined one at a time, in USB order |
| Devices.CombineInfoBound | device_helpers/devices.go:114-126 | at most one entry per USB device |
| Button.ElapsedWraps | simplefoc_tuning/ButtonHandler.cpp:21 | elapsed time is the unsigned 32-bit difference, wrapping modulo 2^32 |
| Button.ElapsedAcrossRollover | simplefoc_tuning/ButtonHandler.cpp:30 | across a timer rollover the difference is still the true elapsed time |
| Button.CheckKeepsInv | simplefoc_tuning/ButtonHandler.cpp:16-43 | pressCount stays 0 or 1, and 1 only while the button is pressed |
| Button.PressEdge | simplefoc_tuning/ButtonHandler.cpp:16-27 | a press sets wasPressed and both times to now; it is DOUBLE_PRESS iff it came within the double-click interval of the last press (count back to 0), otherwise NONE with count 1 |
| Button.Release | simplefoc_tuning/ButtonHandler.cpp:28-36 | a release clears the press; LONG_PRESS iff held for at least the long interval, else SINGLE_PRESS iff the count was 1; never DOUBLE_PRESS |
| Button.Held | simplefoc_tuning/ButtonHandler.cpp:37-43 | while held, LONG_PRESS fires once the long interval has passed and clears the press; before that, NONE and nothing changes |
| Button.Idle | simplefoc_tuning/ButtonHandler.cpp:11-45 | idle and released: NONE and nothing changes |
| Button.FirstPressNearBoot | simplefoc_tuning/ButtonHandler.cpp:7 | since lastPressTime starts at 0, a first press within the double-click interval of boot is a DOUBLE_PRESS |
| Button.Run | simplefoc_tuning/ButtonHandler.cpp:11-46 | one event per poll, and a run of polls from a state meeting the handler invariant ends in a state meeting it |
| Button.QuietHoldKeepsState | simplefoc_tuning/ButtonHandler.cpp:37-43 | polls while held that report nothing leave the state unchanged |
| Button.DoubleNeverSingle | simplefoc_tuning/ButtonHandler.cpp:21-34 | releasing after a DOUBLE_PRESS never yields SINGLE_PRESS |
| Button.LongHoldThenSingle | simplefoc_tuning/ButtonHandler.cpp:16-43 | holding past the long interval reports LONG_PRESS, the next poll still down starts a new press, and releasing then reports SINGLE_PRESS |
| Button.ButtonHandler.constructor | simplefoc_tuning/ButtonHandler.cpp:5-9 | pin and both intervals as given (const, ButtonHandler.h:21-23); times 0, not pressed, count 0 |
| Button.ButtonHandler.CheckButton | simplefoc_tuning/ButtonHandler.cpp:11-46 | one poll updates the fields and returns the event of the state machine, keeping its invariant |
| Lights.ToRgbaAddsWhite | device_commander/lights/animations.go:15-26 | each colour channel is the channel plus white, with no clamping, and alpha is 0xffff |
| Lights.AddWhiteSum | device_commander/lights/animations.go:21-23 | `(c*255 + w*255) / 255` is exactly c + w |
| Lights.Pack32RoundTrip | device_commander/lights/animations.go:161 | the W,R,G,B word unpacks to the same colour, and every word is such a packing |
| Lights.Pack24RoundTrip | device_commander/lights/animations.go:120 | the R,G,B word unpacks to the colour without white, and white does not affect it |
| Lights.Frame24 | device_commander/lights/animations.go:118-121 | one 24-bit word per LED, in order |
| Lights.Frame32 | device_commander/lights/animations.go:159-162 | one 32-bit word per LED, in order |
| Lights.Frame32RoundTrip | device_commander/lights/animations.go:159-162 | a 32-bit frame unpacks to exactly the LEDs |
| Lights.Lut | device_commander/lights/animations.go:34-55 | the flat table entry at p is the grid entry at column p mod 11, row p div 11 |
| Lights.CellsChecked | device_commander/lights/animations.go:34-55 | every LED 0..53 has a grid cell whose table entry names it |
| Lights.EntriesChecked | device_commander/lights/animations.go:34-55 | every one of the 132 entries is -1 or an LED whose cell is that entry's cell |
| Lights.CellInvertsLut | device_commander/lights/animations.go:34-55 | the table and the cell map are inverse: each non -1 entry is an LED 0..53 whose cell is that entry, and each LED's cell holds it |
| Lights.LutNamesEachLedOnce | device_commander/lights/animations.go:34-55 | every entry is -1 or a valid LED index, and no LED appears in two cells |
| Lights.CellAt | device_commander/lights/animations.go:34-55 | every `LUT` entry is -1 or an LED index below 54, and an LED sits at grid cell (x, y) exactly when it is the LED the table names there |
| Lights.ToLedRoundTrip | device_commander/lights/animations.go:136-142 | an opaque pixel widened from bytes is drawn back to the same bytes with white 255 |
| Lights.HexagonPanel.constructor | device_commander/lights/animations.go:70-75 | the panel has 54 LEDs, all off |
| Lights.HexagonPanel.DrawToPanel | device_commander/lights/animations.go:131-146 | every LED takes the high bytes of the pixel at its grid cell, which covers exactly the LEDs the table names |
| Lights.HexagonPanel.Frame | device_commander/lights/animations.go:118-121 | the frame loop returns the 24-bit packing of the LEDs |
| Lights.HexagonPanel.GrowWhite | device_commander/lights/animations.go:157-176 | frame i shows LEDs 0..i white and the others as they were; then all LEDs are off and the last frame is all zero |
| Lights.WhiteUpTo | device_commander/lights/animations.go:157-158 | a white prefix keeps the number of LEDs |
| Lights.GrowWhiteSteps | device_commander/lights/animations.go:157-176 | step i of the first animation differs from step i-1 only in LED i turning white, leaves LEDs after i as they were, and the closing all-off frame packs to zero words |
| Lights.NewHexagonPanel | device_commander/lights/animations.go:64-76 | a panel exactly when the driver is ready, with 54 LEDs all off, so every table entry indexes it |
| PatternEditor.InitialTracks | pattern_editor/src/MotorPatternEditor.js:7 | seven empty tracks |
| PatternEditor.UpdateTrack | pattern_editor/src/MotorPatternEditor.js:24-26 | same length and order; segments with the ID get the field set; the others are unchanged |
| PatternEditor.RemoveFrom | pattern_editor/src/MotorPatternEditor.js:34 | a segment survives iff it was there and has a different ID |
| PatternEditor.EditsTouchOnlySelected | pattern_editor/src/MotorPatternEditor.js:13-37 | every edit keeps the number of tracks and changes no other motor's track |
| PatternEditor.AddSegmentAppends | pattern_editor/src/MotorPatternEditor.js:13-19 | one segment {duration 1000, speed 50} is appended to the end of the selected track |
| PatternEditor.UpdateKeepsOthers | pattern_editor/src/MotorPatternEditor.js:21-29 | only the named field of the matching segments changes; IDs and the other field are kept |
| PatternEditor.UpdateTwice | pattern_editor/src/MotorPatternEditor.js:21-29 | a second update of the same field overrides the first |
| PatternEditor.RemoveSplits | pattern_editor/src/MotorPatternEditor.js:31-37 | removal keeps the remaining segments in order |
| PatternEditor.RemoveCounts | pattern_editor/src/MotorPatternEditor.js:31-37 | exactly the segments with the ID are removed, and with none the track is unchanged |
| PatternEditor.AddThenRemove | pattern_editor/src/MotorPatternEditor.js:13-37 | removing a segment just added, with a fresh ID, restores the tracks |
| PatternEditor.NoIdKept | pattern_editor/src/MotorPatternEditor.js:34 | a track without the ID is unchanged by removal |
| PatternEditor.Steps | pattern_editor/src/MotorPatternEditor.js:43-46 | one step per segment, in order |
| PatternEditor.FormatFrom | pattern_editor/src/MotorPatternEditor.js:41-47 | exactly the non-empty tracks, each once, with increasing motor IDs |
| PatternEditor.FormatPattern | pattern_editor/src/MotorPatternEditor.js:39-49 | a pattern for a motor iff its track is non-empty; motor IDs are the track indices, increasing; segment count and durations are preserved |
| PatternEditor.FormatAfterFirstAdd | pattern_editor/src/MotorPatternEditor.js:13-49 | example: no tracks give no patterns; one added segment gives one pattern with duration 1000 and speed 3.00 |
| PatternEditor.HandleMotorAssign | pattern_editor/src/MotorPatternEditor.js:63-73 | the motor maps to the selected motor iff it did not before; other keys are unchanged |
| PatternEditor.AssignTwice | pattern_editor/src/MotorPatternEditor.js:63-73 | assigning twice undoes the first toggle, except that a previous other assignment is removed |
| MotorAnimation.Step | pattern_editor/src/MotorAnimation.js:63-72 | a frame keeps the index within the track, and an empty track's counter is unchanged |
| MotorAnimation.Run | pattern_editor/src/MotorAnimation.js:59-72 | any number of frames keeps the index within the track |
| MotorAnimation.SegmentHeld | pattern_editor/src/MotorAnimation.js:67-72 | a segment is held for its duration rounded up to 16 ms frames, with the clock at 16 ms per frame, and then the next segment starts, wrapping at the end |
| MotorAnimation.StepKeepsClockBelow | pattern_editor/src/MotorAnimation.js:67-72 | with positive durations, the clock between frames stays below the current segment's duration |
| MotorAnimation.Start | pattern_editor/src/MotorAnimation.js:56-57 | every motor starts at segment 0 with its clock at 0 |
| MotorAnimation.Animate | pattern_editor/src/MotorAnimation.js:63-72 | each motor's counter advances by one frame step in place, and every index stays within its track |
| GoStrings.Split | device_commander/main.go:354 | `strings.Split` returns at least one piece |
| GoStrings.SplitPieces | device_commander/main.go:424 | no piece contains the separator |
| GoStrings.JoinSplit | device_commander/main.go:354-358 | joining the pieces gives back the string |
| GoStrings.SplitJoin | device_commander/comms/serial.go:203 | splitting a join of separator-free pieces gives back the pieces |
| GoStrings.ContainsAt | device_commander/comms/serial.go:163 | `strings.Contains` holds iff the text occurs at some position |
| GoStrings.TrimSpace | device_commander/comms/serial.go:193 | the result is no longer than the input and neither starts nor ends with white space |
| GoStrings.TrimSpaceIsSlice | device_commander/comms/serial.go:193 | the result is a slice of the input with only white space before and after it |
| GoStrings.TrimSpaceUnique | device_commander/comms/serial.go:193 | any slice with only white space around it that neither starts nor ends with white space is the trimmed text, so trimming removes all of the surrounding white space and nothing else |
| GoStrings.Utf8 | device_commander/main.go:223-227 | `string(r)` is one to four bytes; a single byte exactly for ASCII runes (the rune itself); otherwise a lead byte of at least 0xC0 and continuation bytes in 0x80-0xBF |
| GoStrings.Utf8RoundTrip | device_commander/main.go:223-227 | decoding the bytes of `string(r)` gives back the rune |

## Left out

- Serial drivers (go.bug.st/serial, tarm/serial): open, read, write, read timeouts and buffer resets are foreign I/O. The script `Env` supplies their outcomes. A read error and io.EOF are both a failed read, and a timeout is the end of the script.
- Port `Close` has no state in the model, because nothing can observe a closed port except through the driver. The one Close that matters, on a nil port, is in "## Findings".
- Goroutines, mutexes, channels, tickers, sleeps and random jitter. Each operation is one sequential run; `go AttemptReconnection(...)` is a returned reconnection request. The races that come from sharing the registry slice by value are out of scope.
- Clocks: `time.Now()` is a `now`/`start` parameter, in milliseconds. `millis()` on the button is a `u32` parameter.
- Reconnection loops that retry forever end in the model when the script has no open left. `Comms.AttemptReconnection` and `Helpers.AttemptReconnection` do not model the 30-second sleeps between rounds.
- TUI rendering (drawScreen, drawText, highlightText, tcell event decoding), logging, the Escape key and the exit paths.
- `Console.Console.Enter`: `playCurrentPattern` (HTTP pattern storage) is reported as the `play` flag, not run.
- HTTP server, CORS, JSON decoding of patterns and device mappings, `handleSerialNumbers`, the `getSerialNumbers` fan-out, `getHardcodedSerialNumber`: I/O and concurrency. `Devices.ParseDeviceMappings` starts from the decoded list.
- Shell-outs (lsof, kill, fuser, udevadm, lsusb). Their output is a string parameter. The lsusb `iSerial`/`iProduct` regular expressions are parameters `serialOf`/`productOf` (partial functions on a line).
- Bluetooth (comms/bt.go), the LED driver wrapper (lights/leds.go), MIDI printing (motors/midi_to_segment.go): foreign libraries.
- tui-debug's `keepAlive`, `sendInitialCommands`, `waitForResponse`, `sendCommand` and `attemptReconnection`, and device_helpers/main.go's `reconnect`. These are helpers outside the modelled core; main.go's `reconnect` is never called.
- Floating point:
  - **Speeds:** a speed is an integer number of hundredths. `Scheduler.FormatSpeed` renders "%.2f" exactly on hundredths; the rounding of arbitrary floats is not modelled.
  - **Editor steps:** the editor's `speed * 0.06` rounded by `toFixed(2)` is the exact integer `speed * 6` hundredths.
  - **Drawing:** canvas angles, hit-testing and the gg drawing and float size loops of `renderHexagonFrame` are not modelled.
- `Lights.HexagonPanel.DrawToPanel`: the drawing context is a function from grid cells to 16-bit pixels, so the gg image itself is not modelled. The second, hexagon-frame animation of `Run` is not modelled.
- `PatternEditor.UpdateSegment`: `parseInt(value)` is an integer parameter, so a NaN value is not modelled. `Date.now()` for new segment IDs is an `id` parameter.
- `PatternEditor.AddSegment`, `UpdateSegment`, `RemoveSegment`: require `selected` to name one of the seven tracks, which the editor's motor buttons guarantee.
- Bytes that are not well-formed UTF-8 in text from the devices: outside the console's command lines, text is held as characters, not bytes.
- pattern_editor/src/TrackVisualization.js, App.js, LightsPlaceholder.js and React rendering: UI only.

## Findings

| source | as written | input that shows it | evidently intended | confidence | as-written member | corrected member |
|---|---|---|---|---|---|---|
| device_helpers/tui-debug.go:310-331 | on "WAITING_FOR_CONNECTION", `reconnect` sets the port to nil; when the reopen fails, the loop continues, the remaining waits fail at once on the nil port, and `serialConn.Port.Close()` is called on nil | the port opens, the handshake write succeeds, the device sends "W", and the reopen fails | return the error without calling Close on a nil port | not executed | TuiDebug.OpenAsWritten, TuiDebug.NilCloseReachable | TuiDebug.Open, TuiDebug.GuardOnlyAffectsClose, TuiDebug.OpenSerialPort |
