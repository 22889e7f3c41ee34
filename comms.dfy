/**
  The device commander's link to its motor controllers (device_commander/comms):
  opening a port with bounded retries, the "H" / "K"-or-"HB" handshake, the reader
  that sorts each received chunk into acknowledgement events, heartbeat events and
  payload text, reconnection, and command dispatch with bounded write retries.
 */
module Comms {
  import opened Wrappers
  import opened GoStrings
  import opened Link

  /** Opens tried before `OpenSerialPort` gives up. */
  const OpenTries: nat := 5
  /** Handshake attempts before `PerformHandshake` gives up. */
  const HandshakeTries: nat := 5
  /** The replies that complete a handshake: an acknowledgement or a heartbeat. */
  const HandshakeMarkers: seq<string> := ["K", "HB"]
  /** Writes tried per connection before a command is given up. */
  const MaxRetries: nat := 3

  // ---------------------------------------------------------------------------
  // Opening a port

  /**
    `OpenSerialPort`: up to five opens; on success a fresh connection for the
    port with no device ID and no output. The handshake that used to follow is
    switched off, so nothing is written or read.
   */
  method OpenSerialPort(portName: string, env: Env) returns (conn: SerialConnection?, rest: Env)
    ensures var r := RetryOpenSpec(OpenTries, env);
            && (conn != null <==> r.port.Handle?)
            && rest == r.rest
            && (conn != null ==> fresh(conn) && conn.port == r.port && conn.deviceId == ""
                                 && conn.output == "" && conn.portName == portName)
  {
    var port, attempts;
    port, attempts, rest := RetryOpen(OpenTries, env);
    if port.NoPort? {
      return null, rest;
    }
    conn := new SerialConnection(port, "", "", portName);
  }

  /**
    Opening makes at most five attempts, stops at the first success, fails only
    after five failures, and exchanges nothing with the device: the rest of the
    script has every write and read still in it.
   */
  lemma OpenWithoutHandshake(env: Env)
    ensures var r := RetryOpenSpec(OpenTries, env);
            && r.attempts <= 5
            && (r.port.NoPort? ==> r.attempts == 5 && forall i :: 0 <= i < 5 ==> OpenAt(env, i) == OpenFailed)
            && (r.port.Handle? ==> OpenAt(env, r.attempts - 1) == Opened(r.port.id))
            && r.rest.writes == env.writes && r.rest.inbound == env.inbound
  {
    RetryOpenBounds(OpenTries, env);
    RetryOpenFirst(OpenTries, env);
    RetryOpenSucceeds(OpenTries, env);
    RetryOpenRest(OpenTries, env);
  }

  // ---------------------------------------------------------------------------
  // Handshakes

  /** `PerformHandshake`: up to five "H" writes, each followed by a wait for "K" or "HB". */
  method PerformHandshake(conn: SerialConnection, env: Env) returns (ok: bool, rest: Env)
    modifies conn`output
    ensures var h := Handshake(HandshakeTries, HandshakeMarkers, env);
            ok == h.ok && rest == h.rest && conn.output == old(conn.output) + h.received
  {
    ok, rest := Link.PerformHandshake(conn, HandshakeTries, HandshakeMarkers, env);
  }

  /**
    The commander's handshake makes at most five attempts, errors only after
    all five, and succeeds only once "K" or "HB" has been received; once it has
    succeeded, further attempts would change nothing.
   */
  lemma HandshakeFiveTries(env: Env, more: nat)
    ensures var h := Handshake(HandshakeTries, HandshakeMarkers, env);
            && h.attempts <= 5
            && (!h.ok ==> h.attempts == 5)
            && (h.ok ==> Contains(h.received, "K") || Contains(h.received, "HB"))
            && (h.ok ==> Handshake(HandshakeTries + more, HandshakeMarkers, env) == h)
  {
    HandshakeBounds(HandshakeTries, HandshakeMarkers, env);
    var h := Handshake(HandshakeTries, HandshakeMarkers, env);
    if h.ok {
      HandshakeStops(HandshakeTries, more, HandshakeMarkers, env);
    }
  }

  /** `PeriodicHandshake` over `ticks` timer ticks: `reconnect` says it started a reconnection and exited. */
  method PeriodicHandshake(conn: SerialConnection, ticks: nat, env: Env) returns (reconnect: bool, rest: Env)
    modifies conn`output
    ensures var p := Periodic(ticks, HandshakeTries, HandshakeMarkers, env);
            reconnect == p.reconnect && rest == p.rest && conn.output == old(conn.output) + p.received
  {
    reconnect, rest := Link.PeriodicHandshake(conn, ticks, HandshakeTries, HandshakeMarkers, env);
  }

  // ---------------------------------------------------------------------------
  // The reader's line classification

  datatype LineKind = AckLine | HeartbeatLine | BlankLine | PayloadLine

  /** What the reader makes of one line, judged on its trimmed text. */
  function Classify(line: string): LineKind
  {
    var t := TrimSpace(line);
    if t == "K" then AckLine
    else if t == "HB" then HeartbeatLine
    else if t == "" then BlankLine
    else PayloadLine
  }

  /** The event a line raises on its own: "ACK\n" for an acknowledgement, "HB\n" for a heartbeat. */
  function LineEvent(id: string, line: string): seq<ScreenUpdate>
  {
    match Classify(line)
    case AckLine => [ScreenUpdate(id, "ACK\n")]
    case HeartbeatLine => [ScreenUpdate(id, "HB\n")]
    case _ => []
  }

  /** The events the lines raise, in line order. */
  function MarkerEvents(id: string, lines: seq<string>): (events: seq<ScreenUpdate>)
    ensures |events| <= |lines|
    ensures forall e :: e in events ==> e == ScreenUpdate(id, "ACK\n") || e == ScreenUpdate(id, "HB\n")
    decreases |lines|
  {
    if lines == [] then []
    else MarkerEvents(id, lines[..|lines| - 1]) + LineEvent(id, lines[|lines| - 1])
  }

  /** The payload lines, untrimmed and in order. */
  function Kept(lines: seq<string>): (kept: seq<string>)
    ensures |kept| <= |lines|
    ensures forall l :: l in kept ==> l in lines && Classify(l) == PayloadLine
    decreases |lines|
  {
    if lines == [] then []
    else Kept(lines[..|lines| - 1]) + (if Classify(lines[|lines| - 1]) == PayloadLine then [lines[|lines| - 1]] else [])
  }

  /** A line is kept exactly when it is one of the lines and a payload line. */
  lemma {:induction false} KeptIff(lines: seq<string>)
    ensures forall l :: l in Kept(lines) <==> l in lines && Classify(l) == PayloadLine
    decreases |lines|
  {
    if lines != [] {
      var init := lines[..|lines| - 1];
      KeptIff(init);
      assert lines == init + [lines[|lines| - 1]];
    }
  }

  /** Keeping works line by line: the kept lines of a concatenation are those of each part, in order. */
  lemma {:induction false} KeptConcat(a: seq<string>, b: seq<string>)
    ensures Kept(a + b) == Kept(a) + Kept(b)
    decreases |b|
  {
    if b == [] {
      assert a + b == a;
    } else {
      var init, x := b[..|b| - 1], b[|b| - 1];
      assert b == init + [x];
      assert a + b == (a + init) + [x];
      KeptConcat(a, init);
      KeptConcatStep(a, init, x);
    }
  }

  /** The induction step of KeptConcat: one more line at the end of the second part. */
  lemma KeptConcatStep(a: seq<string>, init: seq<string>, x: string)
    requires Kept(a + init) == Kept(a) + Kept(init)
    ensures Kept((a + init) + [x]) == Kept(a) + Kept(init + [x])
  {
    KeptSnoc(a + init, x);
    KeptSnoc(init, x);
    AppendAssoc(Kept(a), Kept(init), if Classify(x) == PayloadLine then [x] else []);
  }

  /** One more line adds its own kept line, if any, at the end. */
  lemma KeptSnoc(lines: seq<string>, x: string)
    ensures Kept(lines + [x]) == Kept(lines) + (if Classify(x) == PayloadLine then [x] else [])
  {
    assert (lines + [x])[..|lines|] == lines;
  }

  /** Events are raised line by line: the events of a concatenation are those of each part, in order. */
  lemma {:induction false} MarkerEventsConcat(id: string, a: seq<string>, b: seq<string>)
    ensures MarkerEvents(id, a + b) == MarkerEvents(id, a) + MarkerEvents(id, b)
    decreases |b|
  {
    if b == [] {
      assert a + b == a;
    } else {
      var init, x := b[..|b| - 1], b[|b| - 1];
      assert b == init + [x];
      assert a + b == (a + init) + [x];
      MarkerEventsConcat(id, a, init);
      MarkerEventsConcatStep(id, a, init, x);
    }
  }

  /** The induction step of MarkerEventsConcat: one more line at the end of the second part. */
  lemma MarkerEventsConcatStep(id: string, a: seq<string>, init: seq<string>, x: string)
    requires MarkerEvents(id, a + init) == MarkerEvents(id, a) + MarkerEvents(id, init)
    ensures MarkerEvents(id, (a + init) + [x]) == MarkerEvents(id, a) + MarkerEvents(id, init + [x])
  {
    MarkerEventsSnoc(id, a + init, x);
    MarkerEventsSnoc(id, init, x);
    AppendAssoc(MarkerEvents(id, a), MarkerEvents(id, init), LineEvent(id, x));
  }

  /** Concatenation of sequences is associative. */
  lemma AppendAssoc<T>(p: seq<T>, q: seq<T>, r: seq<T>)
    ensures (p + q) + r == p + (q + r)
  {
  }

  /** One more line adds its own event, if any, at the end. */
  lemma MarkerEventsSnoc(id: string, lines: seq<string>, x: string)
    ensures MarkerEvents(id, lines + [x]) == MarkerEvents(id, lines) + LineEvent(id, x)
  {
    assert (lines + [x])[..|lines|] == lines;
  }

  /**
    A single line raises "ACK\n" when it trims to "K", "HB\n" when it trims to
    "HB", and nothing otherwise; it is kept exactly when it is a payload line.
   */
  lemma MarkerEventsOne(id: string, l: string)
    ensures MarkerEvents(id, [l]) == if TrimSpace(l) == "K" then [ScreenUpdate(id, "ACK\n")]
                                     else if TrimSpace(l) == "HB" then [ScreenUpdate(id, "HB\n")]
                                     else []
    ensures Kept([l]) == if Classify(l) == PayloadLine then [l] else []
  {
    assert [l][..0] == [];
  }

  /** The text a chunk adds to the connection's output: its payload lines, newline-terminated, or nothing. */
  function ChunkText(data: string): string
  {
    var filtered := Join(Kept(Split(data, '\n')), '\n');
    if filtered != "" then filtered + "\n" else ""
  }

  /** The events a chunk raises: its acknowledgement and heartbeat events, then one event carrying its payload text. */
  function ChunkEvents(id: string, data: string): seq<ScreenUpdate>
  {
    var lines := Split(data, '\n');
    MarkerEvents(id, lines) + (if ChunkText(data) != "" then [ScreenUpdate(id, ChunkText(data))] else [])
  }

  /** The payload lines of a chunk carry no newline. */
  lemma KeptWithoutNewline(data: string)
    ensures forall i :: 0 <= i < |Kept(Split(data, '\n'))| ==> '\n' !in Kept(Split(data, '\n'))[i]
  {
    var lines := Split(data, '\n');
    var kept := Kept(lines);
    SplitPieces(data, '\n');
    forall i | 0 <= i < |kept| ensures '\n' !in kept[i] {
      assert kept[i] in lines;
      var j :| 0 <= j < |lines| && lines[j] == kept[i];
    }
  }

  /** Payload lines are never empty, so a chunk adds text exactly when it has a payload line. */
  lemma {:induction false} ChunkTextWhenKept(data: string)
    ensures ChunkText(data) != "" <==> Kept(Split(data, '\n')) != []
  {
    var kept := Kept(Split(data, '\n'));
    if kept != [] {
      assert Classify(kept[0]) == PayloadLine;
      assert kept[0] != "";
      if |kept| == 1 {
        assert Join(kept, '\n') == kept[0];
      } else {
        assert Join(kept, '\n') == kept[0] + ['\n'] + Join(kept[1..], '\n');
      }
    }
  }

  /**
    What reaches the output from one chunk is exactly its payload lines: split
    back into lines it gives those lines, in order, followed by the empty piece
    after the final newline; acknowledgement, heartbeat and blank lines never
    reach it.
   */
  lemma ChunkTextLines(data: string)
    ensures var kept := Kept(Split(data, '\n'));
            kept != [] ==> Split(ChunkText(data), '\n') == kept + [""]
    ensures forall l :: l in Split(ChunkText(data), '\n') ==> l == "" || Classify(l) == PayloadLine
  {
    var kept := Kept(Split(data, '\n'));
    ChunkTextSplit(data);
    var pieces := Split(ChunkText(data), '\n');
    forall l | l in pieces ensures l == "" || Classify(l) == PayloadLine {
      if kept != [] && l in kept {
        assert Classify(l) == PayloadLine;
      } else {
        assert l == "";
      }
    }
  }

  /** The pieces of a chunk's output text: its payload lines and the empty piece after the final newline, or one empty piece. */
  lemma ChunkTextSplit(data: string)
    ensures var kept := Kept(Split(data, '\n'));
            && (kept != [] ==> Split(ChunkText(data), '\n') == kept + [""])
            && (kept == [] ==> Split(ChunkText(data), '\n') == [""])
  {
    var kept := Kept(Split(data, '\n'));
    ChunkTextWhenKept(data);
    if kept != [] {
      KeptWithoutNewline(data);
      SplitJoin(kept, '\n');
      SplitConcat(Join(kept, '\n'), "", '\n');
      assert Join(kept, '\n') + ['\n'] + "" == ChunkText(data);
    } else {
      assert Split(ChunkText(data), '\n') == [""];
    }
  }

  /** One more line extends the events and the payload lines by that line's share. */
  lemma ClassifyStep(id: string, lines: seq<string>, i: nat)
    requires i < |lines|
    ensures MarkerEvents(id, lines[..i + 1]) == MarkerEvents(id, lines[..i]) + LineEvent(id, lines[i])
    ensures Kept(lines[..i + 1]) == Kept(lines[..i]) + (if Classify(lines[i]) == PayloadLine then [lines[i]] else [])
  {
    assert lines[..i + 1][..i] == lines[..i];
  }

  /** The per-line loop of the reader over one chunk's lines. */
  method ClassifyLines(id: string, lines: seq<string>) returns (events: seq<ScreenUpdate>, kept: seq<string>)
    ensures events == MarkerEvents(id, lines) && kept == Kept(lines)
  {
    events, kept := [], [];
    var i := 0;
    while i < |lines|
      invariant 0 <= i <= |lines|
      invariant events == MarkerEvents(id, lines[..i]) && kept == Kept(lines[..i])
    {
      ClassifyStep(id, lines, i);
      var line := lines[i];
      ghost var e, k := LineEvent(id, line), if Classify(line) == PayloadLine then [line] else [];
      match Classify(line) {
      case AckLine =>
        events := events + [ScreenUpdate(id, "ACK\n")];
        assert e == [ScreenUpdate(id, "ACK\n")] && kept + k == kept;
      case HeartbeatLine =>
        events := events + [ScreenUpdate(id, "HB\n")];
        assert e == [ScreenUpdate(id, "HB\n")] && kept + k == kept;
      case BlankLine =>
        assert kept + k == kept && events + e == events;
      case PayloadLine =>
        kept := kept + [line];
        assert events + e == events;
      }
      i := i + 1;
    }
    assert lines[..i] == lines;
  }

  /** One chunk through the reader: its events, and its payload appended to the output. */
  method HandleChunk(conn: SerialConnection, data: string) returns (events: seq<ScreenUpdate>)
    modifies conn`output
    ensures events == ChunkEvents(conn.deviceId, data)
    ensures conn.output == old(conn.output) + ChunkText(data)
  {
    var lines := Split(data, '\n');
    var kept;
    events, kept := ClassifyLines(conn.deviceId, lines);
    var filtered := Join(kept, '\n');
    if filtered != "" {
      conn.output := conn.output + filtered + "\n";
      events := events + [ScreenUpdate(conn.deviceId, filtered + "\n")];
    } else {
      assert conn.output + "" == conn.output;
    }
  }

  // ---------------------------------------------------------------------------
  // The reader loop

  /** The reader's events, the text it appended, whether it started a reconnection, and the script left. */
  datatype ReaderRun = ReaderRun(events: seq<ScreenUpdate>, appended: string, reconnect: bool, rest: Env)

  /** The events one read raises: those of its chunk, or none for an empty chunk or a timeout. */
  function ReadEvents(id: string, o: ReadOutcome): seq<ScreenUpdate>
  {
    if o.Chunk? && o.data != [] then ChunkEvents(id, o.data) else []
  }

  /** The text one read adds to the output. */
  function ReadText(o: ReadOutcome): string
  {
    if o.Chunk? && o.data != [] then ChunkText(o.data) else ""
  }

  /** `ReadSerialOutput`: handle chunk after chunk until a read fails, then start a reconnection and stop. */
  function Reader(id: string, env: Env): ReaderRun
    decreases |env.inbound|
  {
    if env.inbound == [] then ReaderRun([], "", false, env)
    else if env.inbound[0].ReadFailed? then ReaderRun([], "", true, env.AfterRead())
    else
      var r := Reader(id, env.AfterRead());
      ReaderRun(ReadEvents(id, env.inbound[0]) + r.events, ReadText(env.inbound[0]) + r.appended, r.reconnect, r.rest)
  }

  /**
    The reader stops, starting a reconnection, exactly when a read fails, and
    then right after the first failed read; otherwise it reads to the end.
   */
  lemma {:induction false} ReaderStopsOnError(id: string, env: Env)
    ensures var r := Reader(id, env);
            && (r.reconnect <==> ReadFailed in env.inbound)
            && (!r.reconnect ==> r.rest.inbound == [])
            && (r.reconnect ==> (exists i :: 0 <= i < |env.inbound| && env.inbound[i] == ReadFailed
                                   && ReadFailed !in env.inbound[..i] && r.rest.inbound == env.inbound[i + 1..]))
  {
    ReaderReconnectsOnFailure(id, env);
    ReaderStopsAfterFirstFailure(id, env);
  }

  /** The reader asks for a reconnection exactly when some read fails, and otherwise reads to the end. */
  lemma {:induction false} ReaderReconnectsOnFailure(id: string, env: Env)
    ensures Reader(id, env).reconnect <==> ReadFailed in env.inbound
    ensures !Reader(id, env).reconnect ==> Reader(id, env).rest.inbound == []
    decreases |env.inbound|
  {
    if env.inbound == [] {
      ReaderAtEnd(id, env);
    } else if env.inbound[0] == ReadFailed {
      ReaderStopsAtFailure(id, env);
    } else {
      var next := env.AfterRead();
      ReaderReconnectsOnFailure(id, next);
      ReaderSkipsChunk(id, env);
      FailureAfterHead(env.inbound);
    }
  }

  /** A reconnecting reader stops right after the first failed read. */
  lemma {:induction false} ReaderStopsAfterFirstFailure(id: string, env: Env)
    ensures var r := Reader(id, env);
            r.reconnect ==> (exists i :: 0 <= i < |env.inbound| && env.inbound[i] == ReadFailed
                               && ReadFailed !in env.inbound[..i] && r.rest.inbound == env.inbound[i + 1..])
    decreases |env.inbound|
  {
    if env.inbound == [] {
      ReaderAtEnd(id, env);
    } else if env.inbound[0] == ReadFailed {
      ReaderStopsAtFailure(id, env);
      assert env.inbound[..0] == [];
    } else {
      var next := env.AfterRead();
      ReaderStopsAfterFirstFailure(id, next);
      ReaderSkipsChunk(id, env);
      var r := Reader(id, next);
      if r.reconnect {
        var i :| 0 <= i < |next.inbound| && next.inbound[i] == ReadFailed
                 && ReadFailed !in next.inbound[..i] && r.rest.inbound == next.inbound[i + 1..];
        FirstFailureAfterChunk(env.inbound, i);
      }
    }
  }

  /** With nothing left to read, the reader ends without a reconnection. */
  lemma ReaderAtEnd(id: string, env: Env)
    requires env.inbound == []
    ensures !Reader(id, env).reconnect && Reader(id, env).rest == env
  {
  }

  /** A failed read stops the reader at once, asking for a reconnection. */
  lemma ReaderStopsAtFailure(id: string, env: Env)
    requires env.inbound != [] && env.inbound[0] == ReadFailed
    ensures Reader(id, env).reconnect && Reader(id, env).rest == env.AfterRead()
  {
  }

  /** A read that does not fail leaves the reader's outcome to the reads after it. */
  lemma ReaderSkipsChunk(id: string, env: Env)
    requires env.inbound != [] && env.inbound[0] != ReadFailed
    ensures Reader(id, env).reconnect == Reader(id, env.AfterRead()).reconnect
    ensures Reader(id, env).rest == Reader(id, env.AfterRead()).rest
  {
  }

  /** A script whose first read does not fail has a failed read exactly when the reads after the first do. */
  lemma FailureAfterHead(s: seq<ReadOutcome>)
    requires s != [] && s[0] != ReadFailed
    ensures ReadFailed in s <==> ReadFailed in s[1..]
  {
    assert s == [s[0]] + s[1..];
  }

  /** The first failed read of a script, seen past a leading read that did not fail. */
  lemma FirstFailureAfterChunk(s: seq<ReadOutcome>, i: int)
    requires s != [] && s[0] != ReadFailed && 0 <= i < |s| - 1
    requires s[1..][i] == ReadFailed && ReadFailed !in s[1..][..i]
    ensures ReadFailed in s && s[i + 1] == ReadFailed && ReadFailed !in s[..i + 1] && s[1..][i + 1..] == s[i + 2..]
  {
    assert s[..i + 1] == [s[0]] + s[1..][..i];
  }

  /** The lines of one read's text are payload lines, apart from the empty piece after the final newline. */
  lemma ReadTextLines(o: ReadOutcome, after: string)
    requires forall l :: l in Split(after, '\n') ==> l == "" || Classify(l) == PayloadLine
    ensures forall l :: l in Split(ReadText(o) + after, '\n') ==> l == "" || Classify(l) == PayloadLine
  {
    if o.Chunk? && o.data != [] {
      var d := o.data;
      var kept := Kept(Split(d, '\n'));
      ChunkTextWhenKept(d);
      if kept != [] {
        var t := Join(kept, '\n');
        assert ChunkText(d) + after == t + ['\n'] + after;
        SplitConcat(t, after, '\n');
        KeptWithoutNewline(d);
        SplitJoin(kept, '\n');
        forall l | l in Split(ReadText(o) + after, '\n') ensures l == "" || Classify(l) == PayloadLine {
          if l !in kept {
            assert l in Split(after, '\n');
          }
        }
      } else {
        assert ChunkText(d) + after == after;
      }
    } else {
      assert ReadText(o) + after == after;
    }
  }

  /** Every line the reader adds to the output is a payload line (or the empty piece after a newline). */
  lemma {:induction false} ReaderAppendsPayload(id: string, env: Env)
    ensures var r := Reader(id, env);
            forall l :: l in Split(r.appended, '\n') ==> l == "" || Classify(l) == PayloadLine
    decreases |env.inbound|
  {
    if env.inbound != [] && !env.inbound[0].ReadFailed? {
      ReaderAppendsPayload(id, env.AfterRead());
      ReadTextLines(env.inbound[0], Reader(id, env.AfterRead()).appended);
    }
  }

  /** A read that did not fail: the reader goes on with the rest of the script. */
  lemma ReaderGoesOn(id: string, env: Env, events: seq<ScreenUpdate>, output: string)
    requires env.inbound != [] && !env.inbound[0].ReadFailed?
    ensures var o := env.inbound[0];
            var r := Reader(id, env); var r' := Reader(id, env.AfterRead());
            && r.reconnect == r'.reconnect && r.rest == r'.rest
            && events + r.events == (events + ReadEvents(id, o)) + r'.events
            && output + r.appended == (output + ReadText(o)) + r'.appended
  {
    var o := env.inbound[0];
    var r' := Reader(id, env.AfterRead());
    Associative(events, ReadEvents(id, o), r'.events);
    Associative(output, ReadText(o), r'.appended);
  }

  /** The reader goroutine: the events it sends to the device's update channel, in order, and whether it started a reconnection. */
  method ReadSerialOutput(conn: SerialConnection, env: Env)
    returns (events: seq<ScreenUpdate>, reconnect: bool, rest: Env)
    modifies conn`output
    ensures var r := Reader(old(conn.deviceId), env);
            events == r.events && reconnect == r.reconnect && rest == r.rest
            && conn.output == old(conn.output) + r.appended
  {
    var e := env;
    events := [];
    while e.inbound != []
      invariant Reader(conn.deviceId, env).reconnect == Reader(conn.deviceId, e).reconnect
      invariant Reader(conn.deviceId, env).rest == Reader(conn.deviceId, e).rest
      invariant Reader(conn.deviceId, env).events == events + Reader(conn.deviceId, e).events
      invariant old(conn.output) + Reader(conn.deviceId, env).appended == conn.output + Reader(conn.deviceId, e).appended
      decreases |e.inbound|
    {
      var next := e.AfterRead();
      var outcome := e.inbound[0];
      if outcome.ReadFailed? {
        assert events + [] == events;
        assert conn.output + "" == conn.output;
        return events, true, next;
      }
      ReaderGoesOn(conn.deviceId, e, events, conn.output);
      if outcome.Chunk? && outcome.data != [] {
        var chunkEvents := HandleChunk(conn, outcome.data);
        events := events + chunkEvents;
      } else {
        assert events + [] == events;
        assert conn.output + "" == conn.output;
      }
      e := next;
    }
    assert events + [] == events;
    assert conn.output + "" == conn.output;
    return events, false, e;
  }

  // ---------------------------------------------------------------------------
  // Reconnection

  /** The first port the script would open, or none. */
  function FirstOpened(opens: seq<OpenOutcome>): Port
  {
    if opens == [] then NoPort
    else if opens[0].Opened? then Handle(opens[0].id)
    else FirstOpened(opens[1..])
  }

  /** `AttemptReconnection`'s loop: `OpenSerialPort` again and again until it succeeds (or the script of opens runs out). */
  function Reconnect(env: Env): OpenRun
    decreases |env.opens|
  {
    var r := RetryOpenSpec(OpenTries, env);
    if r.port.Handle? || env.opens == [] then r
    else
      RetryOpenRest(OpenTries, env);
      RetryOpenBounds(OpenTries, env);
      Reconnect(r.rest)
  }

  /** An open loop that fails leaves the first port the script would open unchanged. */
  lemma {:induction false} RetryOpenKeepsFirst(limit: nat, env: Env)
    requires RetryOpenSpec(limit, env).port.NoPort?
    ensures FirstOpened(RetryOpenSpec(limit, env).rest.opens) == FirstOpened(env.opens)
    decreases limit
  {
    if limit > 0 {
      RetryOpenKeepsFirst(limit - 1, env.AfterOpen());
      if env.opens != [] {
        assert env.opens[0] == OpenFailed;
      }
    }
  }

  /** Reconnection ends with the first port the script opens, however the opens fall into rounds of five. */
  lemma {:induction false} ReconnectFirst(env: Env)
    ensures Reconnect(env).port == FirstOpened(env.opens)
    decreases |env.opens|
  {
    var r := RetryOpenSpec(OpenTries, env);
    RetryOpenRest(OpenTries, env);
    RetryOpenBounds(OpenTries, env);
    if r.port.Handle? {
      RetryOpenFirst(OpenTries, env);
      FirstOpenedAt(env, r.attempts - 1);
    } else if env.opens != [] {
      RetryOpenKeepsFirst(OpenTries, env);
      ReconnectFirst(r.rest);
    }
  }

  /** When every open before position `k` fails and the one at `k` succeeds, that is the first port opened. */
  lemma {:induction false} FirstOpenedAt(env: Env, k: nat)
    requires OpenAt(env, k).Opened?
    requires forall i :: 0 <= i < k ==> OpenAt(env, i) == OpenFailed
    ensures FirstOpened(env.opens) == Handle(OpenAt(env, k).id)
    decreases k
  {
    if k > 0 {
      var next := env.AfterOpen();
      assert OpenAt(env, 0) == OpenFailed;
      forall i | 0 <= i <= k - 1 ensures OpenAt(next, i) == OpenAt(env, i + 1) {
      }
      FirstOpenedAt(next, k - 1);
    }
  }

  /**
    `AttemptReconnection`: reopen the connection's port until that succeeds; the
    new connection keeps the device ID and port name, takes the first registry
    slot with that device ID (the registry never grows), and the connection
    itself is overwritten with it, so its output starts empty.
   */
  method AttemptReconnection(conn: SerialConnection, connections: array<SerialConnection>, env: Env)
    returns (reconnected: bool, rest: Env)
    modifies conn, connections
    ensures reconnected == Reconnect(env).port.Handle? && rest == Reconnect(env).rest
    ensures !reconnected ==> unchanged(conn) && unchanged(connections)
    ensures conn.deviceId == old(conn.deviceId) && conn.portName == old(conn.portName)
    ensures reconnected ==> conn.port == Reconnect(env).port && conn.output == ""
    ensures var k := old(IndexOf(Ids(connections[..]), conn.deviceId));
            reconnected ==>
              && (k < 0 ==> connections[..] == old(connections[..]))
              && (k >= 0 ==> connections[..] == old(connections[..])[k := connections[k]]
                             && fresh(connections[k]) && connections[k].port == conn.port
                             && connections[k].deviceId == conn.deviceId && connections[k].output == ""
                             && connections[k].portName == conn.portName)
  {
    var newConn;
    newConn, rest := Reopen(conn.portName, env);
    if newConn == null {
      return false, rest;
    }
    Install(conn, connections, newConn);
    reconnected := true;
  }

  /** A round of five opens that failed: reconnection goes on with the rest of the script. */
  lemma ReconnectGoesOn(env: Env)
    requires env.opens != [] && RetryOpenSpec(OpenTries, env).port.NoPort?
    ensures var r := RetryOpenSpec(OpenTries, env);
            |r.rest.opens| < |env.opens| && Reconnect(env) == Reconnect(r.rest)
  {
    RetryOpenRest(OpenTries, env);
    RetryOpenBounds(OpenTries, env);
  }

  /** The reconnection loop: `OpenSerialPort` on the same port name until it gives a connection. */
  method Reopen(portName: string, env: Env) returns (newConn: SerialConnection?, rest: Env)
    ensures var r := Reconnect(env);
            && (newConn != null <==> r.port.Handle?)
            && rest == r.rest
            && (newConn != null ==> fresh(newConn) && newConn.port == r.port && newConn.deviceId == ""
                                    && newConn.output == "" && newConn.portName == portName)
  {
    var e := env;
    while e.opens != []
      invariant Reconnect(env) == Reconnect(e)
      decreases |e.opens|
    {
      var next;
      newConn, next := OpenSerialPort(portName, e);
      if newConn != null {
        return newConn, next;
      }
      ReconnectGoesOn(e);
      e := next;
    }
    RetryOpenExhausted(OpenTries, e);
    return null, e;
  }

  // ---------------------------------------------------------------------------
  // Command dispatch

  /** The writes a send made, and the script left. */
  datatype WriteRun = WriteRun(log: seq<Written>, rest: Env)

  /** At most `limit` writes of `text` to `port`, stopping after the first one that goes through. */
  function RetryWrite(limit: nat, port: Port, text: string, env: Env): WriteRun
    decreases limit, |env.writes|
  {
    if limit == 0 then WriteRun([], env)
    else if env.NextWrite() then WriteRun([Written(port, text)], env.AfterWrite())
    else
      var r := RetryWrite(limit - 1, port, text, env.AfterWrite());
      WriteRun([Written(port, text)] + r.log, r.rest)
  }

  /** Whether the `i`-th scripted write goes through; writes past the script's end fail. */
  predicate WriteAt(env: Env, i: nat)
  {
    i < |env.writes| && env.writes[i]
  }

  /**
    A retried send writes the same text to the same port at least once and at
    most `limit` times; every write before the last one failed, and it stops
    early only because its last write went through.
   */
  lemma {:induction false} RetryWriteTrace(limit: nat, port: Port, text: string, env: Env)
    ensures var r := RetryWrite(limit, port, text, env);
            && |r.log| <= limit
            && (limit > 0 ==> |r.log| >= 1)
            && (forall w :: w in r.log ==> w == Written(port, text))
            && (forall i :: 0 <= i < |r.log| - 1 ==> !WriteAt(env, i))
            && (|r.log| < limit ==> WriteAt(env, |r.log| - 1))
    decreases limit
  {
    if limit > 0 && !env.NextWrite() {
      var next := env.AfterWrite();
      RetryWriteTrace(limit - 1, port, text, next);
      forall i | 1 <= i ensures WriteAt(env, i) == WriteAt(next, i - 1) {
      }
    }
  }

  /** A write that failed: the send goes on with the rest of the script. */
  lemma WriteGoesOn(limit: nat, port: Port, text: string, env: Env, log: seq<Written>)
    requires limit > 0 && !env.NextWrite()
    ensures var r := RetryWrite(limit, port, text, env); var r' := RetryWrite(limit - 1, port, text, env.AfterWrite());
            r.rest == r'.rest && log + r.log == (log + [Written(port, text)]) + r'.log
  {
    var r' := RetryWrite(limit - 1, port, text, env.AfterWrite());
    assert log + ([Written(port, text)] + r'.log) == (log + [Written(port, text)]) + r'.log;
  }

  /** `sendWithRetry`: up to three writes of the command and a newline; running out of attempts is only logged. */
  method SendWithRetry(port: Port, command: string, env: Env) returns (log: seq<Written>, rest: Env)
    ensures WriteRun(log, rest) == RetryWrite(MaxRetries, port, command + "\n", env)
  {
    var text := command + "\n";
    var e := env;
    log := [];
    var i := 0;
    while i < MaxRetries
      invariant i <= MaxRetries
      invariant RetryWrite(MaxRetries, port, text, env).rest == RetryWrite(MaxRetries - i, port, text, e).rest
      invariant RetryWrite(MaxRetries, port, text, env).log == log + RetryWrite(MaxRetries - i, port, text, e).log
      decreases MaxRetries - i
    {
      if e.NextWrite() {
        log := log + [Written(port, text)];
        return log, e.AfterWrite();
      }
      WriteGoesOn(MaxRetries - i, port, text, e, log);
      log := log + [Written(port, text)];
      e := e.AfterWrite();
      i := i + 1;
    }
    assert log + [] == log;
    rest := e;
  }

  /** The ports of a registry, slot by slot. */
  function Ports(cs: seq<SerialConnection>): (ports: seq<Port>)
    reads cs
    ensures |ports| == |cs|
    ensures forall i :: 0 <= i < |cs| ==> ports[i] == cs[i].port
  {
    seq(|cs|, i requires 0 <= i < |cs| reads cs => cs[i].port)
  }

  /** A broadcast's writes, grouped by connection, and the script left. */
  datatype BroadcastRun = BroadcastRun(groups: seq<seq<Written>>, rest: Env)

  /** One retried send to each of the first `n` ports, in order. */
  function Broadcast(ports: seq<Port>, n: nat, text: string, env: Env): (b: BroadcastRun)
    requires n <= |ports|
    ensures |b.groups| == n
    decreases n
  {
    if n == 0 then BroadcastRun([], env)
    else
      var b := Broadcast(ports, n - 1, text, env);
      var w := RetryWrite(MaxRetries, ports[n - 1], text, b.rest);
      BroadcastRun(b.groups + [w.log], w.rest)
  }

  /** All the writes of a run of groups, in order. */
  function Flatten(groups: seq<seq<Written>>): seq<Written>
  {
    if groups == [] then [] else Flatten(groups[..|groups| - 1]) + groups[|groups| - 1]
  }

  /** One more group adds its writes at the end. */
  lemma FlattenSnoc(groups: seq<seq<Written>>, g: seq<Written>)
    ensures Flatten(groups + [g]) == Flatten(groups) + g
  {
    Snoc(groups, g);
  }

  /**
    A broadcast sends to every connection exactly once, in registry order: one
    group of writes per connection, each group one to three writes of the command
    to that connection's port; an empty registry gets no writes.
   */
  lemma BroadcastTrace(ports: seq<Port>, n: nat, text: string, env: Env)
    requires n <= |ports|
    ensures var b := Broadcast(ports, n, text, env);
            && (forall i :: 0 <= i < n ==> 1 <= |b.groups[i]| <= MaxRetries)
            && (forall i, w :: 0 <= i < n && w in b.groups[i] ==> w == Written(ports[i], text))
  {
    var b := Broadcast(ports, n, text, env);
    forall i | 0 <= i < n
      ensures 1 <= |b.groups[i]| <= MaxRetries
      ensures forall w :: w in b.groups[i] ==> w == Written(ports[i], text)
    {
      BroadcastGroupAt(ports, n, text, env, i);
      RetryWriteTrace(MaxRetries, ports[i], text, Broadcast(ports, i, text, env).rest);
    }
  }

  /** Later sends leave earlier groups alone: group `k` is port `k`'s retried send, whatever follows it. */
  lemma {:induction false} BroadcastGroupAt(ports: seq<Port>, n: nat, text: string, env: Env, k: nat)
    requires k < n <= |ports|
    ensures Broadcast(ports, n, text, env).groups[k] == RetryWrite(MaxRetries, ports[k], text, Broadcast(ports, k, text, env).rest).log
    decreases n
  {
    var b := Broadcast(ports, n - 1, text, env);
    if k < n - 1 {
      BroadcastGroupAt(ports, n - 1, text, env, k);
      BroadcastKeepsGroups(b.groups, RetryWrite(MaxRetries, ports[n - 1], text, b.rest).log, k);
    } else {
      Snoc(b.groups, RetryWrite(MaxRetries, ports[n - 1], text, b.rest).log);
    }
  }

  /** Appending a group leaves the earlier groups as they were. */
  lemma BroadcastKeepsGroups(groups: seq<seq<Written>>, g: seq<Written>, k: nat)
    requires k < |groups|
    ensures (groups + [g])[k] == groups[k]
  {
  }

  /** `SendCommandToAll`: `sendWithRetry` for every connection, in registry order. */
  method SendCommandToAll(connections: array<SerialConnection>, command: string, env: Env)
    returns (log: seq<Written>, rest: Env)
    ensures var b := Broadcast(Ports(connections[..]), connections.Length, command + "\n", env);
            log == Flatten(b.groups) && rest == b.rest
  {
    ghost var ports := Ports(connections[..]);
    var e := env;
    log := [];
    var i := 0;
    while i < connections.Length
      invariant 0 <= i <= connections.Length
      invariant var b := Broadcast(ports, i, command + "\n", env); log == Flatten(b.groups) && e == b.rest
    {
      ghost var b := Broadcast(ports, i, command + "\n", env);
      var sent;
      sent, e := SendWithRetry(connections[i].port, command, e);
      FlattenSnoc(b.groups, sent);
      log := log + sent;
      i := i + 1;
    }
    rest := e;
  }

  /** What one read after a command leaves in the output: the chunk it returned, or nothing on an error or timeout. */
  function ImmediateResponse(env: Env): string
  {
    if env.inbound != [] && env.inbound[0].Chunk? then env.inbound[0].data else ""
  }

  /** The writes of one `SendCommand`, the output it leaves, and the script left. */
  datatype CommandRun = CommandRun(log: seq<Written>, response: string, rest: Env)

  /** One `SendCommand` of `text` to `port`: a retried send, then one read. */
  function SendOnce(port: Port, text: string, env: Env): CommandRun
  {
    var w := RetryWrite(MaxRetries, port, text, env);
    CommandRun(w.log, ImmediateResponse(w.rest), w.rest.AfterRead())
  }

  /**
    `SendCommand`: clear the selected connection's output, send the command with
    retries, then keep whatever one read returns. The index is used without a
    bounds check, so it must name a slot. Nothing else is touched.
   */
  method SendCommand(connections: array<SerialConnection>, index: int, command: string, env: Env)
    returns (log: seq<Written>, rest: Env)
    requires 0 <= index < connections.Length
    modifies connections[index]
    ensures connections[index].port == old(connections[index].port)
    ensures connections[index].deviceId == old(connections[index].deviceId)
    ensures connections[index].portName == old(connections[index].portName)
    ensures var c := SendOnce(connections[index].port, command + "\n", env);
            log == c.log && rest == c.rest && connections[index].output == c.response
  {
    var conn := connections[index];
    conn.output := "";
    var e;
    log, e := SendWithRetry(conn.port, command, env);
    rest := e.AfterRead();
    if e.inbound != [] && e.inbound[0].Chunk? {
      conn.output := conn.output + e.inbound[0].data;
    }
  }
}
