/**
  The debugging variant of the device tool (device_helpers/tui-debug.go): one
  open, a "HANDSHAKE" frame answered by "ACK_HANDSHAKE", "WAITING_FOR_CONNECTION"
  or "HEARTBEAT", a wait that matches against everything received so far and
  also accepts a reply it has only seen the beginning of, reconnection that
  drops the port before reopening it, a reader that drops the port when the
  device says it is waiting, and a command retry that always writes N times.

  Here the operations change the connection's port (it becomes nil when the
  link is lost) as well as its output, so the state they are specified on is a
  `Session`: the port, the output and the script of driver outcomes.
 */
module TuiDebug {
  import opened Wrappers
  import opened GoStrings
  import opened Link

  const AckHandshake := "ACK_HANDSHAKE"
  const Waiting := "WAITING_FOR_CONNECTION"
  const Heartbeat := "HEARTBEAT"
  /** The replies every handshake wait expects, in the order they are tried. */
  const Responses: seq<string> := [AckHandshake, Waiting, Heartbeat]
  /** Waits made by `openSerialPort` and by `establishConnection`. */
  const Attempts: nat := 3

  /** A connection's port and output, and the driver outcomes still to come. */
  datatype Session = Session(port: Port, output: string, env: Env)

  // ---------------------------------------------------------------------------
  // Waiting for a reply

  /** How a wait ended: a reply, the port being nil, a failed read, or the time running out. */
  datatype Reply = Got(marker: string) | Lost | Broken | Expired

  datatype Waited = Waited(reply: Reply, after: Session)

  /** The position of the first marker, in list order, that starts with the whole of `output`. */
  function FirstPrefixed(markers: seq<string>, output: string): (r: Option<nat>)
    ensures r.Some? ==> r.value < |markers| && HasPrefix(markers[r.value], output)
    ensures r.Some? ==> forall j :: 0 <= j < r.value ==> !HasPrefix(markers[j], output)
    ensures r.None? ==> forall j :: 0 <= j < |markers| ==> !HasPrefix(markers[j], output)
    decreases |markers|
  {
    if markers == [] then None
    else if HasPrefix(markers[0], output) then Some(0)
    else
      match FirstPrefixed(markers[1..], output)
      case None => None
      case Some(k) => Some(k + 1)
  }

  /** The marker a wait settles on for the output so far: the first one it contains, else the first it is the beginning of. */
  function Expected(markers: seq<string>, output: string): Option<nat>
  {
    match FirstMatch(markers, output)
    case Some(i) => Some(i)
    case None => FirstPrefixed(markers, output)
  }

  /**
    `waitForAnyResponse`: a nil port fails at once; otherwise read until a read
    fails, the time runs out, or the output, with the new chunk appended,
    settles on a marker.
   */
  function Await(markers: seq<string>, s: Session): (w: Waited)
    ensures w.after.port == s.port && w.after.env.opens == s.env.opens && w.after.env.writes == s.env.writes
    ensures |w.after.env.inbound| <= |s.env.inbound|
    ensures w.reply.Got? ==> s.port.Handle? && w.reply.marker in markers
    decreases |s.env.inbound|
  {
    if s.port.NoPort? then Waited(Lost, s)
    else if s.env.inbound == [] then Waited(Expired, s)
    else
      var next := s.env.AfterRead();
      match s.env.inbound[0]
      case ReadFailed => Waited(Broken, s.(env := next))
      case TimedOut => Waited(Expired, s.(env := next))
      case Chunk(d) =>
        if d == [] then Await(markers, s.(env := next))
        else
          var out := s.output + d;
          match Expected(markers, out)
          case Some(i) => Waited(Got(markers[i]), Session(s.port, out, next))
          case None => Await(markers, Session(s.port, out, next))
  }

  /**
    A wait on a nil port fails without reading; otherwise it only appends to
    the output, and a reply it returns is the marker the whole accumulated
    output settles on: the first one it contains, in list order, or failing
    that the first one the output is the beginning of.
   */
  lemma {:induction false} WaitMatchesAccumulated(markers: seq<string>, s: Session)
    ensures var w := Await(markers, s);
            && (s.port.NoPort? ==> w == Waited(Lost, s))
            && HasPrefix(w.after.output, s.output)
            && (w.reply.Got? ==> Expected(markers, w.after.output).Some?
                                 && w.reply.marker == markers[Expected(markers, w.after.output).value])
    decreases |s.env.inbound|
  {
    if s.port.Handle? && s.env.inbound != [] && s.env.inbound[0].Chunk? {
      var next := s.env.AfterRead();
      var d := s.env.inbound[0].data;
      if d == [] {
        WaitMatchesAccumulated(markers, s.(env := next));
      } else {
        var out := s.output + d;
        assert out[..|s.output|] == s.output;
        if Expected(markers, out).None? {
          var s' := Session(s.port, out, next);
          WaitMatchesAccumulated(markers, s');
          var w := Await(markers, s');
          assert w.after.output[..|out|][..|s.output|] == w.after.output[..|s.output|];
        }
      }
    }
  }

  /**
    Matching against the accumulated output goes stale: once the output holds
    "ACK_HANDSHAKE", the next non-empty chunk ends the wait with
    "ACK_HANDSHAKE" whatever that chunk says.
   */
  lemma StaleAcknowledgement(s: Session, d: string)
    requires s.port.Handle? && s.env.inbound != [] && s.env.inbound[0] == Chunk(d) && d != []
    requires Contains(s.output, AckHandshake)
    ensures Await(Responses, s).reply == Got(AckHandshake)
  {
    ContainsAppend(s.output, d, AckHandshake);
  }

  /** The prefix check accepts a reply that has only begun to arrive: "ACK" alone ends the wait as "ACK_HANDSHAKE". */
  lemma PartialReplyAccepted(id: nat)
    ensures Await(Responses, Session(Handle(id), "", Env([], [], [Chunk("ACK")]))).reply == Got(AckHandshake)
  {
    ContainsShorter("ACK", AckHandshake);
    ContainsShorter("ACK", Waiting);
    ContainsShorter("ACK", Heartbeat);
    assert "" + "ACK" == "ACK";
    assert HasPrefix(AckHandshake, "ACK");
  }

  /** The loop over the expected replies for the partial-match check. */
  method FindPrefixed(markers: seq<string>, output: string) returns (hit: Option<nat>)
    ensures hit == FirstPrefixed(markers, output)
  {
    var i := 0;
    while i < |markers|
      invariant 0 <= i <= |markers|
      invariant forall j :: 0 <= j < i ==> !HasPrefix(markers[j], output)
    {
      if HasPrefix(markers[i], output) {
        return Some(i);
      }
      i := i + 1;
    }
    hit := None;
  }

  /** `waitForAnyResponse` on a connection: every non-empty chunk is appended to its output before matching. */
  method WaitForAnyResponse(conn: SerialConnection, markers: seq<string>, env: Env) returns (reply: Reply, rest: Env)
    modifies conn`output
    ensures Await(markers, Session(conn.port, old(conn.output), env)) == Waited(reply, Session(conn.port, conn.output, rest))
  {
    var e := env;
    while true
      invariant Await(markers, Session(conn.port, old(conn.output), env)) == Await(markers, Session(conn.port, conn.output, e))
      decreases |e.inbound|
    {
      if conn.port.NoPort? {
        return Lost, e;
      }
      if e.inbound == [] {
        return Expired, e;
      }
      var next := e.AfterRead();
      var outcome := e.inbound[0];
      if outcome.ReadFailed? {
        return Broken, next;
      } else if outcome.TimedOut? {
        return Expired, next;
      }
      var d := outcome.data;
      if d != [] {
        conn.output := conn.output + d;
        var hit := FindMarker(markers, conn.output);
        if hit.Some? {
          return Got(markers[hit.value]), next;
        }
        hit := FindPrefixed(markers, conn.output);
        if hit.Some? {
          return Got(markers[hit.value]), next;
        }
      }
      e := next;
    }
  }

  // ---------------------------------------------------------------------------
  // establishConnection and reconnect

  /** Whether an operation succeeded, and the session it leaves. */
  datatype Attempted = Attempted(ok: bool, after: Session)

  /**
    `establishConnection`: write the handshake frame (a failed write closes the
    port and fails), then up to three waits; "ACK_HANDSHAKE" or "HEARTBEAT"
    succeeds, "WAITING_FOR_CONNECTION" or an error waits again.
   */
  function Establish(s: Session): (a: Attempted)
    requires s.port.Handle?
    ensures a.after.port == s.port && a.after.env.opens == s.env.opens
    ensures |a.after.env.inbound| <= |s.env.inbound|
  {
    if !s.env.NextWrite() then Attempted(false, s.(env := s.env.AfterWrite()))
    else EstablishWaits(Attempts, s.(env := s.env.AfterWrite()))
  }

  /** The waits of `establishConnection`, at most `tries` of them. */
  function EstablishWaits(tries: nat, s: Session): (a: Attempted)
    ensures a.after.port == s.port && a.after.env.opens == s.env.opens
    ensures |a.after.env.inbound| <= |s.env.inbound|
    decreases tries
  {
    if tries == 0 then Attempted(false, s)
    else
      var w := Await(Responses, s);
      if w.reply == Got(AckHandshake) || w.reply == Got(Heartbeat) then Attempted(true, w.after)
      else EstablishWaits(tries - 1, w.after)
  }

  /**
    `establishConnection` succeeds exactly when its handshake write went through
    and one of its (at most three) waits ended on "ACK_HANDSHAKE" or
    "HEARTBEAT"; a "WAITING_FOR_CONNECTION" reply never ends it.
   */
  lemma {:induction false} EstablishAccepts(tries: nat, s: Session)
    ensures var a := EstablishWaits(tries, s);
            a.ok <==> exists k :: 0 <= k < tries && AcceptedAt(k, s)
    decreases tries
  {
    if tries > 0 {
      var w := Await(Responses, s);
      if w.reply == Got(AckHandshake) || w.reply == Got(Heartbeat) {
        assert EstablishWaits(tries, s).ok;
        assert exists k :: 0 <= k < tries && AcceptedAt(k, s) by {
          assert AcceptedAt(0, s);
        }
      } else {
        EstablishAccepts(tries - 1, w.after);
        assert EstablishWaits(tries, s) == EstablishWaits(tries - 1, w.after);
        if EstablishWaits(tries, s).ok {
          var k :| 0 <= k < tries - 1 && AcceptedAt(k, w.after);
          assert 0 <= k + 1 < tries && AcceptedAt(k + 1, s);
          assert exists i :: 0 <= i < tries && AcceptedAt(i, s);
        }
        if exists k :: 0 <= k < tries && AcceptedAt(k, s) {
          var k :| 0 <= k < tries && AcceptedAt(k, s);
          assert k > 0 && AcceptedAt(k - 1, w.after);
          assert exists i :: 0 <= i < tries - 1 && AcceptedAt(i, w.after);
        }
      }
    }
  }

  /** The `k`-th wait from `s` (counting from 0) ends on "ACK_HANDSHAKE" or "HEARTBEAT", and none before it does. */
  predicate AcceptedAt(k: nat, s: Session)
  {
    var w := Await(Responses, s);
    var accepted := w.reply == Got(AckHandshake) || w.reply == Got(Heartbeat);
    if k == 0 then accepted else !accepted && AcceptedAt(k - 1, w.after)
  }

  /** `establishConnection` on a connection: every chunk the waits receive is appended to its output. */
  method EstablishConnection(conn: SerialConnection, env: Env) returns (ok: bool, rest: Env)
    requires conn.port.Handle?
    modifies conn`output
    ensures Establish(Session(conn.port, old(conn.output), env)) == Attempted(ok, Session(conn.port, conn.output, rest))
  {
    if !env.NextWrite() {
      return false, env.AfterWrite();
    }
    var e := env.AfterWrite();
    var attempt := 0;
    while attempt < Attempts
      invariant attempt <= Attempts
      invariant Establish(Session(conn.port, old(conn.output), env))
             == EstablishWaits(Attempts - attempt, Session(conn.port, conn.output, e))
      decreases Attempts - attempt
    {
      var reply;
      reply, e := WaitForAnyResponse(conn, Responses, e);
      if reply == Got(AckHandshake) || reply == Got(Heartbeat) {
        return true, e;
      }
      attempt := attempt + 1;
    }
    return false, e;
  }

  /**
    `reconnect`: the old port is dropped (closed and set to nil) before the port
    is opened again; if the open fails the connection is left without a port,
    otherwise it takes the new port and must pass `establishConnection`.
   */
  function Reconnected(s: Session): (a: Attempted)
    ensures a.after.env.opens == (if s.env.opens == [] then [] else s.env.opens[1..])
    ensures |a.after.env.inbound| <= |s.env.inbound|
  {
    match s.env.NextOpen()
    case OpenFailed => Attempted(false, Session(NoPort, s.output, s.env.AfterOpen()))
    case Opened(id) => Establish(Session(Handle(id), s.output, s.env.AfterOpen()))
  }

  /**
    After `reconnect` the connection holds the newly opened port whenever the
    open went through, and no port at all when it did not; it succeeds only
    on a new port.
   */
  lemma ReconnectDropsPort(s: Session)
    ensures var a := Reconnected(s);
            && (s.env.NextOpen().OpenFailed? ==> !a.ok && a.after.port == NoPort)
            && (s.env.NextOpen().Opened? ==> a.after.port == Handle(s.env.NextOpen().id))
            && (a.ok ==> a.after.port.Handle?)
  {
  }

  /** `reconnect` on a connection. */
  method Reconnect(conn: SerialConnection, env: Env) returns (ok: bool, rest: Env)
    modifies conn`port, conn`output
    ensures Reconnected(Session(old(conn.port), old(conn.output), env)) == Attempted(ok, Session(conn.port, conn.output, rest))
  {
    if conn.port.Handle? {
      conn.port := NoPort;
    }
    var outcome := env.NextOpen();
    var e := env.AfterOpen();
    if outcome.OpenFailed? {
      return false, e;
    }
    conn.port := Handle(outcome.id);
    ok, rest := EstablishConnection(conn, e);
  }

  // ---------------------------------------------------------------------------
  // openSerialPort

  /** How `openSerialPort` ends: with a connection, with an error, or by calling Close on a nil port. */
  datatype OpenResult = Connected(after: Session) | Refused(rest: Env) | ClosedNil(rest: Env)

  /**
    `openSerialPort` with its final Close either guarded against a nil port
    (`guarded`) or not, as written: one open; a failed open or handshake write
    is an error; then up to three waits, where "ACK_HANDSHAKE" connects,
    "WAITING_FOR_CONNECTION" connects if `reconnect` succeeds and
    "HEARTBEAT" connects if `establishConnection` succeeds.
   */
  function OpenFrom(env: Env, guarded: bool): OpenResult
  {
    match env.NextOpen()
    case OpenFailed => Refused(env.AfterOpen())
    case Opened(id) =>
      var e := env.AfterOpen();
      if !e.NextWrite() then Refused(e.AfterWrite())
      else OpenAttempts(Attempts, Session(Handle(id), "", e.AfterWrite()), guarded)
  }

  /**
    One attempt of `openSerialPort`: a wait, where "ACK_HANDSHAKE" connects,
    "WAITING_FOR_CONNECTION" connects if `reconnect` succeeds, "HEARTBEAT"
    connects if `establishConnection` succeeds, and anything else does not.
   */
  function AttemptOnce(s: Session): Attempted
  {
    var w := Await(Responses, s);
    if !w.reply.Got? then Attempted(false, w.after)
    else if w.reply.marker == AckHandshake then Attempted(true, w.after)
    else if w.reply.marker == Waiting then Reconnected(w.after)
    else Establish(w.after)
  }

  /** The attempts of `openSerialPort`, at most `tries` of them, then the Close of the port. */
  function OpenAttempts(tries: nat, s: Session, guarded: bool): OpenResult
    decreases tries
  {
    if tries == 0 then (if s.port.NoPort? && !guarded then ClosedNil(s.env) else Refused(s.env))
    else
      var a := AttemptOnce(s);
      if a.ok then Connected(a.after) else OpenAttempts(tries - 1, a.after, guarded)
  }

  /** An attempt connects only while holding a port. */
  lemma AttemptHoldsPort(s: Session)
    ensures AttemptOnce(s).ok ==> AttemptOnce(s).after.port.Handle?
  {
  }

  /** `openSerialPort` as written: after three failed attempts it closes the port even when it is nil. */
  function OpenAsWritten(env: Env): OpenResult
  {
    OpenFrom(env, false)
  }

  /** `openSerialPort` with the final Close skipped when the port is already nil. */
  function Open(env: Env): (o: OpenResult)
    ensures !o.ClosedNil?
    ensures o.Connected? ==> o.after.port.Handle?
  {
    OpenGuard(env);
    OpenFrom(env, true)
  }

  /** Guarding the Close changes nothing but the Close itself, and a guarded open that connects holds a port. */
  lemma {:induction false} GuardOnlyAffectsClose(tries: nat, s: Session)
    ensures var g := OpenAttempts(tries, s, true); var u := OpenAttempts(tries, s, false);
            && !g.ClosedNil?
            && (g.Connected? ==> g.after.port.Handle?)
            && (!u.ClosedNil? ==> u == g)
            && (u.ClosedNil? ==> g == Refused(u.rest))
    decreases tries
  {
    if tries > 0 {
      AttemptHoldsPort(s);
      var a := AttemptOnce(s);
      if !a.ok {
        GuardOnlyAffectsClose(tries - 1, a.after);
      }
    }
  }

  /** The same for the whole of `openSerialPort`: as written it differs from the guarded version only by calling Close on nil. */
  lemma OpenGuard(env: Env)
    ensures !OpenFrom(env, true).ClosedNil?
    ensures OpenFrom(env, true).Connected? ==> OpenFrom(env, true).after.port.Handle?
    ensures !OpenAsWritten(env).ClosedNil? ==> OpenAsWritten(env) == OpenFrom(env, true)
    ensures OpenAsWritten(env).ClosedNil? ==> OpenFrom(env, true) == Refused(OpenAsWritten(env).rest)
  {
    if env.NextOpen().Opened? {
      var e := env.AfterOpen();
      if e.NextWrite() {
        GuardOnlyAffectsClose(Attempts, Session(Handle(env.NextOpen().id), "", e.AfterWrite()));
      }
    }
  }

  /**
    The Close at the end of `openSerialPort` can be reached with a nil port: the
    device's first byte is the start of "WAITING_FOR_CONNECTION", `reconnect`
    then drops the port and fails to reopen it, the two remaining waits fail at
    once on the nil port, and Close is called on nil.
   */
  lemma NilCloseReachable()
    ensures OpenAsWritten(Env([Opened(1), OpenFailed], [true], [Chunk("W")])).ClosedNil?
  {
    var env := Env([Opened(1), OpenFailed], [true], [Chunk("W")]);
    var s := Session(Handle(1), "", Env([OpenFailed], [], [Chunk("W")]));
    assert env.AfterOpen().AfterWrite() == s.env;
    ContainsShorter("W", AckHandshake);
    ContainsShorter("W", Waiting);
    ContainsShorter("W", Heartbeat);
    assert "" + "W" == "W";
    assert AckHandshake[..1] == "A";
    assert HasPrefix(Waiting, "W");
    assert FirstMatch(Responses, "W") == None;
    assert Responses[1..][1..] == [Heartbeat];
    assert FirstPrefixed(Responses[1..], "W") == Some(0);
    assert Expected(Responses, "W") == Some(1);
    assert Await(Responses, s) == Waited(Got(Waiting), Session(Handle(1), "W", Env([OpenFailed], [], [])));
    var a := AttemptOnce(s);
    assert a == Attempted(false, Session(NoPort, "W", Env([], [], [])));
    assert AttemptOnce(a.after) == Attempted(false, a.after);
  }

  /**
    `openSerialPort` with the nil check on its final Close: it connects only
    while holding a port, and otherwise returns an error.
   */
  method OpenSerialPort(portName: string, env: Env) returns (conn: SerialConnection?, rest: Env)
    ensures var o := Open(env);
            && (conn != null <==> o.Connected?)
            && (conn == null ==> rest == o.rest)
            && (conn != null ==> fresh(conn) && o.after == Session(conn.port, conn.output, rest)
                                 && conn.deviceId == "" && conn.portName == portName)
  {
    OpenGuard(env);
    var outcome := env.NextOpen();
    var e := env.AfterOpen();
    if outcome.OpenFailed? {
      return null, e;
    }
    if !e.NextWrite() {
      return null, e.AfterWrite();
    }
    e := e.AfterWrite();
    conn := new SerialConnection(Handle(outcome.id), "", "", portName);
    var attempt := 0;
    while attempt < Attempts
      invariant attempt <= Attempts
      invariant OpenFrom(env, true) == OpenAttempts(Attempts - attempt, Session(conn.port, conn.output, e), true)
      invariant conn.deviceId == "" && conn.portName == portName
      decreases Attempts - attempt
    {
      var ok;
      ok, e := Attempt(conn, e);
      if ok {
        return conn, e;
      }
      attempt := attempt + 1;
    }
    return null, e;
  }

  /** One attempt of `openSerialPort` on a connection. */
  method Attempt(conn: SerialConnection, env: Env) returns (ok: bool, rest: Env)
    modifies conn`port, conn`output
    ensures AttemptOnce(Session(old(conn.port), old(conn.output), env)) == Attempted(ok, Session(conn.port, conn.output, rest))
  {
    var reply;
    reply, rest := WaitForAnyResponse(conn, Responses, env);
    if !reply.Got? {
      return false, rest;
    }
    if reply.marker == AckHandshake {
      return true, rest;
    }
    if reply.marker == Waiting {
      ok, rest := Reconnect(conn, rest);
    } else {
      ok, rest := EstablishConnection(conn, rest);
    }
  }

  // ---------------------------------------------------------------------------
  // The reader

  /** The session a reader leaves, and the chunks it appended to the output itself. */
  datatype Watch = Watch(after: Session, shown: seq<string>)

  /**
    `readSerialOutput`: with no port, `reconnect`; a failed read, or a chunk
    that says "WAITING_FOR_CONNECTION", drops the port; any other non-empty
    chunk is appended to the output. The loop ends when the script runs out.
   */
  function Reader(s: Session): Watch
    decreases |s.env.opens| + |s.env.inbound|
  {
    if s.port.NoPort? then
      if s.env.opens == [] then Watch(s, []) else Reader(Reconnected(s).after)
    else if s.env.inbound == [] then Watch(s, [])
    else
      var next := s.env.AfterRead();
      match s.env.inbound[0]
      case ReadFailed => Reader(Session(NoPort, s.output, next))
      case TimedOut => Reader(s.(env := next))
      case Chunk(d) =>
        if d == [] then Reader(s.(env := next))
        else if Contains(d, Waiting) then Reader(Session(NoPort, s.output, next))
        else
          var r := Reader(Session(s.port, s.output + d, next));
          Watch(r.after, [d] + r.shown)
  }

  /**
    The reader never shows a chunk that says "WAITING_FOR_CONNECTION", and it
    stops only when there is nothing left to read, or no port and nothing left
    to open.
   */
  lemma {:induction false} ReaderSkipsWaiting(s: Session)
    ensures var r := Reader(s);
            && (forall c :: c in r.shown ==> c != [] && !Contains(c, Waiting))
            && (r.after.env.inbound == [] || (r.after.port.NoPort? && r.after.env.opens == []))
    decreases |s.env.opens| + |s.env.inbound|
  {
    if s.port.NoPort? {
      if s.env.opens != [] {
        ReaderSkipsWaiting(Reconnected(s).after);
      }
    } else if s.env.inbound != [] {
      var next := s.env.AfterRead();
      match s.env.inbound[0]
      case ReadFailed => ReaderSkipsWaiting(Session(NoPort, s.output, next));
      case TimedOut => ReaderSkipsWaiting(s.(env := next));
      case Chunk(d) =>
        if d == [] {
          ReaderSkipsWaiting(s.(env := next));
        } else if Contains(d, Waiting) {
          ReaderSkipsWaiting(Session(NoPort, s.output, next));
        } else {
          ReaderSkipsWaiting(Session(s.port, s.output + d, next));
        }
    }
  }

  /** A read while holding a port: a chunk without the waiting notice is appended and shown; one with it drops the port. */
  lemma ReaderChunk(s: Session, d: string)
    requires s.port.Handle? && s.env.inbound != [] && s.env.inbound[0] == Chunk(d) && d != []
    ensures Contains(d, Waiting) ==> Reader(s) == Reader(Session(NoPort, s.output, s.env.AfterRead()))
    ensures !Contains(d, Waiting) ==>
              var r := Reader(Session(s.port, s.output + d, s.env.AfterRead()));
              Reader(s) == Watch(r.after, [d] + r.shown)
  {
  }

  /** `readSerialOutput(index)`: the reader goroutine for the connection at `index` (looked up without a bounds check). */
  method ReadSerialOutput(connections: array<SerialConnection>, index: int, env: Env)
    returns (shown: seq<string>, rest: Env)
    requires 0 <= index < connections.Length
    modifies connections[index]
    ensures var conn := connections[index];
            var r := Reader(Session(old(conn.port), old(conn.output), env));
            && shown == r.shown && r.after == Session(conn.port, conn.output, rest)
            && conn.deviceId == old(conn.deviceId) && conn.portName == old(conn.portName)
  {
    var conn := connections[index];
    ghost var spec := Reader(Session(conn.port, conn.output, env));
    var e := env;
    shown := [];
    while true
      invariant var r := Reader(Session(conn.port, conn.output, e)); spec == Watch(r.after, shown + r.shown)
      invariant conn.deviceId == old(conn.deviceId) && conn.portName == old(conn.portName)
      decreases |e.opens| + |e.inbound|
    {
      if conn.port.NoPort? {
        if e.opens == [] {
          assert shown + [] == shown;
          return shown, e;
        }
        var ok;
        ok, e := Reconnect(conn, e);
        continue;
      }
      if e.inbound == [] {
        assert shown + [] == shown;
        return shown, e;
      }
      var next := e.AfterRead();
      var outcome := e.inbound[0];
      if outcome.ReadFailed? {
        conn.port := NoPort;
      } else if outcome.Chunk? && outcome.data != [] {
        var d := outcome.data;
        if Contains(d, Waiting) {
          conn.port := NoPort;
        } else {
          ghost var r := Reader(Session(conn.port, conn.output + d, next));
          assert shown + ([d] + r.shown) == (shown + [d]) + r.shown;
          conn.output := conn.output + d;
          shown := shown + [d];
        }
      }
      e := next;
    }
  }

  // ---------------------------------------------------------------------------
  // Commands

  /** `sendCommandWithRetry`: the command is written `retries` times whatever each write returns. */
  method SendCommandWithRetry(port: Port, command: string, retries: int, env: Env) returns (log: seq<Written>, rest: Env)
    ensures |log| == (if retries < 0 then 0 else retries)
    ensures forall w :: w in log ==> w == Written(port, command + "\n")
    ensures rest == env.(writes := env.writes[Min(|log|, |env.writes|)..])
  {
    var e := env;
    log := [];
    var i := 0;
    while i < retries
      invariant 0 <= i <= (if retries < 0 then 0 else retries)
      invariant |log| == i
      invariant forall w :: w in log ==> w == Written(port, command + "\n")
      invariant e == env.(writes := env.writes[Min(i, |env.writes|)..])
    {
      var ok := e.NextWrite();
      log := log + [Written(port, command + "\n")];
      e := e.AfterWrite();
      i := i + 1;
    }
    rest := e;
  }
}
