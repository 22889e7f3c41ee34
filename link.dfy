/**
  The serial link shared by the device tools: a connection record, the serial
  driver replaced by a script of outcomes, and the loops every variant of the
  link protocol is built from (bounded open retries, waiting for a marker,
  bounded handshakes, the periodic handshake, and the registry of connections).

  The driver never blocks here: each call to open, write or read takes the next
  scripted outcome. An exhausted script means the call fails (open, write) or the
  read timeout elapsed (read), so every loop that runs "until something happens"
  ends when its script does.
 */
module Link {
  import opened Wrappers
  import opened GoStrings

  /** The port a connection holds: nil, or an open device handle. */
  datatype Port = NoPort | Handle(id: nat)

  datatype OpenOutcome = Opened(id: nat) | OpenFailed

  /** One read: a chunk of bytes (possibly empty), a driver error, or the read timeout elapsing. */
  datatype ReadOutcome = Chunk(data: string) | ReadFailed | TimedOut

  /** The outcomes the serial driver will give to opens, writes and reads, in order. */
  datatype Env = Env(opens: seq<OpenOutcome>, writes: seq<bool>, inbound: seq<ReadOutcome>)
  {
    function NextOpen(): OpenOutcome
    {
      if opens == [] then OpenFailed else opens[0]
    }

    function AfterOpen(): (e: Env)
    {
      if opens == [] then this else this.(opens := opens[1..])
    }

    function NextWrite(): bool
    {
      writes != [] && writes[0]
    }

    function AfterWrite(): (e: Env)
    {
      if writes == [] then this else this.(writes := writes[1..])
    }

    function AfterRead(): (e: Env)
    {
      if inbound == [] then this else this.(inbound := inbound[1..])
    }
  }

  /** The `i`-th open outcome of a script; opens past its end fail. */
  function OpenAt(env: Env, i: nat): OpenOutcome
  {
    if i < |env.opens| then env.opens[i] else OpenFailed
  }

  /** One write to the driver: the port it went to and the bytes written. */
  datatype Written = Written(port: Port, text: string)

  /** What a reader goroutine sends to the screen: a device ID and a piece of text. */
  datatype ScreenUpdate = ScreenUpdate(deviceId: string, output: string)

  /** A device connection: the open port, the device's ID, the text received so far and the port's path. */
  class SerialConnection {
    var port: Port
    var deviceId: string
    var output: string
    var portName: string

    constructor (port: Port, deviceId: string, output: string, portName: string)
      ensures this.port == port && this.deviceId == deviceId
      ensures this.output == output && this.portName == portName
    {
      this.port := port;
      this.deviceId := deviceId;
      this.output := output;
      this.portName := portName;
    }

    /** `*conn = *other`: every field takes the other connection's value. */
    method CopyFrom(other: SerialConnection)
      modifies this
      ensures port == old(other.port) && deviceId == old(other.deviceId)
      ensures output == old(other.output) && portName == old(other.portName)
    {
      var p, d, o, n := other.port, other.deviceId, other.output, other.portName;
      port, deviceId, output, portName := p, d, o, n;
    }
  }

  // ---------------------------------------------------------------------------
  // Marker search

  /** The position of the first marker, in list order, that occurs in `data`. */
  function FirstMatch(markers: seq<string>, data: string): (r: Option<nat>)
    ensures r.Some? ==> r.value < |markers| && Contains(data, markers[r.value])
    ensures r.Some? ==> forall j :: 0 <= j < r.value ==> !Contains(data, markers[j])
    ensures r.None? ==> forall j :: 0 <= j < |markers| ==> !Contains(data, markers[j])
    decreases |markers|
  {
    if markers == [] then None
    else if Contains(data, markers[0]) then Some(0)
    else
      match FirstMatch(markers[1..], data)
      case None => None
      case Some(k) => Some(k + 1)
  }

  /** The loop over the expected responses: the first one the received chunk contains. */
  method FindMarker(markers: seq<string>, data: string) returns (hit: Option<nat>)
    ensures hit == FirstMatch(markers, data)
  {
    var i := 0;
    while i < |markers|
      invariant 0 <= i <= |markers|
      invariant forall j :: 0 <= j < i ==> !Contains(data, markers[j])
    {
      if Contains(data, markers[i]) {
        return Some(i);
      }
      i := i + 1;
    }
    hit := None;
  }

  // ---------------------------------------------------------------------------
  // Waiting for a response

  datatype WaitResult = Matched(marker: string) | ReadError | Timeout

  /** How a wait ended, the text it received (all of it goes to the connection's output), and the script left. */
  datatype WaitRun = WaitRun(result: WaitResult, received: string, rest: Env)

  /** A read that ends a wait successfully: a non-empty chunk containing one of the markers. */
  predicate Hits(markers: seq<string>, r: ReadOutcome)
  {
    r.Chunk? && r.data != [] && FirstMatch(markers, r.data).Some?
  }

  /** The text carried by a run of reads, in order. */
  function Received(rs: seq<ReadOutcome>): string
  {
    if rs == [] then ""
    else (if rs[0].Chunk? then rs[0].data else "") + Received(rs[1..])
  }

  /**
    `waitForAnyResponse`: read until a read fails, the time runs out, or a
    non-empty chunk contains a marker; every chunk is kept, and the chunk alone
    (not the text accumulated before it) is searched.
   */
  function Wait(markers: seq<string>, env: Env): (w: WaitRun)
    ensures w.rest.opens == env.opens && w.rest.writes == env.writes
    ensures |w.rest.inbound| <= |env.inbound|
    ensures w.result.Matched? ==> w.result.marker in markers
    decreases |env.inbound|
  {
    if env.inbound == [] then WaitRun(Timeout, "", env)
    else
      var next := env.AfterRead();
      match env.inbound[0]
      case ReadFailed => WaitRun(ReadError, "", next)
      case TimedOut => WaitRun(Timeout, "", next)
      case Chunk(d) =>
        if Hits(markers, env.inbound[0]) then
          WaitRun(Matched(markers[FirstMatch(markers, d).value]), d, next)
        else
          var w := Wait(markers, next);
          WaitRun(w.result, d + w.received, w.rest)
  }

  /** A wait consumes a prefix of the scripted reads. */
  lemma {:induction false} WaitSuffix(markers: seq<string>, env: Env)
    ensures var w := Wait(markers, env);
            w.rest.inbound == env.inbound[|env.inbound| - |w.rest.inbound|..]
    decreases |env.inbound|
  {
    if env.inbound != [] && env.inbound[0].Chunk? && !Hits(markers, env.inbound[0]) {
      WaitSuffix(markers, env.AfterRead());
    }
  }

  /** The number of scripted reads a wait consumes. */
  function Consumed(markers: seq<string>, env: Env): nat
  {
    |env.inbound| - |Wait(markers, env).rest.inbound|
  }

  /** The text a wait hands to the output is exactly what the reads it consumed carried. */
  lemma {:induction false} WaitReceives(markers: seq<string>, env: Env)
    ensures Wait(markers, env).received == Received(env.inbound[..Consumed(markers, env)])
    decreases |env.inbound|
  {
    var k := Consumed(markers, env);
    if env.inbound != [] {
      var r := env.inbound[0];
      if r.Chunk? && !Hits(markers, r) {
        var next := env.AfterRead();
        WaitReceives(markers, next);
        assert env.inbound[..k][1..] == next.inbound[..k - 1];
      } else {
        assert env.inbound[..k][1..] == [];
      }
    }
  }

  /**
    How a wait ends: every read before its last one is a chunk without a
    marker; it matches exactly when the last one hits, and then on the first
    marker in list order that chunk contains; it fails exactly when the last
    one is a read error.
   */
  lemma {:induction false} WaitEnds(markers: seq<string>, env: Env)
    ensures var w := Wait(markers, env);
            var k := Consumed(markers, env);
            && (forall j :: 0 <= j < k - 1 ==> env.inbound[j].Chunk? && !Hits(markers, env.inbound[j]))
            && (w.result.Matched? <==> k > 0 && Hits(markers, env.inbound[k - 1]))
            && (w.result.Matched? ==> w.result.marker == markers[FirstMatch(markers, env.inbound[k - 1].data).value])
            && (w.result.ReadError? <==> k > 0 && env.inbound[k - 1] == ReadFailed)
    decreases |env.inbound|
  {
    if env.inbound != [] && env.inbound[0].Chunk? && !Hits(markers, env.inbound[0]) {
      var next := env.AfterRead();
      WaitEnds(markers, next);
      WaitSkipsChunk(markers, env);
      var k' := Consumed(markers, next);
      forall j | 1 <= j < k' + 1 ensures env.inbound[j] == next.inbound[j - 1] {
      }
    } else {
      WaitStops(markers, env);
    }
  }

  /** A chunk without a marker is consumed and the wait goes on: it ends as the wait over the reads after it. */
  lemma WaitSkipsChunk(markers: seq<string>, env: Env)
    requires env.inbound != [] && env.inbound[0].Chunk? && !Hits(markers, env.inbound[0])
    ensures Wait(markers, env).result == Wait(markers, env.AfterRead()).result
    ensures Consumed(markers, env) == Consumed(markers, env.AfterRead()) + 1
  {
  }

  /** A wait over no reads times out having consumed none; otherwise a first read that ends the wait is the only one consumed. */
  lemma WaitStops(markers: seq<string>, env: Env)
    requires env.inbound == [] || !(env.inbound[0].Chunk? && !Hits(markers, env.inbound[0]))
    ensures env.inbound == [] ==> Wait(markers, env).result == Timeout && Consumed(markers, env) == 0
    ensures env.inbound != [] ==>
              && Consumed(markers, env) == 1
              && Wait(markers, env).result == match env.inbound[0]
                                               case ReadFailed => ReadError
                                               case TimedOut => Timeout
                                               case Chunk(d) => Matched(markers[FirstMatch(markers, d).value])
  {
  }

  /** The output-side half of a wait: whatever it received ends with the chunk that matched. */
  lemma {:induction false} WaitMatchIsReceived(markers: seq<string>, env: Env)
    ensures var w := Wait(markers, env);
            w.result.Matched? ==> Contains(w.received, w.result.marker)
    decreases |env.inbound|
  {
    if env.inbound != [] && env.inbound[0].Chunk? && !Hits(markers, env.inbound[0]) {
      var next := env.AfterRead();
      WaitMatchIsReceived(markers, next);
      var w := Wait(markers, next);
      if w.result.Matched? {
        ContainsAppend(env.inbound[0].data, w.received, w.result.marker);
      }
    }
  }

  /** How a wait ended and the script it left, leaving aside what it received. */
  function WaitOutcome(w: WaitRun): (WaitResult, Env)
  {
    (w.result, w.rest)
  }

  /** One read of a wait that neither fails, times out, nor matches: the wait goes on after it. */
  lemma WaitGoesOn(markers: seq<string>, env: Env, before: string)
    requires env.inbound != [] && env.inbound[0].Chunk? && !Hits(markers, env.inbound[0])
    ensures var w := Wait(markers, env); var w' := Wait(markers, env.AfterRead());
            && WaitOutcome(w) == WaitOutcome(w')
            && before + w.received == (before + env.inbound[0].data) + w'.received
  {
    var w := Wait(markers, env.AfterRead());
    assert before + (env.inbound[0].data + w.received) == (before + env.inbound[0].data) + w.received;
  }

  /** `waitForAnyResponse` as the loop it is: every non-empty chunk is appended to the connection's output. */
  method WaitForAnyResponse(conn: SerialConnection, markers: seq<string>, env: Env)
    returns (result: WaitResult, rest: Env)
    modifies conn`output
    ensures var w := Wait(markers, env);
            result == w.result && rest == w.rest && conn.output == old(conn.output) + w.received
  {
    var e := env;
    while e.inbound != []
      invariant WaitOutcome(Wait(markers, env)) == WaitOutcome(Wait(markers, e))
      invariant old(conn.output) + Wait(markers, env).received == conn.output + Wait(markers, e).received
      decreases |e.inbound|
    {
      var next := e.AfterRead();
      var outcome := e.inbound[0];
      if outcome.ReadFailed? {
        assert conn.output + "" == conn.output;
        return ReadError, next;
      } else if outcome.TimedOut? {
        assert conn.output + "" == conn.output;
        return Timeout, next;
      }
      ghost var before := conn.output;
      var d := outcome.data;
      if d != [] {
        conn.output := conn.output + d;
        var hit := FindMarker(markers, d);
        if hit.Some? {
          return Matched(markers[hit.value]), next;
        }
      } else {
        assert before + d == before;
      }
      WaitGoesOn(markers, e, before);
      e := next;
    }
    assert conn.output + "" == conn.output;
    return Timeout, e;
  }

  // ---------------------------------------------------------------------------
  // Bounded open retries

  /** The port an open loop got (or none), how many opens it tried, and the script left. */
  datatype OpenRun = OpenRun(port: Port, attempts: nat, rest: Env)

  /** Try to open the port at most `limit` times, stopping at the first success. */
  function RetryOpenSpec(limit: nat, env: Env): OpenRun
    decreases limit, |env.opens|
  {
    if limit == 0 then OpenRun(NoPort, 0, env)
    else
      match env.NextOpen()
      case Opened(id) => OpenRun(Handle(id), 1, env.AfterOpen())
      case OpenFailed =>
        var r := RetryOpenSpec(limit - 1, env.AfterOpen());
        OpenRun(r.port, r.attempts + 1, r.rest)
  }

  /** An open loop tries at most `limit` times, and gives up only after `limit` failures. */
  lemma {:induction false} RetryOpenBounds(limit: nat, env: Env)
    ensures var r := RetryOpenSpec(limit, env);
            && r.attempts <= limit
            && (r.port.Handle? ==> 1 <= r.attempts)
            && (r.port.NoPort? ==> r.attempts == limit)
    decreases limit
  {
    if limit > 0 && env.NextOpen().OpenFailed? {
      RetryOpenBounds(limit - 1, env.AfterOpen());
    }
  }

  /**
    An open loop stops at its first success: the open it returns is the outcome
    of its last try, and every earlier try failed.
   */
  lemma {:induction false} RetryOpenFirst(limit: nat, env: Env)
    ensures var r := RetryOpenSpec(limit, env);
            && (r.port.Handle? ==> OpenAt(env, r.attempts - 1) == Opened(r.port.id))
            && (forall i :: 0 <= i < r.attempts - 1 ==> OpenAt(env, i) == OpenFailed)
    decreases limit
  {
    if limit > 0 && env.NextOpen().OpenFailed? {
      var next := env.AfterOpen();
      RetryOpenFirst(limit - 1, next);
      RetryOpenBounds(limit - 1, next);
      var r := RetryOpenSpec(limit - 1, next);
      assert OpenAt(env, 0) == OpenFailed;
      forall i | 1 <= i <= r.attempts ensures OpenAt(env, i) == OpenAt(next, i - 1) {
      }
    }
  }

  /** An open loop succeeds exactly when one of its first `limit` opens would. */
  lemma {:induction false} RetryOpenSucceeds(limit: nat, env: Env)
    ensures RetryOpenSpec(limit, env).port.Handle? <==> exists i :: 0 <= i < limit && OpenAt(env, i).Opened?
    decreases limit
  {
    if limit > 0 {
      var next := env.AfterOpen();
      if env.NextOpen().Opened? {
        assert OpenAt(env, 0).Opened?;
      } else {
        RetryOpenSucceeds(limit - 1, next);
        if exists i :: 0 <= i < limit && OpenAt(env, i).Opened? {
          var i :| 0 <= i < limit && OpenAt(env, i).Opened?;
          assert OpenAt(next, i - 1) == OpenAt(env, i);
        }
        if exists i :: 0 <= i < limit - 1 && OpenAt(next, i).Opened? {
          var i :| 0 <= i < limit - 1 && OpenAt(next, i).Opened?;
          assert OpenAt(env, i + 1) == OpenAt(next, i);
        }
      }
    }
  }

  /** An open loop consumes one scripted outcome per try and nothing else. */
  lemma {:induction false} RetryOpenRest(limit: nat, env: Env)
    ensures var r := RetryOpenSpec(limit, env);
            r.rest == env.(opens := env.opens[Min(r.attempts, |env.opens|)..])
    decreases limit
  {
    if limit == 0 {
      assert env.opens[0..] == env.opens;
    } else if env.NextOpen().OpenFailed? {
      var next := env.AfterOpen();
      RetryOpenRest(limit - 1, next);
      if env.opens == [] {
        assert env.(opens := env.opens[0..]) == env;
      } else {
        var r := RetryOpenSpec(limit - 1, next);
        assert env.opens[Min(r.attempts + 1, |env.opens|)..] == next.opens[Min(r.attempts, |next.opens|)..];
      }
    }
  }

  /** With no opens left in the script, every try fails and nothing is consumed. */
  lemma {:induction false} RetryOpenExhausted(limit: nat, env: Env)
    requires env.opens == []
    ensures RetryOpenSpec(limit, env).port == NoPort && RetryOpenSpec(limit, env).rest == env
    decreases limit
  {
    if limit > 0 {
      assert env.AfterOpen() == env;
      RetryOpenExhausted(limit - 1, env);
    }
  }

  function Min(a: int, b: int): int
  {
    if a < b then a else b
  }

  /** The counted open loop. */
  method RetryOpen(limit: nat, env: Env) returns (port: Port, attempts: nat, rest: Env)
    ensures OpenRun(port, attempts, rest) == RetryOpenSpec(limit, env)
  {
    var e := env;
    attempts := 0;
    port := NoPort;
    while attempts < limit
      invariant attempts <= limit
      invariant RetryOpenSpec(limit, env) == var r := RetryOpenSpec(limit - attempts, e); OpenRun(r.port, r.attempts + attempts, r.rest)
      decreases limit - attempts
    {
      var outcome := e.NextOpen();
      e := e.AfterOpen();
      attempts := attempts + 1;
      if outcome.Opened? {
        port := Handle(outcome.id);
        break;
      }
    }
    rest := e;
  }

  // ---------------------------------------------------------------------------
  // Bounded handshakes

  /** Whether a handshake loop succeeded, how many attempts (each one handshake write) it made, what it received, and the script left. */
  datatype HandshakeRun = HandshakeRun(ok: bool, attempts: nat, received: string, rest: Env)

  /** One handshake attempt: write the handshake; a failed write ends the attempt, otherwise wait for one of the markers. */
  function Attempt(markers: seq<string>, env: Env): WaitRun
  {
    if env.NextWrite() then Wait(markers, env.AfterWrite())
    else WaitRun(ReadError, "", env.AfterWrite())
  }

  /** At most `tries` attempts, stopping at the first one whose wait matched. */
  function Handshake(tries: nat, markers: seq<string>, env: Env): HandshakeRun
    decreases tries, |env.writes|
  {
    if tries == 0 then HandshakeRun(false, 0, "", env)
    else
      var a := Attempt(markers, env);
      if a.result.Matched? then HandshakeRun(true, 1, a.received, a.rest)
      else
        var h := Handshake(tries - 1, markers, a.rest);
        HandshakeRun(h.ok, h.attempts + 1, a.received + h.received, h.rest)
  }

  /**
    A handshake loop makes at most `tries` attempts, gives up only after all of
    them, and succeeds only after receiving one of the markers.
   */
  lemma {:induction false} HandshakeBounds(tries: nat, markers: seq<string>, env: Env)
    ensures var h := Handshake(tries, markers, env);
            && h.attempts <= tries
            && (h.ok ==> 1 <= h.attempts && exists m :: m in markers && Contains(h.received, m))
            && (!h.ok ==> h.attempts == tries)
    decreases tries
  {
    if tries > 0 {
      var a := Attempt(markers, env);
      if a.result.Matched? {
        WaitMatchIsReceived(markers, env.AfterWrite());
      } else {
        HandshakeBounds(tries - 1, markers, a.rest);
        var h' := Handshake(tries - 1, markers, a.rest);
        if h'.ok {
          var m :| m in markers && Contains(h'.received, m);
          ContainsAppend(a.received, h'.received, m);
        }
      }
    }
  }

  /** A successful handshake loop stops at its first success: allowing it more attempts changes nothing. */
  lemma {:induction false} HandshakeStops(tries: nat, more: nat, markers: seq<string>, env: Env)
    requires Handshake(tries, markers, env).ok
    ensures Handshake(tries + more, markers, env) == Handshake(tries, markers, env)
    decreases tries
  {
    var a := Attempt(markers, env);
    if !a.result.Matched? {
      HandshakeStops(tries - 1, more, markers, a.rest);
    }
  }

  /** One attempt on a connection: write the handshake frame, then wait if the write went through. */
  method TryHandshake(conn: SerialConnection, markers: seq<string>, env: Env)
    returns (matched: bool, rest: Env)
    modifies conn`output
    ensures var a := Attempt(markers, env);
            matched == a.result.Matched? && rest == a.rest && conn.output == old(conn.output) + a.received
  {
    var wrote := env.NextWrite();
    rest := env.AfterWrite();
    if !wrote {
      assert old(conn.output) + "" == conn.output;
      return false, rest;
    }
    var result;
    result, rest := WaitForAnyResponse(conn, markers, rest);
    matched := result.Matched?;
  }

  /** Whether a handshake loop succeeded and the script it left, leaving aside what it received. */
  function Outcome(h: HandshakeRun): (bool, Env)
  {
    (h.ok, h.rest)
  }

  /** An attempt that did not match: the loop goes on with the rest of the script. */
  lemma HandshakeGoesOn(tries: nat, markers: seq<string>, env: Env, before: string)
    requires tries > 0 && !Attempt(markers, env).result.Matched?
    ensures var a := Attempt(markers, env);
            var h := Handshake(tries, markers, env); var h' := Handshake(tries - 1, markers, a.rest);
            && Outcome(h) == Outcome(h')
            && before + h.received == (before + a.received) + h'.received
  {
    var a := Attempt(markers, env);
    var h' := Handshake(tries - 1, markers, a.rest);
    assert before + (a.received + h'.received) == (before + a.received) + h'.received;
  }

  /** The handshake loop on a connection: the text every wait receives is appended to its output. */
  method PerformHandshake(conn: SerialConnection, tries: nat, markers: seq<string>, env: Env)
    returns (ok: bool, rest: Env)
    modifies conn`output
    ensures var h := Handshake(tries, markers, env);
            ok == h.ok && rest == h.rest && conn.output == old(conn.output) + h.received
  {
    var e := env;
    var attempt := 0;
    while attempt < tries
      invariant attempt <= tries
      invariant Outcome(Handshake(tries, markers, env)) == Outcome(Handshake(tries - attempt, markers, e))
      invariant old(conn.output) + Handshake(tries, markers, env).received
             == conn.output + Handshake(tries - attempt, markers, e).received
      decreases tries - attempt
    {
      ghost var before := conn.output;
      var matched, next := TryHandshake(conn, markers, e);
      if matched {
        return true, next;
      }
      HandshakeGoesOn(tries - attempt, markers, e, before);
      e := next;
      attempt := attempt + 1;
    }
    assert conn.output + "" == conn.output;
    return false, e;
  }

  // ---------------------------------------------------------------------------
  // The periodic handshake

  /** How many ticks the periodic handshake handled, whether it started a reconnection, what it received, and the script left. */
  datatype PeriodicRun = PeriodicRun(rounds: nat, reconnect: bool, received: string, rest: Env)

  /** On each of `ticks` timer ticks, run the handshake loop; on the first failure start one reconnection and stop. */
  function Periodic(ticks: nat, tries: nat, markers: seq<string>, env: Env): PeriodicRun
    decreases ticks
  {
    if ticks == 0 then PeriodicRun(0, false, "", env)
    else
      var h := Handshake(tries, markers, env);
      if !h.ok then PeriodicRun(1, true, h.received, h.rest)
      else
        var p := Periodic(ticks - 1, tries, markers, h.rest);
        PeriodicRun(p.rounds + 1, p.reconnect, h.received + p.received, p.rest)
  }

  /**
    The periodic handshake handles every tick while handshakes succeed; it starts
    a reconnection only when one fails, and then it has stopped: later ticks
    change nothing.
   */
  lemma {:induction false} PeriodicStops(ticks: nat, more: nat, tries: nat, markers: seq<string>, env: Env)
    ensures var p := Periodic(ticks, tries, markers, env);
            && p.rounds <= ticks
            && (!p.reconnect ==> p.rounds == ticks)
            && (p.reconnect ==> 1 <= p.rounds && Periodic(ticks + more, tries, markers, env) == p)
    decreases ticks
  {
    if ticks > 0 {
      var h := Handshake(tries, markers, env);
      if h.ok {
        PeriodicStops(ticks - 1, more, tries, markers, h.rest);
      }
    }
  }

  /** A tick whose handshake succeeded: the goroutine goes on with the rest of the script. */
  lemma PeriodicGoesOn(ticks: nat, tries: nat, markers: seq<string>, env: Env, before: string)
    requires ticks > 0 && Handshake(tries, markers, env).ok
    ensures var h := Handshake(tries, markers, env);
            var p := Periodic(ticks, tries, markers, env); var p' := Periodic(ticks - 1, tries, markers, h.rest);
            && p.reconnect == p'.reconnect && p.rest == p'.rest
            && before + p.received == (before + h.received) + p'.received
  {
    var h := Handshake(tries, markers, env);
    var p' := Periodic(ticks - 1, tries, markers, h.rest);
    assert before + (h.received + p'.received) == (before + h.received) + p'.received;
  }

  /** The periodic handshake goroutine over `ticks` ticks of its timer; `reconnect` says it started a reconnection and exited. */
  method PeriodicHandshake(conn: SerialConnection, ticks: nat, tries: nat, markers: seq<string>, env: Env)
    returns (reconnect: bool, rest: Env)
    modifies conn`output
    ensures var p := Periodic(ticks, tries, markers, env);
            reconnect == p.reconnect && rest == p.rest && conn.output == old(conn.output) + p.received
  {
    var e := env;
    var tick := 0;
    while tick < ticks
      invariant tick <= ticks
      invariant Periodic(ticks, tries, markers, env).reconnect == Periodic(ticks - tick, tries, markers, e).reconnect
      invariant Periodic(ticks, tries, markers, env).rest == Periodic(ticks - tick, tries, markers, e).rest
      invariant old(conn.output) + Periodic(ticks, tries, markers, env).received
             == conn.output + Periodic(ticks - tick, tries, markers, e).received
      decreases ticks - tick
    {
      ghost var before := conn.output;
      var ok, next := PerformHandshake(conn, tries, markers, e);
      if !ok {
        return true, next;
      }
      PeriodicGoesOn(ticks - tick, tries, markers, e, before);
      e := next;
      tick := tick + 1;
    }
    assert conn.output + "" == conn.output;
    return false, e;
  }

  // ---------------------------------------------------------------------------
  // The registry of connections

  /** The device IDs of a registry, slot by slot. */
  function Ids(cs: seq<SerialConnection>): (ids: seq<string>)
    reads cs
    ensures |ids| == |cs|
    ensures forall i :: 0 <= i < |cs| ==> ids[i] == cs[i].deviceId
  {
    seq(|cs|, i requires 0 <= i < |cs| reads cs => cs[i].deviceId)
  }

  /** The first position holding `id`, or -1 when there is none. */
  function IndexOf(ids: seq<string>, id: string): (i: int)
    ensures -1 <= i < |ids|
    ensures i >= 0 ==> ids[i] == id && forall j :: 0 <= j < i ==> ids[j] != id
    ensures i == -1 <==> id !in ids
    decreases |ids|
  {
    if ids == [] then -1
    else if ids[0] == id then 0
    else
      var k := IndexOf(ids[1..], id);
      if k < 0 then -1 else k + 1
  }

  /** The loop over the registry: the first slot whose device ID matches, or -1. */
  method FindDevice(connections: array<SerialConnection>, id: string) returns (index: int)
    ensures index == IndexOf(Ids(connections[..]), id)
  {
    var i := 0;
    while i < connections.Length
      invariant 0 <= i <= connections.Length
      invariant forall j :: 0 <= j < i ==> connections[j].deviceId != id
    {
      if connections[i].deviceId == id {
        return i;
      }
      i := i + 1;
    }
    return -1;
  }

  /** A handshake loop only writes and reads: the opens of the script are left as they were. */
  lemma {:induction false} HandshakeKeepsOpens(tries: nat, markers: seq<string>, env: Env)
    ensures Handshake(tries, markers, env).rest.opens == env.opens
    decreases tries
  {
    if tries > 0 {
      var a := Attempt(markers, env);
      if !a.result.Matched? {
        HandshakeKeepsOpens(tries - 1, markers, a.rest);
      }
    }
  }

  /**
    A reconnection's registry update: the first slot whose device ID matches
    takes the new connection; the registry never grows, and without a match it
    is left as it was.
   */
  method ReplaceSlot(connections: array<SerialConnection>, id: string, newConn: SerialConnection)
    returns (index: int)
    modifies connections
    ensures index == old(IndexOf(Ids(connections[..]), id))
    ensures index < 0 ==> connections[..] == old(connections[..])
    ensures index >= 0 ==> connections[..] == old(connections[..])[index := newConn]
  {
    index := FindDevice(connections, id);
    if index >= 0 {
      connections[index] := newConn;
    }
  }

  /**
    The last steps of a reconnection: the new connection takes over the device
    ID, replaces the first registry slot holding that ID, and the old connection
    object is overwritten with it field by field.
   */
  method Install(conn: SerialConnection, connections: array<SerialConnection>, newConn: SerialConnection)
    requires newConn != conn && newConn !in connections[..]
    modifies conn, connections, newConn`deviceId
    ensures conn.port == old(newConn.port) && conn.output == old(newConn.output) && conn.portName == old(newConn.portName)
    ensures conn.deviceId == old(conn.deviceId) && newConn.deviceId == old(conn.deviceId)
    ensures var k := old(IndexOf(Ids(connections[..]), conn.deviceId));
            && (k < 0 ==> connections[..] == old(connections[..]))
            && (k >= 0 ==> connections[..] == old(connections[..])[k := newConn])
  {
    newConn.deviceId := conn.deviceId;
    var k := ReplaceSlot(connections, conn.deviceId, newConn);
    conn.CopyFrom(newConn);
  }
}
