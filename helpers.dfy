/**
  The older device tool (device_helpers/main.go, whose serial code
  device_helpers/serial.go repeats line for line): three opens, a handshake of
  "H" answered by "ACK" or "HEARTBEAT" that every open must pass, a reader that
  forwards raw chunks to a screen-update channel of capacity 100 without ever
  blocking, reconnection, a broadcast with one write per connection and no
  retry, and the screen loop that appends updates to a connection's output.
 */
module Helpers {
  import opened Wrappers
  import opened GoStrings
  import opened Link
  import Console

  /** Opens tried before `openSerialPort` gives up. */
  const OpenTries: nat := 3
  /** Handshake attempts before `performHandshake` gives up. */
  const HandshakeTries: nat := 3
  /** The replies that complete a handshake. */
  const HandshakeMarkers: seq<string> := ["ACK", "HEARTBEAT"]
  /** The screen-update channel's buffer. */
  const QueueCapacity: nat := 100

  // ---------------------------------------------------------------------------
  // Opening a port

  /** The port an open produced (none on failure), the text its handshake received, and the script left. */
  datatype Opening = Opening(port: Port, received: string, rest: Env)

  /** `openSerialPort`: up to three opens, then the handshake; a failed handshake closes the port and fails the open. */
  function Open(env: Env): Opening
  {
    var r := RetryOpenSpec(OpenTries, env);
    if r.port.NoPort? then Opening(NoPort, "", r.rest)
    else
      var h := Handshake(HandshakeTries, HandshakeMarkers, r.rest);
      if h.ok then Opening(r.port, h.received, h.rest) else Opening(NoPort, "", h.rest)
  }

  /**
    An open makes at most three attempts and fails without exchanging anything
    after three failures; it yields a port only when one of them opened it AND
    the handshake on that port then received "ACK" or "HEARTBEAT"; a failed
    handshake fails the whole open.
   */
  lemma OpenNeedsHandshake(env: Env)
    ensures var o := Open(env); var r := RetryOpenSpec(OpenTries, env);
            && r.attempts <= 3
            && (r.port.NoPort? ==> r.attempts == 3 && o.port.NoPort?
                                   && o.rest.writes == env.writes && o.rest.inbound == env.inbound)
            && (o.port.Handle? ==> o.port == r.port && Handshake(HandshakeTries, HandshakeMarkers, r.rest).ok
                                   && (Contains(o.received, "ACK") || Contains(o.received, "HEARTBEAT")))
            && (r.port.Handle? && !Handshake(HandshakeTries, HandshakeMarkers, r.rest).ok ==> o.port.NoPort?)
  {
    RetryOpenBounds(OpenTries, env);
    RetryOpenRest(OpenTries, env);
    var r := RetryOpenSpec(OpenTries, env);
    HandshakeBounds(HandshakeTries, HandshakeMarkers, r.rest);
  }

  /** An open uses up at least one scripted open whenever any is left. */
  lemma OpenConsumes(env: Env)
    requires env.opens != []
    ensures |Open(env).rest.opens| < |env.opens|
  {
    RetryOpenRest(OpenTries, env);
    RetryOpenBounds(OpenTries, env);
    var r := RetryOpenSpec(OpenTries, env);
    HandshakeKeepsOpens(HandshakeTries, HandshakeMarkers, r.rest);
  }

  /** `openSerialPort`: a connection for the port with the handshake's text as its output, or none. */
  method OpenSerialPort(portName: string, env: Env) returns (conn: SerialConnection?, rest: Env)
    ensures var o := Open(env);
            && (conn != null <==> o.port.Handle?)
            && rest == o.rest
            && (conn != null ==> fresh(conn) && conn.port == o.port && conn.deviceId == ""
                                 && conn.output == o.received && conn.portName == portName)
  {
    var port, attempts, e := RetryOpen(OpenTries, env);
    if port.NoPort? {
      return null, e;
    }
    conn := new SerialConnection(port, "", "", portName);
    var ok;
    ok, rest := Link.PerformHandshake(conn, HandshakeTries, HandshakeMarkers, e);
    assert "" + conn.output == conn.output;
    if !ok {
      return null, rest;
    }
  }

  // ---------------------------------------------------------------------------
  // Handshakes

  /** `performHandshake`: up to three "H" writes, each followed by a wait for "ACK" or "HEARTBEAT". */
  method PerformHandshake(conn: SerialConnection, env: Env) returns (ok: bool, rest: Env)
    modifies conn`output
    ensures var h := Handshake(HandshakeTries, HandshakeMarkers, env);
            ok == h.ok && rest == h.rest && conn.output == old(conn.output) + h.received
  {
    ok, rest := Link.PerformHandshake(conn, HandshakeTries, HandshakeMarkers, env);
  }

  /**
    The handshake makes at most three attempts, errors only after all three,
    and succeeds only once a chunk with "ACK" or "HEARTBEAT" has arrived.
   */
  lemma HandshakeThreeTries(env: Env)
    ensures var h := Handshake(HandshakeTries, HandshakeMarkers, env);
            && h.attempts <= 3
            && (!h.ok ==> h.attempts == 3)
            && (h.ok ==> 1 <= h.attempts && (Contains(h.received, "ACK") || Contains(h.received, "HEARTBEAT")))
  {
    HandshakeBounds(HandshakeTries, HandshakeMarkers, env);
  }

  /** `periodicHandshake` over `ticks` ticks: `reconnect` says it started a reconnection and exited. */
  method PeriodicHandshake(conn: SerialConnection, ticks: nat, env: Env) returns (reconnect: bool, rest: Env)
    modifies conn`output
    ensures var p := Periodic(ticks, HandshakeTries, HandshakeMarkers, env);
            reconnect == p.reconnect && rest == p.rest && conn.output == old(conn.output) + p.received
  {
    reconnect, rest := Link.PeriodicHandshake(conn, ticks, HandshakeTries, HandshakeMarkers, env);
  }

  /**
    The periodic handshake starts a reconnection only after a handshake failed,
    and then it has exited: the tick that failed was its last, so more ticks
    change nothing.
   */
  lemma PeriodicExitsOnFailure(ticks: nat, more: nat, env: Env)
    ensures var p := Periodic(ticks, HandshakeTries, HandshakeMarkers, env);
            && (p.reconnect ==> 1 <= p.rounds <= ticks && Periodic(ticks + more, HandshakeTries, HandshakeMarkers, env) == p)
            && (!p.reconnect ==> p.rounds == ticks)
  {
    PeriodicStops(ticks, more, HandshakeTries, HandshakeMarkers, env);
  }

  // ---------------------------------------------------------------------------
  // The screen-update channel

  /** A send that never blocks: the update joins the queue if there is room, and is dropped otherwise. */
  function Offer(queue: seq<ScreenUpdate>, capacity: nat, u: ScreenUpdate): seq<ScreenUpdate>
  {
    if |queue| < capacity then queue + [u] else queue
  }

  /** `screenUpdateChan`: a buffered channel that readers send to without blocking. */
  class UpdateChannel {
    var buffered: seq<ScreenUpdate>
    const capacity: nat

    ghost predicate Valid()
      reads this
    {
      |buffered| <= capacity
    }

    /** `make(chan ScreenUpdate, capacity)`. */
    constructor (capacity: nat)
      ensures Valid() && this.capacity == capacity && buffered == []
    {
      this.capacity := capacity;
      buffered := [];
    }

    /** `select { case ch <- u: default: }`: `sent` says the update was queued rather than dropped. */
    method TrySend(u: ScreenUpdate) returns (sent: bool)
      requires Valid()
      modifies this`buffered
      ensures Valid()
      ensures sent == (|old(buffered)| < capacity)
      ensures buffered == Offer(old(buffered), capacity, u)
    {
      sent := |buffered| < capacity;
      if sent {
        buffered := buffered + [u];
      }
    }

    /** One receive: the oldest buffered update, or none when the channel is empty. */
    method Receive() returns (u: Option<ScreenUpdate>)
      requires Valid()
      modifies this`buffered
      ensures Valid()
      ensures old(buffered) == [] ==> u == None && buffered == []
      ensures old(buffered) != [] ==> u == Some(old(buffered)[0]) && buffered == old(buffered)[1..]
    {
      if buffered == [] {
        return None;
      }
      u := Some(buffered[0]);
      buffered := buffered[1..];
    }
  }

  // ---------------------------------------------------------------------------
  // The reader

  /** The queue a reader leaves, the updates it dropped, whether it started a reconnection, and the script left. */
  datatype ReaderRun = ReaderRun(queue: seq<ScreenUpdate>, dropped: nat, reconnect: bool, rest: Env)

  /**
    `readSerialOutput`: a nil port or a failed read starts one reconnection and
    ends the reader; every non-empty chunk is offered, raw, to the channel.
   */
  function Reader(id: string, port: Port, capacity: nat, queue: seq<ScreenUpdate>, env: Env): ReaderRun
    decreases |env.inbound|
  {
    if port.NoPort? then ReaderRun(queue, 0, true, env)
    else if env.inbound == [] then ReaderRun(queue, 0, false, env)
    else
      var next := env.AfterRead();
      match env.inbound[0]
      case ReadFailed => ReaderRun(queue, 0, true, next)
      case TimedOut => Reader(id, port, capacity, queue, next)
      case Chunk(d) =>
        if d == [] then Reader(id, port, capacity, queue, next)
        else
          var r := Reader(id, port, capacity, Offer(queue, capacity, ScreenUpdate(id, d)), next);
          ReaderRun(r.queue, r.dropped + (if |queue| < capacity then 0 else 1), r.reconnect, r.rest)
  }

  /** The updates a reader sends: one per non-empty chunk, in order, up to the first failed read. */
  function Sent(id: string, rs: seq<ReadOutcome>): seq<ScreenUpdate>
  {
    if rs == [] || rs[0].ReadFailed? then []
    else (if rs[0].Chunk? && rs[0].data != [] then [ScreenUpdate(id, rs[0].data)] else []) + Sent(id, rs[1..])
  }

  /** The first `n` elements of `s`, or all of it when it is shorter. */
  function Take<T>(s: seq<T>, n: int): (t: seq<T>)
    ensures |t| <= |s| && t == s[..|t|]
    ensures |t| == if n <= 0 then 0 else if n >= |s| then |s| else n
  {
    if n <= 0 then [] else if n >= |s| then s else s[..n]
  }

  /**
    With nobody draining the channel, a reader keeps exactly the first updates
    that fit: the queue it leaves is the old queue followed by as many of its
    updates as there was room for, never more than the capacity, and every
    other update was dropped.
   */
  lemma {:induction false} ReaderFillsQueue(id: string, port: Port, capacity: nat, queue: seq<ScreenUpdate>, env: Env)
    requires port.Handle? && |queue| <= capacity
    ensures var r := Reader(id, port, capacity, queue, env);
            var sent := Sent(id, env.inbound);
            && r.queue == queue + Take(sent, capacity - |queue|)
            && |r.queue| <= capacity
            && r.dropped == |sent| - |Take(sent, capacity - |queue|)|
    decreases |env.inbound|
  {
    if env.inbound == [] || env.inbound[0].ReadFailed? {
      ReaderStops(id, port, capacity, queue, env);
    } else {
      var o := env.inbound[0];
      if o.Chunk? && o.data != [] {
        ReaderFillsQueue(id, port, capacity, Offer(queue, capacity, ScreenUpdate(id, o.data)), env.AfterRead());
        FillsAfterChunk(id, port, capacity, queue, env);
      } else {
        ReaderFillsQueue(id, port, capacity, queue, env.AfterRead());
        FillsAfterSkip(id, port, capacity, queue, env);
      }
    }
  }

  /** What `ReaderFillsQueue` states about one reader run. */
  predicate KeepsFirstThatFit(id: string, port: Port, capacity: nat, queue: seq<ScreenUpdate>, env: Env)
  {
    var r := Reader(id, port, capacity, queue, env);
    var sent := Sent(id, env.inbound);
    && r.queue == queue + Take(sent, capacity - |queue|)
    && |r.queue| <= capacity
    && r.dropped == |sent| - |Take(sent, capacity - |queue|)|
  }

  /** The inductive step of `ReaderFillsQueue` for a non-empty chunk, which is offered to the channel. */
  lemma FillsAfterChunk(id: string, port: Port, capacity: nat, queue: seq<ScreenUpdate>, env: Env)
    requires port.Handle? && |queue| <= capacity
    requires env.inbound != [] && env.inbound[0].Chunk? && env.inbound[0].data != []
    requires KeepsFirstThatFit(id, port, capacity, Offer(queue, capacity, ScreenUpdate(id, env.inbound[0].data)), env.AfterRead())
    ensures KeepsFirstThatFit(id, port, capacity, queue, env)
  {
    ReaderChunkStep(id, port, capacity, queue, env);
    SentStep(id, env.inbound);
    if |queue| < capacity {
      ChunkWithRoom(id, queue, capacity, env.inbound[0].data, Sent(id, env.AfterRead().inbound));
    } else {
      ChunkWhenFull(id, queue, capacity, env.inbound[0].data, Sent(id, env.AfterRead().inbound));
    }
  }

  /** A chunk offered while the channel has room joins the queue and is among the updates kept. */
  lemma ChunkWithRoom(id: string, queue: seq<ScreenUpdate>, capacity: nat, d: seq<char>, rest: seq<ScreenUpdate>)
    requires |queue| < capacity
    ensures var u := ScreenUpdate(id, d);
            var q := Offer(queue, capacity, u);
            && q + Take(rest, capacity - |q|) == queue + Take([u] + rest, capacity - |queue|)
            && |rest| - |Take(rest, capacity - |q|)| == |[u] + rest| - |Take([u] + rest, capacity - |queue|)|
  {
    var u := ScreenUpdate(id, d);
    TakeCons(u, rest, capacity - |queue|);
    assert (queue + [u]) + Take(rest, capacity - |queue| - 1) == queue + ([u] + Take(rest, capacity - |queue| - 1));
  }

  /** A chunk offered to a full channel is dropped, and nothing after it is kept either. */
  lemma ChunkWhenFull(id: string, queue: seq<ScreenUpdate>, capacity: nat, d: seq<char>, rest: seq<ScreenUpdate>)
    requires |queue| >= capacity
    ensures var u := ScreenUpdate(id, d);
            var q := Offer(queue, capacity, u);
            && q + Take(rest, capacity - |q|) == queue + Take([u] + rest, capacity - |queue|)
            && |rest| - |Take(rest, capacity - |q|)| + 1 == |[u] + rest| - |Take([u] + rest, capacity - |queue|)|
  {
  }

  /** The reader over a non-empty chunk: the chunk is offered, and a full channel counts one more dropped update. */
  lemma ReaderChunkStep(id: string, port: Port, capacity: nat, queue: seq<ScreenUpdate>, env: Env)
    requires port.Handle? && env.inbound != [] && env.inbound[0].Chunk? && env.inbound[0].data != []
    ensures var r := Reader(id, port, capacity, queue, env);
            var r' := Reader(id, port, capacity, Offer(queue, capacity, ScreenUpdate(id, env.inbound[0].data)), env.AfterRead());
            r.queue == r'.queue && r.dropped == r'.dropped + (if |queue| < capacity then 0 else 1)
  {
  }

  /** Taking a positive number of elements from a non-empty sequence keeps its head. */
  lemma TakeCons<T>(u: T, rest: seq<T>, n: int)
    requires n > 0
    ensures Take([u] + rest, n) == [u] + Take(rest, n - 1)
  {
    if n - 1 < |rest| {
      assert ([u] + rest)[..n] == [u] + rest[..n - 1];
    }
  }

  /** The inductive step of `ReaderFillsQueue` for a timeout or an empty chunk, which sends nothing. */
  lemma FillsAfterSkip(id: string, port: Port, capacity: nat, queue: seq<ScreenUpdate>, env: Env)
    requires port.Handle? && |queue| <= capacity
    requires env.inbound != [] && !env.inbound[0].ReadFailed? && !(env.inbound[0].Chunk? && env.inbound[0].data != [])
    requires KeepsFirstThatFit(id, port, capacity, queue, env.AfterRead())
    ensures KeepsFirstThatFit(id, port, capacity, queue, env)
  {
    ReaderGoesOn(id, port, capacity, queue, env, 0);
    SentStep(id, env.inbound);
    assert [] + Sent(id, env.AfterRead().inbound) == Sent(id, env.AfterRead().inbound);
  }

  /** A reader whose script is used up or whose next read fails leaves the queue alone and sends nothing. */
  lemma ReaderStops(id: string, port: Port, capacity: nat, queue: seq<ScreenUpdate>, env: Env)
    requires port.Handle? && (env.inbound == [] || env.inbound[0].ReadFailed?)
    ensures Reader(id, port, capacity, queue, env).queue == queue && Reader(id, port, capacity, queue, env).dropped == 0
    ensures Sent(id, env.inbound) == []
  {
  }

  /** The updates sent from a read that neither fails nor ends the script, then from the reads after it. */
  lemma SentStep(id: string, rs: seq<ReadOutcome>)
    requires rs != [] && !rs[0].ReadFailed?
    ensures Sent(id, rs) == (if rs[0].Chunk? && rs[0].data != [] then [ScreenUpdate(id, rs[0].data)] else []) + Sent(id, rs[1..])
  {
  }

  /** The reader starts a reconnection exactly when its port is nil or one of its reads fails. */
  lemma {:induction false} ReaderReconnects(id: string, port: Port, capacity: nat, queue: seq<ScreenUpdate>, env: Env)
    ensures var r := Reader(id, port, capacity, queue, env);
            && (r.reconnect <==> port.NoPort? || ReadFailed in env.inbound)
            && (!r.reconnect ==> r.rest.inbound == [])
    decreases |env.inbound|
  {
    if port.Handle? && env.inbound != [] && !env.inbound[0].ReadFailed? {
      var next := env.AfterRead();
      assert env.inbound == [env.inbound[0]] + next.inbound;
      var o := env.inbound[0];
      if o.Chunk? && o.data != [] {
        ReaderReconnects(id, port, capacity, Offer(queue, capacity, ScreenUpdate(id, o.data)), next);
      } else {
        ReaderReconnects(id, port, capacity, queue, next);
      }
    }
  }

  /** A read that neither fails nor ends the reader: the reader goes on with the rest of the script. */
  lemma ReaderGoesOn(id: string, port: Port, capacity: nat, queue: seq<ScreenUpdate>, env: Env, dropped: nat)
    requires port.Handle? && env.inbound != [] && !env.inbound[0].ReadFailed?
    ensures var o := env.inbound[0];
            var full := o.Chunk? && o.data != [] && |queue| >= capacity;
            var q := if o.Chunk? && o.data != [] then Offer(queue, capacity, ScreenUpdate(id, o.data)) else queue;
            var r := Reader(id, port, capacity, queue, env);
            var r' := Reader(id, port, capacity, q, env.AfterRead());
            r.(dropped := r.dropped + dropped) == r'.(dropped := r'.dropped + dropped + (if full then 1 else 0))
  {
  }

  /**
    The reader goroutine: it sends raw chunks to the channel and never touches
    the connection's output; `dropped` counts the warnings logged for a full
    channel.
   */
  method ReadSerialOutput(conn: SerialConnection, channel: UpdateChannel, env: Env)
    returns (dropped: nat, reconnect: bool, rest: Env)
    requires channel.Valid()
    modifies channel`buffered
    ensures channel.Valid()
    ensures var r := Reader(conn.deviceId, conn.port, channel.capacity, old(channel.buffered), env);
            channel.buffered == r.queue && dropped == r.dropped && reconnect == r.reconnect && rest == r.rest
  {
    ghost var spec := Reader(conn.deviceId, conn.port, channel.capacity, channel.buffered, env);
    var e := env;
    dropped := 0;
    while true
      invariant channel.Valid()
      invariant var r := Reader(conn.deviceId, conn.port, channel.capacity, channel.buffered, e);
                spec == r.(dropped := r.dropped + dropped)
      decreases |e.inbound|
    {
      if conn.port.NoPort? {
        return dropped, true, e;
      }
      if e.inbound == [] {
        return dropped, false, e;
      }
      var next := e.AfterRead();
      var outcome := e.inbound[0];
      if outcome.ReadFailed? {
        return dropped, true, next;
      }
      ReaderGoesOn(conn.deviceId, conn.port, channel.capacity, channel.buffered, e, dropped);
      if outcome.Chunk? && outcome.data != [] {
        var sent := channel.TrySend(ScreenUpdate(conn.deviceId, outcome.data));
        if !sent {
          dropped := dropped + 1;
        }
      }
      e := next;
    }
  }

  // ---------------------------------------------------------------------------
  // Reconnection

  /** `attemptReconnection`'s loop: `openSerialPort` again and again until it succeeds (or the script of opens runs out). */
  function Reconnect(env: Env): Opening
    decreases |env.opens|
  {
    var o := Open(env);
    if o.port.Handle? || env.opens == [] then o
    else
      OpenConsumes(env);
      Reconnect(o.rest)
  }

  /**
    Reconnection never gives up while there is anything left to open: it ends
    without a port only once every scripted open is used, and a port it ends
    with passed the handshake.
   */
  lemma {:induction false} ReconnectUntilOpened(env: Env)
    ensures var o := Reconnect(env);
            && (o.port.NoPort? ==> o.rest.opens == [])
            && (o.port.Handle? ==> Contains(o.received, "ACK") || Contains(o.received, "HEARTBEAT"))
    decreases |env.opens|
  {
    var o := Open(env);
    OpenNeedsHandshake(env);
    if o.port.NoPort? {
      if env.opens == [] {
        RetryOpenExhausted(OpenTries, env);
      } else {
        OpenConsumes(env);
        ReconnectUntilOpened(o.rest);
      }
    }
  }

  /** With no opens left, an open fails and consumes nothing. */
  lemma OpenExhausted(env: Env)
    requires env.opens == []
    ensures Open(env) == Opening(NoPort, "", env)
  {
    RetryOpenExhausted(OpenTries, env);
  }

  /**
    `attemptReconnection`: reopen the port until that succeeds; the new
    connection keeps the device ID and port name, takes the first registry slot
    with that device ID (the registry never grows), and the connection itself is
    overwritten with it, so its output is what the new handshake received.
   */
  method AttemptReconnection(conn: SerialConnection, connections: array<SerialConnection>, env: Env)
    returns (reconnected: bool, rest: Env)
    modifies conn, connections
    ensures reconnected == Reconnect(env).port.Handle? && rest == Reconnect(env).rest
    ensures !reconnected ==> unchanged(conn) && unchanged(connections)
    ensures conn.deviceId == old(conn.deviceId) && conn.portName == old(conn.portName)
    ensures reconnected ==> conn.port == Reconnect(env).port && conn.output == Reconnect(env).received
    ensures var k := old(IndexOf(Ids(connections[..]), conn.deviceId));
            reconnected ==>
              && (k < 0 ==> connections[..] == old(connections[..]))
              && (k >= 0 ==> connections[..] == old(connections[..])[k := connections[k]]
                             && fresh(connections[k]) && connections[k].port == conn.port
                             && connections[k].deviceId == conn.deviceId
                             && connections[k].output == conn.output
                             && connections[k].portName == conn.portName)
  {
    var newConn;
    newConn, rest := Reopen(conn.portName, env);
    if newConn == null {
      return false, rest;
    }
    Install(conn, connections, newConn);
    reconnected := true;
  }

  /** The loop of `attemptReconnection`: `openSerialPort` on the same port name until it gives a connection. */
  method Reopen(portName: string, env: Env) returns (newConn: SerialConnection?, rest: Env)
    ensures var r := Reconnect(env);
            && (newConn != null <==> r.port.Handle?)
            && rest == r.rest
            && (newConn != null ==> fresh(newConn) && newConn.port == r.port && newConn.deviceId == ""
                                    && newConn.output == r.received && newConn.portName == portName)
  {
    var e := env;
    while true
      invariant Reconnect(env) == Reconnect(e)
      decreases |e.opens|
    {
      newConn, rest := OpenSerialPort(portName, e);
      if newConn != null {
        return;
      }
      if e.opens == [] {
        OpenExhausted(e);
        return;
      }
      OpenConsumes(e);
      e := rest;
    }
  }

  // ---------------------------------------------------------------------------
  // Commands

  /** `sendCommandToAll`: one write of the command and a newline to every connection, in order; a failed write is only logged. */
  method SendCommandToAll(connections: array<SerialConnection>, command: string, env: Env)
    returns (log: seq<Written>, rest: Env)
    ensures |log| == connections.Length
    ensures forall i :: 0 <= i < connections.Length ==> log[i] == Written(connections[i].port, command + "\n")
    ensures rest == env.(writes := env.writes[Min(connections.Length, |env.writes|)..])
  {
    var e := env;
    log := [];
    var i := 0;
    while i < connections.Length
      invariant 0 <= i <= connections.Length
      invariant |log| == i
      invariant forall j :: 0 <= j < i ==> log[j] == Written(connections[j].port, command + "\n")
      invariant e == env.(writes := env.writes[Min(i, |env.writes|)..])
    {
      var ok := e.NextWrite();
      log := log + [Written(connections[i].port, command + "\n")];
      e := e.AfterWrite();
      i := i + 1;
    }
    rest := e;
  }

  // ---------------------------------------------------------------------------
  // The screen loop

  /**
    One update handled by `screenUpdateLoop`: the first connection with the
    update's device ID gets the text appended and its output trimmed to the
    last 100 lines; an update for an unknown device changes nothing.
   */
  method ApplyUpdate(connections: array<SerialConnection>, update: ScreenUpdate) returns (k: int)
    modifies if IndexOf(Ids(connections[..]), update.deviceId) >= 0
             then {connections[IndexOf(Ids(connections[..]), update.deviceId)]} else {}
    ensures k == old(IndexOf(Ids(connections[..]), update.deviceId))
    ensures k >= 0 ==> && connections[k].output == Console.LimitOutputBuffer(old(connections[k].output) + update.output)
                       && connections[k].port == old(connections[k].port)
                       && connections[k].deviceId == old(connections[k].deviceId)
                       && connections[k].portName == old(connections[k].portName)
  {
    k := FindDevice(connections, update.deviceId);
    if k >= 0 {
      var conn := connections[k];
      conn.output := Console.LimitOutputBuffer(conn.output + update.output);
    }
  }

  /** One turn of `screenUpdateLoop` that finds an update waiting: take it from the channel and apply it. */
  method ScreenUpdateStep(channel: UpdateChannel, connections: array<SerialConnection>) returns (k: int)
    requires channel.Valid()
    modifies channel`buffered
    modifies if channel.buffered != [] && IndexOf(Ids(connections[..]), channel.buffered[0].deviceId) >= 0
             then {connections[IndexOf(Ids(connections[..]), channel.buffered[0].deviceId)]} else {}
    ensures channel.Valid()
    ensures old(channel.buffered) == [] ==> k == -1 && channel.buffered == []
    ensures old(channel.buffered) != [] ==>
              var u := old(channel.buffered)[0];
              && channel.buffered == old(channel.buffered)[1..]
              && k == old(IndexOf(Ids(connections[..]), channel.buffered[0].deviceId))
              && (k >= 0 ==> connections[k].output == Console.LimitOutputBuffer(old(connections[k].output) + u.output))
  {
    var u := channel.Receive();
    if u.None? {
      return -1;
    }
    k := ApplyUpdate(connections, u.value);
  }

  // ---------------------------------------------------------------------------
  // The cursor over the connections and the broadcast line

  /** The entry after Tab: the next one, wrapping from the broadcast line to the first connection. */
  function NextEntry(index: int, n: nat): int
  {
    (index + 1) % (n + 1)
  }

  /** The entry after Shift+Tab or Backtab: the previous one, wrapping from the first connection to the broadcast line. */
  function PrevEntry(index: int, n: nat): int
  {
    (index - 1 + n + 1) % (n + 1)
  }

  /** Both moves stay within the `n + 1` entries (the connections and the broadcast line), and each undoes the other. */
  lemma CursorStaysOnEntries(index: int, n: nat)
    requires 0 <= index < n + 1
    ensures 0 <= NextEntry(index, n) < n + 1 && 0 <= PrevEntry(index, n) < n + 1
    ensures PrevEntry(NextEntry(index, n), n) == index
    ensures NextEntry(PrevEntry(index, n), n) == index
  {
    Console.Wrap(index + 1, n + 1);
    Console.Wrap(index - 1 + n + 1, n + 1);
    Console.Wrap(NextEntry(index, n) - 1 + n + 1, n + 1);
    Console.Wrap(PrevEntry(index, n) + 1, n + 1);
  }

  /** The selected entry among `count` connections and the broadcast line. */
  class Selection {
    var currentPortIndex: int
    const count: nat

    ghost predicate Valid()
      reads this
    {
      0 <= currentPortIndex < count + 1
    }

    constructor (count: nat)
      ensures Valid() && this.count == count && currentPortIndex == 0
    {
      this.count := count;
      currentPortIndex := 0;
    }

    /** Tab selects the next entry, Shift+Tab the previous one. */
    method Tab(shift: bool)
      requires Valid()
      modifies this`currentPortIndex
      ensures Valid()
      ensures currentPortIndex == if shift then PrevEntry(old(currentPortIndex), count)
                                  else NextEntry(old(currentPortIndex), count)
    {
      CursorStaysOnEntries(currentPortIndex, count);
      if shift {
        currentPortIndex := (currentPortIndex - 1 + count + 1) % (count + 1);
      } else {
        currentPortIndex := (currentPortIndex + 1) % (count + 1);
      }
    }

    /** Backtab selects the previous entry. */
    method Backtab()
      requires Valid()
      modifies this`currentPortIndex
      ensures Valid()
      ensures currentPortIndex == PrevEntry(old(currentPortIndex), count)
    {
      CursorStaysOnEntries(currentPortIndex, count);
      currentPortIndex := (currentPortIndex - 1 + count + 1) % (count + 1);
    }
  }
}
