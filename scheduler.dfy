/**
  The motor pattern scheduler (device_commander/motors/scheduler.go): every
  segment of a pattern becomes one speed command to the motor's connection, sent
  at the pattern's start time plus the durations of the segments before it.
  Times are integers in milliseconds; speeds are integers in hundredths, so the
  two-decimal command text is exact.
 */
module Scheduler {
  import opened Wrappers
  import opened Link
  import opened Comms
  import GoStrings

  /** One step of a pattern: how long it lasts, in milliseconds, and the motor speed, in hundredths. */
  datatype Segment = Segment(duration: int, speed: int)

  /** A pattern drives one motor, named by its index in the registry, through its segments. */
  datatype Pattern = Pattern(motorId: int, segments: seq<Segment>)

  // ---------------------------------------------------------------------------
  // The speed command text

  function DigitChar(d: nat): (c: char)
    requires d < 10
    ensures DigitValue(c) == d
  {
    (48 + d) as char
  }

  function DigitValue(c: char): int
  {
    c as int - 48
  }

  /** The decimal digits of `n`, without leading zeros ("0" for zero). */
  function NatDigits(n: nat): (s: string)
    ensures |s| >= 1
    ensures forall i :: 0 <= i < |s| ==> '0' <= s[i] <= '9'
    ensures |s| > 1 ==> s[0] != '0'
    ensures s == "0" <==> n == 0
    decreases n
  {
    if n < 10 then [DigitChar(n)] else NatDigits(n / 10) + [DigitChar(n % 10)]
  }

  /** The number a string of decimal digits spells. */
  function DigitsValue(s: string): int
    decreases |s|
  {
    if s == [] then 0 else DigitsValue(s[..|s| - 1]) * 10 + DigitValue(s[|s| - 1])
  }

  /** Reading back the digits of a number gives the number. */
  lemma {:induction false} DigitsRoundTrip(n: nat)
    ensures DigitsValue(NatDigits(n)) == n
    decreases n
  {
    var s := NatDigits(n);
    if n < 10 {
      assert s[..0] == [];
    } else {
      DigitsRoundTrip(n / 10);
      assert s[..|s| - 1] == NatDigits(n / 10);
    }
  }

  /** `fmt.Sprintf("%.2f", v)` for a speed of `h` hundredths: sign, whole part, point, two decimals. */
  function FormatSpeed(h: int): (s: string)
    ensures |s| >= 4 && s[|s| - 3] == '.'
    ensures s[0] == '-' <==> h < 0
  {
    var a := if h < 0 then -h else h;
    (if h < 0 then "-" else "") + NatDigits(a / 100) + "." + [DigitChar(a % 100 / 10), DigitChar(a % 100 % 10)]
  }

  /** The speed a two-decimal text stands for, in hundredths. */
  function SpeedValue(s: string): int
    requires |s| >= 4
  {
    if s[0] == '-' then -Magnitude(s[1..]) else Magnitude(s)
  }

  /** The hundredths an unsigned two-decimal text stands for. */
  function Magnitude(u: string): int
  {
    if |u| >= 3 then DigitsValue(u[..|u| - 3]) * 100 + DigitsValue(u[|u| - 2..]) else 0
  }

  /** Two digits read back as the two-digit number they spell. */
  lemma TwoDigits(x: nat, y: nat)
    requires x < 10 && y < 10
    ensures DigitsValue([DigitChar(x), DigitChar(y)]) == x * 10 + y
  {
    var t := [DigitChar(x), DigitChar(y)];
    assert t[..1] == [DigitChar(x)];
    assert [DigitChar(x)][..0] == [];
    assert DigitsValue([DigitChar(x)]) == x;
  }

  /** A whole part and two decimals read back as the number of hundredths they spell. */
  lemma MagnitudeRoundTrip(w: nat, x: nat, y: nat)
    requires x < 10 && y < 10
    ensures var u := NatDigits(w) + "." + [DigitChar(x), DigitChar(y)];
            |u| >= 4 && u[0] != '-' && Magnitude(u) == w * 100 + x * 10 + y
  {
    var whole := NatDigits(w);
    var frac := [DigitChar(x), DigitChar(y)];
    var u := whole + "." + frac;
    assert u[..|u| - 3] == whole;
    assert u[|u| - 2..] == frac;
    DigitsRoundTrip(w);
    TwoDigits(x, y);
  }

  /** A number of hundredths splits into its whole part, tenths and hundredths. */
  lemma Hundredths(a: nat)
    ensures (a / 100) * 100 + (a % 100 / 10) * 10 + a % 100 % 10 == a
  {
    var r := a % 100;
    assert a == (a / 100) * 100 + r;
    assert r == (r / 10) * 10 + r % 10;
  }

  /** The command text gives back the exact speed it was made from. */
  lemma SpeedRoundTrip(h: int)
    ensures SpeedValue(FormatSpeed(h)) == h
  {
    var a := if h < 0 then -h else h;
    var w, x, y := a / 100, a % 100 / 10, a % 100 % 10;
    var u := NatDigits(w) + "." + [DigitChar(x), DigitChar(y)];
    MagnitudeRoundTrip(w, x, y);
    Hundredths(a);
    assert Magnitude(u) == a;
    if h < 0 {
      assert FormatSpeed(h) == "-" + u;
      SignedValue(u);
    } else {
      assert FormatSpeed(h) == u;
    }
  }

  /** A minus sign in front of an unsigned text negates its value. */
  lemma SignedValue(u: string)
    requires |u| >= 4
    ensures SpeedValue("-" + u) == -Magnitude(u)
  {
    assert ("-" + u)[1..] == u;
  }

  /** `MoveMotor`'s command: "M" and the speed to two decimals. */
  function MotorCommand(speed: int): string
  {
    "M" + FormatSpeed(speed)
  }

  // ---------------------------------------------------------------------------
  // MoveMotor

  /** Whether a motor ID names a registry slot. */
  predicate ValidMotor(motorId: int, count: nat)
  {
    0 <= motorId < count
  }

  /**
    `MoveMotor`: an ID outside the registry is an error and sends nothing;
    otherwise exactly one `SendCommand` of the speed command to the connection
    at that index.
   */
  method MoveMotor(motorId: int, speed: int, connections: array<SerialConnection>, env: Env)
    returns (ok: bool, log: seq<Written>, rest: Env)
    modifies if ValidMotor(motorId, connections.Length) then {connections[motorId]} else {}
    ensures ok <==> ValidMotor(motorId, connections.Length)
    ensures !ok ==> log == [] && rest == env
    ensures ok ==> var c := SendOnce(connections[motorId].port, MotorCommand(speed) + "\n", env);
                   && log == c.log && rest == c.rest && connections[motorId].output == c.response
                   && connections[motorId].port == old(connections[motorId].port)
  {
    var command := MotorCommand(speed);
    if motorId < 0 || motorId >= connections.Length {
      return false, [], env;
    }
    log, rest := SendCommand(connections, motorId, command, env);
    ok := true;
  }

  // ---------------------------------------------------------------------------
  // The schedule

  /** The time the first `n` segments take together, in milliseconds. */
  function Elapsed(segments: seq<Segment>, n: nat): int
    requires n <= |segments|
    decreases n
  {
    if n == 0 then 0 else Elapsed(segments, n - 1) + segments[n - 1].duration
  }

  /** When each of the first `n` segments' commands is due, computed segment after segment as the loop does. */
  function StartTimes(start: int, segments: seq<Segment>, n: nat): (ts: seq<int>)
    requires n <= |segments|
    ensures |ts| == n
    decreases n
  {
    if n == 0 then [] else StartTimes(start, segments, n - 1) + [start + Elapsed(segments, n - 1)]
  }

  /** One more segment: its start is due after all the segments before it, and the elapsed time grows by its duration. */
  lemma StartTimesNext(start: int, segments: seq<Segment>, i: nat)
    requires i < |segments|
    ensures StartTimes(start, segments, i + 1) == StartTimes(start, segments, i) + [start + Elapsed(segments, i)]
    ensures Elapsed(segments, i + 1) == Elapsed(segments, i) + segments[i].duration
  {
  }

  /**
    The schedule does not drift: every segment is due at the one start time plus
    the durations of the segments before it, so the first is due at the start.
   */
  lemma {:induction false} StartTimesFromOrigin(start: int, segments: seq<Segment>, n: nat)
    requires n <= |segments|
    ensures var ts := StartTimes(start, segments, n);
            && (forall k :: 0 <= k < n ==> ts[k] == start + Elapsed(segments, k))
            && (n > 0 ==> ts[0] == start)
    decreases n
  {
    if n > 0 {
      var prev := StartTimes(start, segments, n - 1);
      var ts := StartTimes(start, segments, n);
      StartTimesFromOrigin(start, segments, n - 1);
      GoStrings.Snoc(prev, start + Elapsed(segments, n - 1));
      forall k | 0 <= k < n ensures ts[k] == start + Elapsed(segments, k) {
        if k < n - 1 {
          assert ts[k] == prev[k];
        }
      }
    }
  }

  /** Consecutive commands are due exactly the earlier segment's duration apart. */
  lemma StartTimesSpacing(start: int, segments: seq<Segment>, n: nat)
    requires n <= |segments|
    ensures var ts := StartTimes(start, segments, n);
            forall k :: 0 <= k < n - 1 ==> ts[k + 1] - ts[k] == segments[k].duration
  {
    var ts := StartTimes(start, segments, n);
    StartTimesFromOrigin(start, segments, n);
    forall k | 0 <= k < n - 1 ensures ts[k + 1] - ts[k] == segments[k].duration {
      assert Elapsed(segments, k + 1) == Elapsed(segments, k) + segments[k].duration;
    }
  }

  /** The writes made for each command sent to a connection, the response left in its output (if any command was sent), and the script left. */
  datatype SendRun = SendRun(groups: seq<seq<Written>>, response: Option<string>, rest: Env)

  /** The text written for each segment: its speed command and a newline. */
  function Commands(segments: seq<Segment>): (texts: seq<string>)
    ensures |texts| == |segments|
    decreases |segments|
  {
    if segments == [] then []
    else Commands(segments[..|segments| - 1]) + [MotorCommand(segments[|segments| - 1].speed) + "\n"]
  }

  /** Segment `k`'s text is its speed command. */
  lemma {:induction false} CommandsAt(segments: seq<Segment>, k: nat)
    requires k < |segments|
    ensures Commands(segments)[k] == MotorCommand(segments[k].speed) + "\n"
    decreases |segments|
  {
    var init := segments[..|segments| - 1];
    if k < |init| {
      CommandsAt(init, k);
    }
  }

  /** The first `n` texts sent with one `SendCommand` each, in order, to the same port. */
  function Sends(port: Port, texts: seq<string>, n: nat, env: Env): (s: SendRun)
    requires n <= |texts|
    ensures |s.groups| == n
    decreases n
  {
    if n == 0 then SendRun([], None, env)
    else
      var r := Sends(port, texts, n - 1, env);
      var c := SendOnce(port, texts[n - 1], r.rest);
      SendRun(r.groups + [c.log], Some(c.response), c.rest)
  }

  /**
    One command per text: one group of writes per text, each of one to three
    writes; a response is kept once anything has been sent.
   */
  lemma SendsOnePerSegment(port: Port, texts: seq<string>, n: nat, env: Env)
    requires n <= |texts|
    ensures var s := Sends(port, texts, n, env);
            && (n == 0 <==> s.response.None?)
            && (forall k :: 0 <= k < n ==> 1 <= |s.groups[k]| <= MaxRetries)
  {
    var s := Sends(port, texts, n, env);
    forall k | 0 <= k < n ensures 1 <= |s.groups[k]| <= MaxRetries {
      SendsGroupAt(port, texts, n, env, k);
      RetryWriteTrace(MaxRetries, port, texts[k], Sends(port, texts, k, env).rest);
    }
  }

  /** Later sends leave earlier groups alone: group `k` is the `k`-th command's writes, whatever follows it. */
  lemma {:induction false} SendsGroupAt(port: Port, texts: seq<string>, n: nat, env: Env, k: nat)
    requires k < n <= |texts|
    ensures Sends(port, texts, n, env).groups[k] == SendOnce(port, texts[k], Sends(port, texts, k, env).rest).log
    decreases n
  {
    if k < n - 1 {
      SendsGroupAt(port, texts, n - 1, env, k);
      SendsKeepsGroups(port, texts, n, env, k);
      assert Sends(port, texts, n, env).groups[k] == SendOnce(port, texts[k], Sends(port, texts, k, env).rest).log;
    } else {
      assert k == n - 1;
      SendsLastGroup(port, texts, n, env);
      assert Sends(port, texts, n, env).groups[k] == SendOnce(port, texts[k], Sends(port, texts, k, env).rest).log;
    }
  }

  /** The `n`-th send adds its writes as the last group. */
  lemma SendsLastGroup(port: Port, texts: seq<string>, n: nat, env: Env)
    requires 0 < n <= |texts|
    ensures Sends(port, texts, n, env).groups[n - 1] == SendOnce(port, texts[n - 1], Sends(port, texts, n - 1, env).rest).log
  {
    var r := Sends(port, texts, n - 1, env);
    GoStrings.Snoc(r.groups, SendOnce(port, texts[n - 1], r.rest).log);
  }

  /** The `n`-th send leaves the groups before it as they were. */
  lemma SendsKeepsGroups(port: Port, texts: seq<string>, n: nat, env: Env, k: nat)
    requires k < n - 1 && n <= |texts|
    ensures Sends(port, texts, n, env).groups[k] == Sends(port, texts, n - 1, env).groups[k]
  {
    var r := Sends(port, texts, n - 1, env);
    GoStrings.Snoc(r.groups, SendOnce(port, texts[n - 1], r.rest).log);
  }

  /** The writes of group `k` all carry text `k`, to the motor's port: commands go out in order. */
  lemma SendsInOrder(port: Port, texts: seq<string>, n: nat, env: Env)
    requires n <= |texts|
    ensures var s := Sends(port, texts, n, env);
            forall k, w :: 0 <= k < n && k < |s.groups| && w in s.groups[k] ==> w == Written(port, texts[k])
  {
    var s := Sends(port, texts, n, env);
    forall k, x | 0 <= k < n && k < |s.groups| && x in s.groups[k] ensures x == Written(port, texts[k]) {
      SendsGroupAt(port, texts, n, env, k);
      RetryWriteTrace(MaxRetries, port, texts[k], Sends(port, texts, k, env).rest);
    }
  }

  /** One more send: its writes are one more group, and the run's response and script are those of that send. */
  lemma SendsNext(port: Port, texts: seq<string>, i: nat, env: Env)
    requires i < |texts|
    ensures var r := Sends(port, texts, i, env);
            var c := SendOnce(port, texts[i], r.rest);
            var r' := Sends(port, texts, i + 1, env);
            && Flatten(r'.groups) == Flatten(r.groups) + c.log
            && r'.response == Some(c.response) && r'.rest == c.rest
  {
    var r := Sends(port, texts, i, env);
    FlattenSnoc(r.groups, SendOnce(port, texts[i], r.rest).log);
  }

  /** The loop's call of `MoveMotor` for segment `i`, stated in terms of that segment's command text. */
  method MoveSegment(motorId: int, segments: seq<Segment>, i: nat, connections: array<SerialConnection>, env: Env)
    returns (ok: bool, log: seq<Written>, rest: Env)
    requires i < |segments|
    modifies if ValidMotor(motorId, connections.Length) then {connections[motorId]} else {}
    ensures ok <==> ValidMotor(motorId, connections.Length)
    ensures !ok ==> log == [] && rest == env
    ensures ok ==> var c := SendOnce(old(connections[motorId].port), Commands(segments)[i], env);
                   && log == c.log && rest == c.rest && connections[motorId].output == c.response
                   && connections[motorId].port == old(connections[motorId].port)
  {
    CommandsAt(segments, i);
    ok, log, rest := MoveMotor(motorId, segments[i].speed, connections, env);
  }

  /** The goroutine's run over a pattern: when each command was due, how many `MoveMotor` calls failed, and what was sent. */
  method RunSegments(pattern: Pattern, connections: array<SerialConnection>, start: int, env: Env)
    returns (starts: seq<int>, failures: nat, log: seq<Written>, rest: Env)
    modifies if ValidMotor(pattern.motorId, connections.Length) then {connections[pattern.motorId]} else {}
    ensures starts == StartTimes(start, pattern.segments, |pattern.segments|)
    ensures !ValidMotor(pattern.motorId, connections.Length) ==> failures == |pattern.segments| && log == [] && rest == env
    ensures ValidMotor(pattern.motorId, connections.Length) ==>
              var s := Sends(old(connections[pattern.motorId].port), Commands(pattern.segments), |pattern.segments|, env);
              && failures == 0 && log == Flatten(s.groups) && rest == s.rest
              && (s.response.Some? ==> connections[pattern.motorId].output == s.response.value)
  {
    var segments := pattern.segments;
    var valid := ValidMotor(pattern.motorId, connections.Length);
    ghost var conn: SerialConnection? := if valid then connections[pattern.motorId] else null;
    ghost var port := if valid then conn.port else NoPort;
    ghost var texts := Commands(segments);
    ghost var run := Sends(port, texts, 0, env);
    var elapsed := 0;
    starts, failures, log, rest := [], 0, [], env;
    var i := 0;
    while i < |segments|
      invariant 0 <= i <= |segments|
      invariant elapsed == Elapsed(segments, i) && starts == StartTimes(start, segments, i)
      invariant !valid ==> failures == i && log == [] && rest == env
      invariant valid ==> && run == Sends(port, texts, i, env)
                          && failures == 0 && log == Flatten(run.groups) && rest == run.rest
                          && conn == connections[pattern.motorId] && conn.port == port
                          && (run.response.Some? ==> conn.output == run.response.value)
    {
      StartTimesNext(start, segments, i);
      starts := starts + [start + elapsed];
      elapsed := elapsed + segments[i].duration;
      var ok, sent;
      ok, sent, rest := MoveSegment(pattern.motorId, segments, i, connections, rest);
      if !ok {
        failures := failures + 1;
      } else {
        SendsNext(port, texts, i, env);
        run := Sends(port, texts, i + 1, env);
      }
      log := log + sent;
      i := i + 1;
    }
  }

  /**
    `ScheduleMotorMovements`: a missing pattern is the only error; any other
    pattern is accepted at once, even one whose motor ID names no connection,
    and its segments are then run. Errors from the individual moves never reach
    the caller.
   */
  method ScheduleMotorMovements(pattern: Option<Pattern>, connections: array<SerialConnection>, start: int, env: Env)
    returns (err: bool, starts: seq<int>, failures: nat, log: seq<Written>, rest: Env)
    modifies if pattern.Some? && ValidMotor(pattern.value.motorId, connections.Length)
             then {connections[pattern.value.motorId]} else {}
    ensures err <==> pattern.None?
    ensures pattern.None? ==> starts == [] && log == [] && rest == env
    ensures pattern.Some? ==> starts == StartTimes(start, pattern.value.segments, |pattern.value.segments|)
    ensures pattern.Some? && !ValidMotor(pattern.value.motorId, connections.Length) ==>
              failures == |pattern.value.segments| && log == [] && rest == env
    ensures pattern.Some? && ValidMotor(pattern.value.motorId, connections.Length) ==>
              var s := Sends(old(connections[pattern.value.motorId].port), Commands(pattern.value.segments), |pattern.value.segments|, env);
              failures == 0 && log == Flatten(s.groups) && rest == s.rest
  {
    if pattern.None? {
      return true, [], 0, [], env;
    }
    starts, failures, log, rest := RunSegments(pattern.value, connections, start, env);
    err := false;
  }
}
