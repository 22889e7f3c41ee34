/**
  The device commander's console (device_commander/main.go): the per-device
  output trimming and status filtering applied to reader updates, the
  per-device status map, serial-number extraction, and the operator's key
  handling over the registry, the broadcast entry and the Bluetooth entry.
 */
module Console {
  import opened Wrappers
  import opened GoStrings
  import opened Link
  import opened Comms

  // ---------------------------------------------------------------------------
  // Output trimming

  const MaxOutputLines := 100

  /** `limitOutputBuffer`: keep only the last 100 newline-separated pieces of a device's output. */
  function LimitOutputBuffer(output: string): string
  {
    var lines := Split(output, '\n');
    if |lines| > MaxOutputLines then Join(lines[|lines| - MaxOutputLines..], '\n') else Join(lines, '\n')
  }

  /** The pieces a trimmed output keeps: the last 100, or all of them when there are no more. */
  function LastLines(lines: seq<string>): (tail: seq<string>)
    ensures |tail| <= MaxOutputLines && |tail| <= |lines|
    ensures tail == lines[|lines| - |tail|..]
    ensures |lines| <= MaxOutputLines ==> tail == lines
    ensures |lines| > MaxOutputLines ==> |tail| == MaxOutputLines
  {
    if |lines| > MaxOutputLines then lines[|lines| - MaxOutputLines..] else lines
  }

  /**
    Trimming keeps a suffix of the output made of exactly its last 100 pieces
    (so at most 100 pieces), and leaves an output of at most 100 pieces as it is.
   */
  lemma LimitOutputBufferKeepsTail(output: string)
    ensures var r := LimitOutputBuffer(output);
            var lines := Split(output, '\n');
            && |r| <= |output| && r == output[|output| - |r|..]
            && Split(r, '\n') == LastLines(lines)
            && |Split(r, '\n')| <= MaxOutputLines
            && (|lines| <= MaxOutputLines ==> r == output)
  {
    var lines := Split(output, '\n');
    var tail := LastLines(lines);
    var k := |lines| - |tail|;
    var r := LimitOutputBuffer(output);
    assert lines[k..] == tail;
    assert r == Join(tail, '\n');
    JoinSplit(output, '\n');
    JoinSuffix(lines, '\n', k);
    assert r == output[|output| - |r|..];
    SplitPieces(output, '\n');
    forall i | 0 <= i < |tail| ensures '\n' !in tail[i] {
      assert tail[i] == lines[k + i];
    }
    SplitJoin(tail, '\n');
    assert Split(r, '\n') == tail;
  }

  /** Trimming twice is trimming once. */
  lemma LimitOutputBufferIdempotent(output: string)
    ensures LimitOutputBuffer(LimitOutputBuffer(output)) == LimitOutputBuffer(output)
  {
    var r := LimitOutputBuffer(output);
    LimitOutputBufferKeepsTail(output);
    LimitOutputBufferKeepsTail(r);
  }

  // ---------------------------------------------------------------------------
  // Status-line filtering

  /** A line `filterAckHeartbeat` drops: its trimmed text is exactly "ACK" or "HEARTBEAT". */
  predicate IsStatusLine(line: string)
  {
    var t := TrimSpace(line);
    t == "ACK" || t == "HEARTBEAT"
  }

  /** The lines that survive the filter, untrimmed and in order. */
  function FilterLines(lines: seq<string>): (kept: seq<string>)
    ensures |kept| <= |lines|
    decreases |lines|
  {
    if lines == [] then []
    else FilterLines(lines[..|lines| - 1]) + Keep(lines[|lines| - 1])
  }

  /** What the filter keeps of one line: nothing for a status line, the line itself otherwise. */
  function Keep(line: string): seq<string>
  {
    if IsStatusLine(line) then [] else [line]
  }

  /** Filtering one more line appends what is kept of it. */
  lemma FilterLinesSnoc(lines: seq<string>, x: string)
    ensures FilterLines(lines + [x]) == FilterLines(lines) + Keep(x)
  {
    assert (lines + [x])[..|lines|] == lines;
  }

  /** `filterAckHeartbeat`: the output without its ACK and HEARTBEAT lines. */
  function FilterAckHeartbeat(output: string): string
  {
    Join(FilterLines(Split(output, '\n')), '\n')
  }

  /**
    The filter works line by line: filtering a concatenation filters each part,
    and a single line is dropped exactly when it is a status line. Together these
    say the kept lines are all the other lines, in their original order.
   */
  lemma {:induction false} FilterLinesConcat(a: seq<string>, b: seq<string>)
    ensures FilterLines(a + b) == FilterLines(a) + FilterLines(b)
    decreases |b|
  {
    if b == [] {
      assert a + b == a;
      assert FilterLines(a) + FilterLines(b) == FilterLines(a);
    } else {
      var b', x := b[..|b| - 1], b[|b| - 1];
      SplitLast(a, b);
      calc {
        FilterLines(a + b);
        FilterLines((a + b') + [x]);
        { FilterLinesSnoc(a + b', x); }
        FilterLines(a + b') + Keep(x);
        { FilterLinesConcat(a, b'); }
        (FilterLines(a) + FilterLines(b')) + Keep(x);
        FilterLines(a) + (FilterLines(b') + Keep(x));
        { FilterLinesSnoc(b', x); }
        FilterLines(a) + FilterLines(b' + [x]);
        FilterLines(a) + FilterLines(b);
      }
    }
  }

  /** Taking the last element off a non-empty right operand of a concatenation. */
  lemma SplitLast<T>(a: seq<T>, b: seq<T>)
    requires b != []
    ensures b == b[..|b| - 1] + [b[|b| - 1]]
    ensures a + b == (a + b[..|b| - 1]) + [b[|b| - 1]]
  {
  }

  /** A two-element sequence is the concatenation of its elements. */
  lemma Pair<T>(x: T, y: T)
    ensures [x, y] == [x] + [y]
  {
  }

  lemma FilterLinesOne(line: string)
    ensures FilterLines([line]) == Keep(line)
  {
    FilterLinesSnoc([], line);
  }

  /** Exactly the lines that are not status lines survive the filter. */
  lemma {:induction false} FilterLinesKeepsOthers(lines: seq<string>)
    ensures forall l :: l in FilterLines(lines) <==> l in lines && !IsStatusLine(l)
    decreases |lines|
  {
    if lines != [] {
      var init := lines[..|lines| - 1];
      FilterLinesKeepsOthers(init);
      assert lines == init + [lines[|lines| - 1]];
    }
  }

  /** Filtering an already filtered list changes nothing. */
  lemma {:induction false} FilterLinesIdempotent(lines: seq<string>)
    ensures FilterLines(FilterLines(lines)) == FilterLines(lines)
    decreases |lines|
  {
    if lines != [] {
      var init := lines[..|lines| - 1];
      var last := lines[|lines| - 1];
      FilterLinesIdempotent(init);
      FilterLinesConcat(FilterLines(init), Keep(last));
      if !IsStatusLine(last) {
        FilterLinesOne(last);
      } else {
        assert FilterLines(init) + [] == FilterLines(init);
      }
    }
  }

  // ---------------------------------------------------------------------------
  // Serial numbers

  /** The trimmed line after the first line from `i` on that mentions "SERIAL_NO:" and has a successor. */
  function SerialAfter(lines: seq<string>, i: nat): string
    decreases |lines| - i
  {
    if i >= |lines| then ""
    else if Contains(lines[i], "SERIAL_NO:") && i + 1 < |lines| then TrimSpace(lines[i + 1])
    else SerialAfter(lines, i + 1)
  }

  /** `extractSerialNumber`: the serial number reported after a "SERIAL_NO:" line, or "". */
  function ExtractSerialNumber(output: string): string
  {
    SerialAfter(Split(output, '\n'), 0)
  }

  /**
    The scan from `i` finds the first line (before the last one) mentioning
    "SERIAL_NO:" and returns the trimmed line after it; if no such line exists it
    returns "".
   */
  lemma {:induction false} SerialAfterFindsFirst(lines: seq<string>, i: nat)
    requires i <= |lines|
    ensures var r := SerialAfter(lines, i);
            || (exists k :: i <= k < |lines| - 1 && Contains(lines[k], "SERIAL_NO:")
                 && (forall j :: i <= j < k ==> !Contains(lines[j], "SERIAL_NO:"))
                 && r == TrimSpace(lines[k + 1]))
            || (r == "" && forall j :: i <= j < |lines| - 1 ==> !Contains(lines[j], "SERIAL_NO:"))
    decreases |lines| - i
  {
    if i < |lines| {
      if Contains(lines[i], "SERIAL_NO:") && i + 1 < |lines| {
        assert SerialAfter(lines, i) == TrimSpace(lines[i + 1]);
      } else {
        SerialAfterFindsFirst(lines, i + 1);
        assert SerialAfter(lines, i) == SerialAfter(lines, i + 1);
        assert i < |lines| - 1 ==> !Contains(lines[i], "SERIAL_NO:");
      }
    }
  }

  // ---------------------------------------------------------------------------
  // Device status

  /** A time stamp; Go's zero `time.Time` is `Never`. */
  datatype Stamp = Never | At(time: int)

  /** When a device last acknowledged and last sent a heartbeat. */
  datatype DeviceStatus = DeviceStatus(lastAck: Stamp, lastHeartbeat: Stamp)

  /** The status map after `updateDeviceStatus(id, isAck, isHeartbeat)` at time `now`. */
  function StatusUpdated(statuses: map<string, DeviceStatus>, id: string, isAck: bool, isHeartbeat: bool, now: int)
    : map<string, DeviceStatus>
  {
    var s := if id in statuses then statuses[id] else DeviceStatus(Never, Never);
    var s1 := if isAck then s.(lastAck := At(now)) else s;
    statuses[id := if isHeartbeat then s1.(lastHeartbeat := At(now)) else s1]
  }

  /**
    An update creates a zero status for a device seen for the first time, stamps
    the acknowledgement time exactly when `isAck` and the heartbeat time exactly
    when `isHeartbeat`, removes no entry and touches no other device.
   */
  lemma StatusUpdatedEffect(statuses: map<string, DeviceStatus>, id: string, isAck: bool, isHeartbeat: bool, now: int)
    ensures var m := StatusUpdated(statuses, id, isAck, isHeartbeat, now);
            var before := if id in statuses then statuses[id] else DeviceStatus(Never, Never);
            && m.Keys == statuses.Keys + {id}
            && (forall d :: d in statuses && d != id ==> m[d] == statuses[d])
            && m[id].lastAck == (if isAck then At(now) else before.lastAck)
            && m[id].lastHeartbeat == (if isHeartbeat then At(now) else before.lastHeartbeat)
  {
  }

  /** What `processDeviceUpdate` does to the status map for an update's text. */
  function StatusesNoted(statuses: map<string, DeviceStatus>, id: string, text: string, now: int)
    : map<string, DeviceStatus>
  {
    var s1 := if Contains(text, "ACK") then StatusUpdated(statuses, id, true, false, now) else statuses;
    if Contains(text, "HEARTBEAT") then StatusUpdated(s1, id, false, true, now) else s1
  }

  /** What `processDeviceUpdate` does to the matching connection's output. */
  function OutputNoted(output: string, text: string): string
  {
    var filtered := FilterAckHeartbeat(text);
    if filtered != "" then LimitOutputBuffer(output + filtered) else output
  }

  /**
    The reader's heartbeat event "HB\n" never refreshes the heartbeat time: the
    console looks for "HEARTBEAT", and "HB\n" holds neither marker.
   */
  lemma HeartbeatEventIgnored(statuses: map<string, DeviceStatus>, id: string, now: int)
    ensures StatusesNoted(statuses, id, "HB\n", now) == statuses
  {
    ContainsNot("HB\n", "ACK");
    ContainsShorter("HB\n", "HEARTBEAT");
  }

  /** The heartbeat event survives the filter and lands in the output. */
  lemma HeartbeatEventShown(output: string)
    ensures OutputNoted(output, "HB\n") == LimitOutputBuffer(output + "HB\n")
  {
    HeartbeatEventFiltered();
  }

  /** The acknowledgement event refreshes the acknowledgement time and keeps the heartbeat time. */
  lemma AckEventNoted(statuses: map<string, DeviceStatus>, id: string, now: int)
    ensures var m := StatusesNoted(statuses, id, "ACK\n", now);
            && m[id].lastAck == At(now)
            && m.Keys == statuses.Keys + {id}
            && (id in statuses ==> m[id].lastHeartbeat == statuses[id].lastHeartbeat)
  {
    ContainsShorter("ACK\n", "HEARTBEAT");
    assert HasPrefix("ACK\n", "ACK");
    StatusUpdatedEffect(statuses, id, true, false, now);
  }

  /** The acknowledgement event adds nothing to the output. */
  lemma AckEventHidden(output: string)
    ensures OutputNoted(output, "ACK\n") == output
  {
    AckEventFiltered();
  }

  /** The heartbeat event's text passes the filter unchanged. */
  lemma HeartbeatEventFiltered()
    ensures FilterAckHeartbeat("HB\n") == "HB\n"
  {
    var hb := "HB";
    HbNotStatusLine();
    FilterOneLine(hb);
    assert hb + "\n" == "HB\n";
  }

  /** The acknowledgement event's text is filtered away entirely. */
  lemma AckEventFiltered()
    ensures FilterAckHeartbeat("ACK\n") == ""
  {
    AckIsStatusLine();
    assert "ACK" + "\n" == "ACK\n";
    FilterOneLine("ACK");
  }

  /** "ACK" is a status line. */
  lemma AckIsStatusLine()
    ensures IsStatusLine("ACK")
  {
    var ack := "ACK";
    LetterNotSpace(ack[0]);
    LetterNotSpace(ack[2]);
    TrimSpaceUnchanged(ack);
  }

  /** "HB" is not a status line. */
  lemma HbNotStatusLine()
    ensures !IsStatusLine("HB")
  {
    var hb := "HB";
    LetterNotSpace(hb[0]);
    LetterNotSpace(hb[1]);
    TrimSpaceUnchanged(hb);
    MarkersDiffer();
  }

  /** "HB" is neither marker. */
  lemma MarkersDiffer()
    ensures "HB" != "ACK" && "HB" != "HEARTBEAT"
  {
  }

  /** A single newline-terminated line is dropped if it is a status line and kept whole otherwise. */
  lemma FilterOneLine(w: string)
    requires '\n' !in w
    ensures FilterAckHeartbeat(w + "\n") == if IsStatusLine(w) then "" else w + "\n"
  {
    assert w + "\n" == w + ['\n'] + "";
    SplitConcat(w, "", '\n');
    SplitWithoutSeparator(w, '\n');
    Pair(w, "");
    FilterLinesSnoc([w], "");
    FilterLinesOne(w);
    assert !IsStatusLine("");
    if !IsStatusLine(w) {
      Pair(w, "");
      assert Join([w, ""], '\n') == w + "\n" by {
        assert [w, ""][1..] == [""];
      }
    }
  }

  /** "HB\n" does not contain "ACK". */
  lemma ContainsNot(s: string, sub: string)
    requires s == "HB\n" && sub == "ACK"
    ensures !Contains(s, sub)
  {
    assert s[..|sub|][0] == 'H' != sub[0];
    assert s[1..] == "B\n";
    ContainsShorter(s[1..], sub);
  }

  // ---------------------------------------------------------------------------
  // The console

  /** Which buffer the selected entry edits: a device's command line, the broadcast line, or the Bluetooth line. */
  datatype Target = Single | All | Bluetooth

  /** The entry at `index` among `n` connections followed by the broadcast and Bluetooth entries. */
  function TargetOf(index: int, n: nat): Target
  {
    if index == n then All else if index == n + 1 then Bluetooth else Single
  }

  /** The three command lines the operator types into, each a Go string held byte by byte. */
  datatype Buffers = Buffers(input: string, all: string, bt: string)
  {
    function Get(t: Target): string
    {
      match t
      case Single => input
      case All => all
      case Bluetooth => bt
    }
  }

  /** The buffers after typing `c` into the target's line: the rune's UTF-8 bytes are appended. */
  function Typed(b: Buffers, t: Target, c: char): Buffers
  {
    match t
    case Single => b.(input := b.input + Utf8(c))
    case All => b.(all := b.all + Utf8(c))
    case Bluetooth => b.(bt := b.bt + Utf8(c))
  }

  /** The buffers after Backspace on the target's line: its last byte goes, if it has one. */
  function Erased(b: Buffers, t: Target): Buffers
  {
    match t
    case Single => if |b.input| > 0 then b.(input := b.input[..|b.input| - 1]) else b
    case All => if |b.all| > 0 then b.(all := b.all[..|b.all| - 1]) else b
    case Bluetooth => if |b.bt| > 0 then b.(bt := b.bt[..|b.bt| - 1]) else b
  }

  /**
    Typing extends exactly the target's line by the rune's bytes and leaves the
    others alone; Backspace shortens exactly the target's line by one byte when
    it is non-empty and changes nothing otherwise. Backspace therefore undoes
    typing exactly when the rune is a single byte (ASCII); after a multi-byte
    rune it leaves the rune's leading bytes in the line.
   */
  lemma BuffersEdits(b: Buffers, t: Target, c: char)
    ensures forall u :: Typed(b, t, c).Get(u) == if u == t then b.Get(u) + Utf8(c) else b.Get(u)
    ensures forall u :: Erased(b, t).Get(u) ==
              if u == t && |b.Get(u)| > 0 then b.Get(u)[..|b.Get(u)| - 1] else b.Get(u)
    ensures Erased(Typed(b, t, c), t).Get(t) == b.Get(t) + Utf8(c)[..|Utf8(c)| - 1]
    ensures Erased(Typed(b, t, c), t) == b <==> c as int < 0x80
  {
    TypedLines(b, t, c);
    ErasedLines(b, t);
    var x := Typed(b, t, c);
    ErasedLines(x, t);
    var s, e := b.Get(t), Utf8(c);
    assert (s + e)[..|s + e| - 1] == s + e[..|e| - 1];
    if c as int < 0x80 {
      SameLines(Erased(x, t), b);
    } else {
      assert |Erased(x, t).Get(t)| != |s|;
    }
  }

  /** Typing changes only the target's line, by the rune's bytes. */
  lemma TypedLines(b: Buffers, t: Target, c: char)
    ensures forall u :: Typed(b, t, c).Get(u) == if u == t then b.Get(u) + Utf8(c) else b.Get(u)
  {
    forall u
      ensures Typed(b, t, c).Get(u) == if u == t then b.Get(u) + Utf8(c) else b.Get(u)
    {
    }
  }

  /** Backspace changes only the target's line, by its last byte. */
  lemma ErasedLines(b: Buffers, t: Target)
    ensures forall u :: Erased(b, t).Get(u) ==
              if u == t && |b.Get(u)| > 0 then b.Get(u)[..|b.Get(u)| - 1] else b.Get(u)
  {
    forall u
      ensures Erased(b, t).Get(u) == if u == t && |b.Get(u)| > 0 then b.Get(u)[..|b.Get(u)| - 1] else b.Get(u)
    {
    }
  }

  /** Buffers with the same three lines are the same buffers. */
  lemma SameLines(x: Buffers, y: Buffers)
    requires forall u :: x.Get(u) == y.Get(u)
    ensures x == y
  {
    assert x.Get(Single) == y.Get(Single) && x.Get(All) == y.Get(All) && x.Get(Bluetooth) == y.Get(Bluetooth);
  }

  /** Typing 'é' (bytes C3 A9) and pressing Backspace leaves the stray lead byte C3 in the line. */
  lemma AccentThenBackspace(b: Buffers, t: Target)
    ensures Erased(Typed(b, t, '\U{00E9}'), t).Get(t) == b.Get(t) + ['\U{00C3}']
    ensures Erased(Typed(b, t, '\U{00E9}'), t) != b
  {
    assert Utf8('\U{00E9}') == ['\U{00C3}', '\U{00A9}'];
    BuffersEdits(b, t, '\U{00E9}');
  }

  /** The buffers after Enter on the target's line: that line is emptied, the others are kept. */
  function Cleared(b: Buffers, t: Target): Buffers
  {
    match t
    case Single => b.(input := "")
    case All => b.(all := "")
    case Bluetooth => b.(bt := "")
  }

  /** The entry after Tab: the next one, wrapping from the Bluetooth entry to the first connection. */
  function NextIndex(index: int, n: nat): int
  {
    (index + 1) % (n + 2)
  }

  /** The entry after Shift+Tab or Backtab: the previous one, wrapping from the first connection to Bluetooth. */
  function PrevIndex(index: int, n: nat): int
  {
    (index - 1 + n + 2) % (n + 2)
  }

  /** Both moves stay within the `n + 2` entries, and each undoes the other. */
  lemma CursorMoves(index: int, n: nat)
    requires 0 <= index < n + 2
    ensures 0 <= NextIndex(index, n) < n + 2 && 0 <= PrevIndex(index, n) < n + 2
    ensures PrevIndex(NextIndex(index, n), n) == index
    ensures NextIndex(PrevIndex(index, n), n) == index
  {
    Wrap(index + 1, n + 2);
    Wrap(index - 1 + n + 2, n + 2);
    Wrap(NextIndex(index, n) - 1 + n + 2, n + 2);
    Wrap(PrevIndex(index, n) + 1, n + 2);
  }

  /** Reducing a number below twice the modulus subtracts the modulus at most once. */
  lemma Wrap(x: int, m: int)
    requires 0 < m && 0 <= x < m + m
    ensures x % m == if x < m then x else x - m
  {
    if x < m {
      assert x == 0 * m + x;
    } else {
      assert x == 1 * m + (x - m);
    }
  }

  /** The keyboard modifiers tcell reports, as far as the console distinguishes them. */
  datatype Modifiers = Plain | ShiftOnly | AltOnly | MetaOnly | Combined

  /** The console's global state: the registry, the selected entry, the three command lines and the device statuses. */
  class Console {
    var connections: array<SerialConnection>
    var currentPortIndex: int
    var inputBuffer: string
    var sendToAllBuffer: string
    var btBuffer: string
    var statuses: map<string, DeviceStatus>

    /** The selected entry is a connection, the broadcast entry or the Bluetooth entry. */
    ghost predicate Valid()
      reads this
    {
      0 <= currentPortIndex < connections.Length + 2
    }

    function Lines(): Buffers
      reads this
    {
      Buffers(inputBuffer, sendToAllBuffer, btBuffer)
    }

    /**
      The globals at start-up: the first entry selected, empty lines, and a zero
      status (never acknowledged, no heartbeat) for every configured device.
     */
    constructor (connections: array<SerialConnection>, deviceIds: seq<string>)
      ensures Valid()
      ensures this.connections == connections && currentPortIndex == 0
      ensures Lines() == Buffers("", "", "")
      ensures statuses.Keys == set id | id in deviceIds
      ensures forall id :: id in statuses ==> statuses[id] == DeviceStatus(Never, Never)
    {
      var initial: map<string, DeviceStatus> := map[];
      var i := 0;
      while i < |deviceIds|
        invariant 0 <= i <= |deviceIds|
        invariant initial.Keys == set id | id in deviceIds[..i]
        invariant forall id :: id in initial ==> initial[id] == DeviceStatus(Never, Never)
      {
        assert deviceIds[..i + 1] == deviceIds[..i] + [deviceIds[i]];
        initial := initial[deviceIds[i] := DeviceStatus(Never, Never)];
        i := i + 1;
      }
      assert deviceIds[..i] == deviceIds;
      this.connections := connections;
      currentPortIndex := 0;
      inputBuffer, sendToAllBuffer, btBuffer := "", "", "";
      statuses := initial;
    }

    /** Tab selects the next entry, Shift+Tab the previous one. */
    method Tab(shift: bool)
      requires Valid()
      modifies this`currentPortIndex
      ensures Valid()
      ensures currentPortIndex == if shift then PrevIndex(old(currentPortIndex), connections.Length)
                                  else NextIndex(old(currentPortIndex), connections.Length)
    {
      CursorMoves(currentPortIndex, connections.Length);
      if shift {
        currentPortIndex := (currentPortIndex - 1 + connections.Length + 2) % (connections.Length + 2);
      } else {
        currentPortIndex := (currentPortIndex + 1) % (connections.Length + 2);
      }
    }

    /** Backtab selects the previous entry. */
    method Backtab()
      requires Valid()
      modifies this`currentPortIndex
      ensures Valid()
      ensures currentPortIndex == PrevIndex(old(currentPortIndex), connections.Length)
    {
      CursorMoves(currentPortIndex, connections.Length);
      currentPortIndex := (currentPortIndex - 1 + connections.Length + 2) % (connections.Length + 2);
    }

    /** Backspace removes the last byte of the selected entry's line, if it has one. */
    method Backspace()
      modifies this`inputBuffer, this`sendToAllBuffer, this`btBuffer
      ensures Lines() == Erased(old(Lines()), TargetOf(currentPortIndex, connections.Length))
    {
      if currentPortIndex == connections.Length {
        if |sendToAllBuffer| > 0 {
          sendToAllBuffer := sendToAllBuffer[..|sendToAllBuffer| - 1];
        }
      } else if currentPortIndex == connections.Length + 1 {
        if |btBuffer| > 0 {
          btBuffer := btBuffer[..|btBuffer| - 1];
        }
      } else {
        if |inputBuffer| > 0 {
          inputBuffer := inputBuffer[..|inputBuffer| - 1];
        }
      }
    }

    /** A typed rune: Alt+q or Meta+q quits; anything else goes, as its UTF-8 bytes, to the selected entry's line. */
    method TypeRune(r: char, mods: Modifiers) returns (quit: bool)
      modifies this`inputBuffer, this`sendToAllBuffer, this`btBuffer
      ensures quit <==> r == 'q' && (mods == AltOnly || mods == MetaOnly)
      ensures quit ==> Lines() == old(Lines())
      ensures !quit ==> Lines() == Typed(old(Lines()), TargetOf(currentPortIndex, connections.Length), r)
    {
      if r == 'q' && (mods == AltOnly || mods == MetaOnly) {
        return true;
      }
      quit := false;
      if currentPortIndex == connections.Length {
        sendToAllBuffer := sendToAllBuffer + Utf8(r);
      } else if currentPortIndex == connections.Length + 1 {
        btBuffer := btBuffer + Utf8(r);
      } else {
        inputBuffer := inputBuffer + Utf8(r);
      }
    }

    /**
      Enter sends the selected entry's line and clears it: the broadcast line goes
      to every connection (and "PAT" also starts the current pattern), the
      Bluetooth line likewise goes to every serial connection, and a device's line
      goes to that device alone, replacing its output with the immediate response.
     */
    method Enter(env: Env) returns (play: bool, log: seq<Written>, rest: Env)
      requires Valid()
      modifies this`inputBuffer, this`sendToAllBuffer, this`btBuffer
      modifies if 0 <= currentPortIndex < connections.Length then {connections[currentPortIndex]} else {}
      ensures play <==> TargetOf(currentPortIndex, connections.Length) == All && old(sendToAllBuffer) == "PAT"
      ensures TargetOf(currentPortIndex, connections.Length) != Single ==>
                var b := old(Broadcast(Ports(connections[..]), connections.Length, Lines().Get(TargetOf(currentPortIndex, connections.Length)) + "\n", env));
                log == Flatten(b.groups) && rest == b.rest
      ensures TargetOf(currentPortIndex, connections.Length) == Single ==>
                var conn := connections[currentPortIndex];
                var c := SendOnce(conn.port, old(inputBuffer) + "\n", env);
                && log == c.log && rest == c.rest && conn.output == c.response
                && conn.port == old(conn.port) && conn.deviceId == old(conn.deviceId)
                && conn.portName == old(conn.portName)
      ensures Lines() == Cleared(old(Lines()), TargetOf(currentPortIndex, connections.Length))
    {
      play := false;
      if currentPortIndex == connections.Length {
        play := sendToAllBuffer == "PAT";
        log, rest := SendCommandToAll(connections, sendToAllBuffer, env);
        sendToAllBuffer := "";
      } else if currentPortIndex == connections.Length + 1 {
        log, rest := SendCommandToAll(connections, btBuffer, env);
        btBuffer := "";
      } else {
        log, rest := SendCommand(connections, currentPortIndex, inputBuffer, env);
        inputBuffer := "";
      }
    }

    /** `updateDeviceStatus` at time `now`. */
    method UpdateDeviceStatus(id: string, isAck: bool, isHeartbeat: bool, now: int)
      modifies this`statuses
      ensures statuses == StatusUpdated(old(statuses), id, isAck, isHeartbeat, now)
    {
      var status := if id in statuses then statuses[id] else DeviceStatus(Never, Never);
      if isAck {
        status := status.(lastAck := At(now));
      }
      if isHeartbeat {
        status := status.(lastHeartbeat := At(now));
      }
      statuses := statuses[id := status];
    }

    /**
      `processDeviceUpdate` at time `now`: only the first connection with the
      update's device ID is affected; its statuses are refreshed by the markers
      the text contains and its output grows by the filtered text, trimmed. An
      update for an unknown device changes nothing.
     */
    method ProcessDeviceUpdate(update: ScreenUpdate, now: int) returns (k: int)
      modifies this`statuses
      modifies if IndexOf(Ids(connections[..]), update.deviceId) >= 0
               then {connections[IndexOf(Ids(connections[..]), update.deviceId)]} else {}
      ensures k == old(IndexOf(Ids(connections[..]), update.deviceId))
      ensures k < 0 ==> statuses == old(statuses)
      ensures k >= 0 ==> && statuses == StatusesNoted(old(statuses), update.deviceId, update.output, now)
                         && connections[k].output == OutputNoted(old(connections[k].output), update.output)
                         && connections[k].port == old(connections[k].port)
                         && connections[k].deviceId == old(connections[k].deviceId)
                         && connections[k].portName == old(connections[k].portName)
    {
      k := FindDevice(connections, update.deviceId);
      if k >= 0 {
        var conn := connections[k];
        ghost var port, id, name := conn.port, conn.deviceId, conn.portName;
        NoteOutput(conn, update.output);
        NoteStatuses(update.deviceId, update.output, now);
        assert conn.port == port && conn.deviceId == id && conn.portName == name;
      }
    }

    /** The status refreshes for an update's text: acknowledgement if it mentions "ACK", heartbeat if it mentions "HEARTBEAT". */
    method NoteStatuses(id: string, text: string, now: int)
      modifies this`statuses
      ensures statuses == StatusesNoted(old(statuses), id, text, now)
    {
      if Contains(text, "ACK") {
        UpdateDeviceStatus(id, true, false, now);
      }
      if Contains(text, "HEARTBEAT") {
        UpdateDeviceStatus(id, false, true, now);
      }
    }
  }

  /** The output a connection keeps of an update's text: the filtered text appended, then trimmed. */
  method NoteOutput(conn: SerialConnection, text: string)
    modifies conn`output
    ensures conn.output == OutputNoted(old(conn.output), text)
  {
    var filtered := FilterAckHeartbeat(text);
    if filtered != "" {
      conn.output := LimitOutputBuffer(conn.output + filtered);
    }
  }
}
