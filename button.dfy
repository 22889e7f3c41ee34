/**
  The push-button classifier of the motor tuning firmware
  (simplefoc_tuning/ButtonHandler.cpp): a handler polled repeatedly, which
  turns the pin level and the millisecond clock into single, double and long
  presses. The pin is active low.

  The pin read and the clock are parameters of each poll. Times are Arduino
  `unsigned long` values, 32 bits wide, and every elapsed time is a wrapping
  unsigned subtraction.
 */
module Button {

  const TimeModulus: int := 0x1_0000_0000

  /** An Arduino `unsigned long`. */
  newtype u32 = x: int | 0 <= x < 0x1_0000_0000

  /** `now - then` on `unsigned long`: the difference modulo 2^32. */
  function Elapsed(now: u32, since: u32): (d: u32)
  {
    ((now as int - since as int) % TimeModulus) as u32
  }

  /** The difference is the plain one when the clock has not wrapped, and 2^32 more when it has. */
  lemma ElapsedWraps(now: u32, since: u32)
    ensures now >= since ==> Elapsed(now, since) as int == now as int - since as int
    ensures now < since ==> Elapsed(now, since) as int == now as int - since as int + TimeModulus
  {
  }

  /** A press 32 ms after a press just before the clock wraps is 32 ms after it, not four billion ms before. */
  lemma ElapsedAcrossRollover()
    ensures Elapsed(0x10, 0xFFFF_FFF0) == 0x20
  {
  }

  datatype Level = Low | High

  /** `ButtonEvent`. */
  datatype Event = NoEvent | SinglePress | DoublePress | LongPress

  /** The fields `checkButton` updates. */
  datatype State = State(lastPressTime: u32, pressStartTime: u32, wasPressed: bool, pressCount: int)

  /** The state the constructor sets up. */
  const Initial := State(0, 0, false, 0)

  /** At most one press is counted, and only while the button is down. */
  predicate Inv(s: State)
  {
    (s.pressCount == 0 || s.pressCount == 1) && (s.pressCount == 1 ==> s.wasPressed)
  }

  /** `checkButton` with the level read and the time taken: the event and the new state. */
  function Check(doubleInterval: u32, longInterval: u32, s: State, level: Level, now: u32): (Event, State)
  {
    if level == Low && !s.wasPressed then
      if Elapsed(now, s.lastPressTime) < doubleInterval then (DoublePress, State(now, now, true, 0))
      else (NoEvent, State(now, now, true, s.pressCount + 1))
    else if level == High && s.wasPressed then
      var event :=
        if Elapsed(now, s.pressStartTime) >= longInterval then LongPress
        else if s.pressCount == 1 then SinglePress
        else NoEvent;
      (event, s.(wasPressed := false, pressCount := 0))
    else if level == Low && s.wasPressed then
      if Elapsed(now, s.pressStartTime) >= longInterval then (LongPress, s.(wasPressed := false, pressCount := 0))
      else (NoEvent, s)
    else (NoEvent, s)
  }

  /** Every poll keeps the invariant. */
  lemma CheckKeepsInv(doubleInterval: u32, longInterval: u32, s: State, level: Level, now: u32)
    requires Inv(s)
    ensures Inv(Check(doubleInterval, longInterval, s, level, now).1)
  {
  }

  /**
    A press (the pin goes low while the button was up) starts a press at `now`
    and records it as the last press; it is a double press exactly when less
    than the double-click interval has passed since the previous press, and
    then no press is left counted.
   */
  lemma PressEdge(doubleInterval: u32, longInterval: u32, s: State, now: u32)
    requires Inv(s) && !s.wasPressed
    ensures var (e, t) := Check(doubleInterval, longInterval, s, Low, now);
            && t.wasPressed && t.pressStartTime == now && t.lastPressTime == now
            && (e == DoublePress <==> Elapsed(now, s.lastPressTime) < doubleInterval)
            && (e != DoublePress ==> e == NoEvent)
            && t.pressCount == (if e == DoublePress then 0 else 1)
  {
  }

  /**
    A release reports a long press when the press lasted at least the long
    interval, otherwise a single press when one press is counted, otherwise
    nothing; the button is then up with no press counted.
   */
  lemma Release(doubleInterval: u32, longInterval: u32, s: State, now: u32)
    requires s.wasPressed
    ensures var (e, t) := Check(doubleInterval, longInterval, s, High, now);
            && (e == LongPress <==> Elapsed(now, s.pressStartTime) >= longInterval)
            && (e == SinglePress <==> Elapsed(now, s.pressStartTime) < longInterval && s.pressCount == 1)
            && e != DoublePress
            && t == s.(wasPressed := false, pressCount := 0)
  {
  }

  /**
    While the button is held, a long press is reported as soon as it has been
    down for the long interval, and the button then counts as up; before that
    nothing happens and nothing changes.
   */
  lemma Held(doubleInterval: u32, longInterval: u32, s: State, now: u32)
    requires s.wasPressed
    ensures var (e, t) := Check(doubleInterval, longInterval, s, Low, now);
            && (Elapsed(now, s.pressStartTime) >= longInterval ==> e == LongPress && t == s.(wasPressed := false, pressCount := 0))
            && (Elapsed(now, s.pressStartTime) < longInterval ==> e == NoEvent && t == s)
  {
  }

  /** A high pin while the button is up reports nothing and changes nothing. */
  lemma Idle(doubleInterval: u32, longInterval: u32, s: State, now: u32)
    requires !s.wasPressed
    ensures Check(doubleInterval, longInterval, s, High, now) == (NoEvent, s)
  {
  }

  /** The last press time starts at 0, so a first press before the double-click interval has passed since boot is a double press. */
  lemma FirstPressNearBoot(doubleInterval: u32, longInterval: u32, now: u32)
    requires now < doubleInterval
    ensures Check(doubleInterval, longInterval, Initial, Low, now).0 == DoublePress
  {
  }

  // ---------------------------------------------------------------------------
  // Sequences of polls

  datatype Poll = Poll(level: Level, now: u32)

  /** The events reported by a sequence of polls, and the state they leave. */
  datatype Trace = Trace(events: seq<Event>, last: State)

  /** `checkButton` called once per poll: one event per poll, and the invariant holds after any run of polls. */
  function Run(doubleInterval: u32, longInterval: u32, s: State, polls: seq<Poll>): (t: Trace)
    ensures |t.events| == |polls|
    ensures Inv(s) ==> Inv(t.last)
    decreases |polls|
  {
    if polls == [] then Trace([], s)
    else
      var (e, s') := Check(doubleInterval, longInterval, s, polls[0].level, polls[0].now);
      assert Inv(s) ==> Inv(s') by {
        if Inv(s) {
          CheckKeepsInv(doubleInterval, longInterval, s, polls[0].level, polls[0].now);
        }
      }
      var rest := Run(doubleInterval, longInterval, s', polls[1..]);
      Trace([e] + rest.events, rest.last)
  }

  /** Polls that keep the button down and report nothing leave the state as it was. */
  lemma {:induction false} QuietHoldKeepsState(doubleInterval: u32, longInterval: u32, s: State, polls: seq<Poll>)
    requires s.wasPressed
    requires forall i :: 0 <= i < |polls| ==> polls[i].level == Low
    requires forall i :: 0 <= i < |polls| ==> Run(doubleInterval, longInterval, s, polls).events[i] == NoEvent
    ensures Run(doubleInterval, longInterval, s, polls).last == s
    decreases |polls|
  {
    if polls != [] {
      var r := Run(doubleInterval, longInterval, s, polls);
      assert r.events[0] == NoEvent;
      assert Check(doubleInterval, longInterval, s, Low, polls[0].now).1 == s;
      var rest := Run(doubleInterval, longInterval, s, polls[1..]);
      assert forall i :: 0 <= i < |polls| - 1 ==> rest.events[i] == r.events[i + 1];
      QuietHoldKeepsState(doubleInterval, longInterval, s, polls[1..]);
    }
  }

  /**
    A press that reported a double press never ends in a single press: however
    long it is held without a long press being reported, its release reports a
    long press or nothing.
   */
  lemma DoubleNeverSingle(doubleInterval: u32, longInterval: u32, s: State, pressed: u32, held: seq<Poll>, released: u32)
    requires Inv(s)
    requires Check(doubleInterval, longInterval, s, Low, pressed).0 == DoublePress
    requires var s1 := Check(doubleInterval, longInterval, s, Low, pressed).1;
             && (forall i :: 0 <= i < |held| ==> held[i].level == Low)
             && (forall i :: 0 <= i < |held| ==> Run(doubleInterval, longInterval, s1, held).events[i] == NoEvent)
    ensures var s1 := Check(doubleInterval, longInterval, s, Low, pressed).1;
            Check(doubleInterval, longInterval, Run(doubleInterval, longInterval, s1, held).last, High, released).0 != SinglePress
  {
    var s1 := Check(doubleInterval, longInterval, s, Low, pressed).1;
    assert s1.wasPressed && s1.pressCount == 0;
    QuietHoldKeepsState(doubleInterval, longInterval, s1, held);
    Release(doubleInterval, longInterval, s1, released);
  }

  /**
    A long press reported while the button is held lets the button count as up,
    so the next poll that still sees it held starts a new press, and releasing
    it soon after reports a single press as well: one long hold reports
    LONG_PRESS and then SINGLE_PRESS.
   */
  lemma LongHoldThenSingle(doubleInterval: u32, longInterval: u32, s: State, t1: u32, t2: u32, t3: u32)
    requires Inv(s) && s.wasPressed
    requires Elapsed(t1, s.pressStartTime) >= longInterval
    requires Elapsed(t2, s.lastPressTime) >= doubleInterval
    requires Elapsed(t3, t2) < longInterval
    ensures Run(doubleInterval, longInterval, s, [Poll(Low, t1), Poll(Low, t2), Poll(High, t3)]).events
            == [LongPress, NoEvent, SinglePress]
  {
    var polls := [Poll(Low, t1), Poll(Low, t2), Poll(High, t3)];
    assert polls[1..] == [Poll(Low, t2), Poll(High, t3)];
    assert polls[1..][1..] == [Poll(High, t3)];
    var s1 := s.(wasPressed := false, pressCount := 0);
    assert Check(doubleInterval, longInterval, s, Low, t1) == (LongPress, s1);
    var s2 := State(t2, t2, true, 1);
    assert Check(doubleInterval, longInterval, s1, Low, t2) == (NoEvent, s2);
    assert Check(doubleInterval, longInterval, s2, High, t3).0 == SinglePress;
    assert Run(doubleInterval, longInterval, s2, [Poll(High, t3)]).events == [SinglePress];
    assert Run(doubleInterval, longInterval, s1, polls[1..]).events == [NoEvent, SinglePress];
  }

  /** `ButtonHandler`: the pin and both intervals are fixed, the rest is the state above. */
  class ButtonHandler {
    const pin: int
    const doubleClickInterval: u32
    const longPressInterval: u32
    var lastPressTime: u32
    var pressStartTime: u32
    var wasPressed: bool
    var pressCount: int

    function Current(): State
      reads this
    {
      State(lastPressTime, pressStartTime, wasPressed, pressCount)
    }

    predicate Valid()
      reads this
    {
      Inv(Current())
    }

    constructor (buttonPin: int, doubleInterval: u32, longInterval: u32)
      ensures pin == buttonPin && doubleClickInterval == doubleInterval && longPressInterval == longInterval
      ensures Current() == Initial
      ensures Valid()
    {
      pin := buttonPin;
      doubleClickInterval := doubleInterval;
      longPressInterval := longInterval;
      lastPressTime := 0;
      pressStartTime := 0;
      wasPressed := false;
      pressCount := 0;
    }

    /** `checkButton`, given the level `digitalRead` returns and the time `millis` returns. */
    method CheckButton(level: Level, now: u32) returns (event: Event)
      requires Valid()
      modifies this
      ensures Valid()
      ensures (event, Current()) == Check(doubleClickInterval, longPressInterval, old(Current()), level, now)
    {
      event := NoEvent;
      if level == Low && !wasPressed {
        wasPressed := true;
        pressStartTime := now;
        pressCount := pressCount + 1;
        if Elapsed(now, lastPressTime) < doubleClickInterval {
          event := DoublePress;
          pressCount := 0;
        }
        lastPressTime := now;
      } else if level == High && wasPressed {
        wasPressed := false;
        if Elapsed(now, pressStartTime) >= longPressInterval {
          event := LongPress;
        } else if pressCount == 1 {
          event := SinglePress;
        }
        pressCount := 0;
      } else if level == Low && wasPressed {
        if Elapsed(now, pressStartTime) >= longPressInterval {
          event := LongPress;
          wasPressed := false;
          pressCount := 0;
        }
      }
    }
  }
}
