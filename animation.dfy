/**
  The motor preview of the pattern editor (pattern_editor/src/MotorAnimation.js):
  on every animation frame, each motor with a non-empty track moves its clock
  on by 16 ms and, once the clock reaches the current segment's duration,
  starts the next segment, wrapping round at the end of the track.

  The two counter arrays are updated in place, as in `animate`. The canvas
  drawing, the hit-testing of clicks and the frame scheduling are not
  modelled; one call of `Animate` is one frame.
 */
module MotorAnimation {
  import opened PatternEditor

  /** The time one frame adds, assuming 60 frames a second. */
  const FrameMs := 16

  /** A motor's place in its track: the segment it is in and the time spent in that segment. */
  datatype Counter = Counter(index: int, time: int)

  /** The counter points at a segment of the track, or the track is empty. */
  predicate InTrack(track: seq<Segment>, c: Counter)
  {
    track == [] || 0 <= c.index < |track|
  }

  /** One frame for one motor: an empty track is skipped; otherwise the clock moves on and may start the next segment. */
  function Step(track: seq<Segment>, c: Counter): (r: Counter)
    requires InTrack(track, c)
    ensures InTrack(track, r)
    ensures track == [] ==> r == c
  {
    if track == [] then c
    else
      var time := c.time + FrameMs;
      if time >= track[c.index].duration then Counter((c.index + 1) % |track|, 0)
      else Counter(c.index, time)
  }

  /** `n` frames for one motor. */
  function Run(track: seq<Segment>, c: Counter, n: nat): (r: Counter)
    requires InTrack(track, c)
    ensures InTrack(track, r)
    decreases n
  {
    if n == 0 then c else Run(track, Step(track, c), n - 1)
  }

  /** `Run` is one frame, then the rest. */
  lemma {:induction false} RunSplits(track: seq<Segment>, c: Counter, n: nat)
    requires InTrack(track, c)
    ensures Step(track, Run(track, c, n)) == Run(track, c, n + 1)
    decreases n
  {
    if n > 0 {
      RunSplits(track, Step(track, c), n - 1);
    }
  }

  /** The frames a segment lasts: its duration over 16 ms, rounded up. */
  function FramesFor(duration: int): int
  {
    (duration + FrameMs - 1) / FrameMs
  }

  /**
    A segment with a positive duration, entered with its clock at 0, is held
    for the first `FramesFor(duration) - 1` frames, with the clock 16 ms on at
    each, and the next frame starts the following segment, wrapping from the
    last to the first.
   */
  lemma {:induction false} SegmentHeld(track: seq<Segment>, k: int, n: nat)
    requires 0 <= k < |track| && track[k].duration > 0
    ensures n < FramesFor(track[k].duration) ==> Run(track, Counter(k, 0), n) == Counter(k, FrameMs * n)
    ensures n == FramesFor(track[k].duration) ==> Run(track, Counter(k, 0), n) == Counter((k + 1) % |track|, 0)
  {
    if n > 0 {
      SegmentHeld(track, k, n - 1);
      RunSplits(track, Counter(k, 0), n - 1);
    }
  }

  /**
    With every duration positive, a counter whose clock is below its segment's
    duration keeps it so: the clock never reaches a duration between frames.
   */
  lemma StepKeepsClockBelow(track: seq<Segment>, c: Counter)
    requires track != [] && 0 <= c.index < |track| && 0 <= c.time < track[c.index].duration
    requires forall s :: s in track ==> s.duration > 0
    ensures var r := Step(track, c); 0 <= r.time < track[r.index].duration
  {
    var r := Step(track, c);
    assert track[r.index] in track;
  }

  /** Every motor's counter points at a segment of its track. */
  predicate Valid(tracks: Tracks, indices: seq<int>, times: seq<int>)
  {
    |indices| == |tracks| && |times| == |tracks|
    && forall m :: 0 <= m < |tracks| ==> InTrack(tracks[m], Counter(indices[m], times[m]))
  }

  /** The counters `useEffect` starts from: every motor at its first segment, with its clock at 0. */
  method Start(tracks: Tracks) returns (indices: array<int>, times: array<int>)
    ensures fresh(indices) && fresh(times) && indices != times
    ensures indices[..] == seq(|tracks|, _ => 0) && times[..] == seq(|tracks|, _ => 0)
    ensures Valid(tracks, indices[..], times[..])
  {
    indices := new int[|tracks|](_ => 0);
    times := new int[|tracks|](_ => 0);
  }

  /** The counter updates of one call of `animate`, motor by motor. */
  method Animate(tracks: Tracks, indices: array<int>, times: array<int>)
    requires indices != times && Valid(tracks, indices[..], times[..])
    modifies indices, times
    ensures Valid(tracks, indices[..], times[..])
    ensures forall m :: 0 <= m < |tracks| ==>
              Counter(indices[m], times[m]) == Step(tracks[m], Counter(old(indices[m]), old(times[m])))
  {
    for m := 0 to |tracks|
      invariant forall j :: 0 <= j < m ==>
                  Counter(indices[j], times[j]) == Step(tracks[j], Counter(old(indices[j]), old(times[j])))
      invariant forall j :: m <= j < |tracks| ==> indices[j] == old(indices[j]) && times[j] == old(times[j])
    {
      if |tracks[m]| == 0 {
        continue;
      }
      var track := tracks[m];
      var segment := track[indices[m]];
      times[m] := times[m] + FrameMs;
      if times[m] >= segment.duration {
        times[m] := 0;
        indices[m] := (indices[m] + 1) % |track|;
      }
    }
  }
}
