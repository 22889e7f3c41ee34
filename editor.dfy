/**
  The motor pattern editor (pattern_editor/src/MotorPatternEditor.js): seven
  tracks of segments, one per motor, edited through the selected motor; the
  pattern posted to the device commander; and the table assigning clicked
  motors to the selected track.

  Each React state update is a function from the old state to the new one.
  The clock that gives new segments their id is a parameter, the speed sent
  to the device is kept in hundredths (see README), and React rendering, the
  HTTP post and the JSON box are not modelled.
 */
module PatternEditor {

  /** One segment of a track: its id, its duration in milliseconds and its speed on the editor's 0-100 scale. */
  datatype Segment = Segment(id: int, duration: int, speed: int)

  /** The two fields the editor's inputs and drag handles change. */
  datatype Field = Duration | Speed

  type Tracks = seq<seq<Segment>>

  const MotorCount := 7
  const NewDuration := 1000
  const NewSpeed := 50

  /** The editor's first state: seven empty tracks. */
  function InitialTracks(): (t: Tracks)
    ensures |t| == MotorCount && forall m :: 0 <= m < |t| ==> t[m] == []
  {
    seq(MotorCount, _ => [])
  }

  /** A selected motor that names a track. */
  predicate Selects(tracks: Tracks, selected: int)
  {
    0 <= selected < |tracks|
  }

  // ---------------------------------------------------------------------------
  // Editing the selected track

  /** `addSegment`: the selected track gains a segment with the default duration and speed; `id` is the clock reading. */
  function AddSegment(tracks: Tracks, selected: int, id: int): (r: Tracks)
    requires Selects(tracks, selected)
  {
    tracks[selected := tracks[selected] + [Segment(id, NewDuration, NewSpeed)]]
  }

  /** The segment with one field replaced. */
  function Set(s: Segment, field: Field, value: int): Segment
  {
    match field
    case Duration => s.(duration := value)
    case Speed => s.(speed := value)
  }

  /** The track with `field` set to `value` in every segment whose id is `id`. */
  function UpdateTrack(track: seq<Segment>, id: int, field: Field, value: int): (r: seq<Segment>)
    ensures |r| == |track|
    ensures forall i :: 0 <= i < |track| ==> r[i] == if track[i].id == id then Set(track[i], field, value) else track[i]
  {
    if track == [] then []
    else [if track[0].id == id then Set(track[0], field, value) else track[0]] + UpdateTrack(track[1..], id, field, value)
  }

  /** `updateSegment`, with `value` the number `parseInt` reads. */
  function UpdateSegment(tracks: Tracks, selected: int, id: int, field: Field, value: int): (r: Tracks)
    requires Selects(tracks, selected)
  {
    tracks[selected := UpdateTrack(tracks[selected], id, field, value)]
  }

  /** The track without the segments whose id is `id`. */
  function RemoveFrom(track: seq<Segment>, id: int): (r: seq<Segment>)
    ensures |r| <= |track|
    ensures forall s :: s in r <==> s in track && s.id != id
  {
    if track == [] then []
    else if track[0].id == id then RemoveFrom(track[1..], id)
    else [track[0]] + RemoveFrom(track[1..], id)
  }

  /** `removeSegment`. */
  function RemoveSegment(tracks: Tracks, selected: int, id: int): (r: Tracks)
    requires Selects(tracks, selected)
  {
    tracks[selected := RemoveFrom(tracks[selected], id)]
  }

  /** Segments with id `id`. */
  function CountId(track: seq<Segment>, id: int): nat
  {
    if track == [] then 0 else (if track[0].id == id then 1 else 0) + CountId(track[1..], id)
  }

  /**
    Every edit keeps seven tracks when there were seven, and changes no track
    but the selected motor's.
   */
  lemma EditsTouchOnlySelected(tracks: Tracks, selected: int, id: int, field: Field, value: int)
    requires Selects(tracks, selected)
    ensures |AddSegment(tracks, selected, id)| == |tracks|
    ensures |UpdateSegment(tracks, selected, id, field, value)| == |tracks|
    ensures |RemoveSegment(tracks, selected, id)| == |tracks|
    ensures forall m :: 0 <= m < |tracks| && m != selected ==>
              AddSegment(tracks, selected, id)[m] == tracks[m]
              && UpdateSegment(tracks, selected, id, field, value)[m] == tracks[m]
              && RemoveSegment(tracks, selected, id)[m] == tracks[m]
  {
  }

  /** A new segment goes at the end of the selected track, with duration 1000 and speed 50. */
  lemma AddSegmentAppends(tracks: Tracks, selected: int, id: int)
    requires Selects(tracks, selected)
    ensures var t := AddSegment(tracks, selected, id)[selected];
            |t| == |tracks[selected]| + 1 && t[..|tracks[selected]|] == tracks[selected]
            && t[|tracks[selected]|] == Segment(id, 1000, 50)
  {
  }

  /** `updateSegment` keeps the id and the other field of every segment, and the segment order. */
  lemma UpdateKeepsOthers(track: seq<Segment>, id: int, field: Field, value: int)
    ensures var r := UpdateTrack(track, id, field, value);
            forall i :: 0 <= i < |track| ==>
              r[i].id == track[i].id
              && (field == Duration ==> r[i].speed == track[i].speed && (track[i].id == id ==> r[i].duration == value))
              && (field == Speed ==> r[i].duration == track[i].duration && (track[i].id == id ==> r[i].speed == value))
              && (track[i].id != id ==> r[i] == track[i])
  {
  }

  /** Setting the same field twice is the same as setting it once, to the later value. */
  lemma {:induction false} UpdateTwice(track: seq<Segment>, id: int, field: Field, first: int, second: int)
    ensures UpdateTrack(UpdateTrack(track, id, field, first), id, field, second) == UpdateTrack(track, id, field, second)
  {
    if track != [] {
      UpdateTwice(track[1..], id, field, first, second);
      assert UpdateTrack(track, id, field, first)[1..] == UpdateTrack(track[1..], id, field, first);
    }
  }

  /** Removing keeps the order of the remaining segments: it works piecewise on any split of the track. */
  lemma {:induction false} RemoveSplits(a: seq<Segment>, b: seq<Segment>, id: int)
    ensures RemoveFrom(a + b, id) == RemoveFrom(a, id) + RemoveFrom(b, id)
  {
    if a == [] {
      assert a + b == b;
    } else {
      assert (a + b)[1..] == a[1..] + b;
      RemoveSplits(a[1..], b, id);
    }
  }

  /** Exactly the segments with that id go: the track shrinks by their number, and a track without one is unchanged. */
  lemma {:induction false} RemoveCounts(track: seq<Segment>, id: int)
    ensures |RemoveFrom(track, id)| == |track| - CountId(track, id)
    ensures CountId(track, id) == 0 ==> RemoveFrom(track, id) == track
  {
    if track != [] {
      RemoveCounts(track[1..], id);
      assert track == [track[0]] + track[1..];
    }
  }

  /** Removing a segment just added, whose id was new, gives the tracks back. */
  lemma AddThenRemove(tracks: Tracks, selected: int, id: int)
    requires Selects(tracks, selected)
    requires forall s :: s in tracks[selected] ==> s.id != id
    ensures RemoveSegment(AddSegment(tracks, selected, id), selected, id) == tracks
  {
    var t := tracks[selected];
    RemoveSplits(t, [Segment(id, NewDuration, NewSpeed)], id);
    NoIdKept(t, id);
    assert RemoveFrom([Segment(id, NewDuration, NewSpeed)], id) == [];
    assert RemoveFrom(t + [Segment(id, NewDuration, NewSpeed)], id) == t;
  }

  lemma {:induction false} NoIdKept(track: seq<Segment>, id: int)
    requires forall s :: s in track ==> s.id != id
    ensures RemoveFrom(track, id) == track
  {
    if track != [] {
      assert track[0] in track;
      NoIdKept(track[1..], id);
      assert track == [track[0]] + track[1..];
    }
  }

  // ---------------------------------------------------------------------------
  // The posted pattern

  /** One segment as sent: its duration and its speed in hundredths of the device's 0-6 scale. */
  datatype Step = Step(duration: int, speedHundredths: int)

  /** One motor's part of the posted pattern. */
  datatype Pattern = Pattern(motorId: int, segments: seq<Step>)

  /** `speed * 0.06` rounded to two decimals, in hundredths: exactly `speed * 6` for a whole-number speed. */
  function ToStep(s: Segment): Step
  {
    Step(s.duration, s.speed * 6)
  }

  function Steps(track: seq<Segment>): (r: seq<Step>)
    ensures |r| == |track| && forall i :: 0 <= i < |track| ==> r[i] == ToStep(track[i])
  {
    seq(|track|, i requires 0 <= i < |track| => ToStep(track[i]))
  }

  /** The patterns of the non-empty tracks from index `from` on, each labelled with its track's index. */
  function FormatFrom(tracks: Tracks, from: nat): (r: seq<Pattern>)
    requires from <= |tracks|
    ensures forall p :: p in r ==> from <= p.motorId < |tracks| && tracks[p.motorId] != []
                                    && p.segments == Steps(tracks[p.motorId])
    ensures forall m :: from <= m < |tracks| && tracks[m] != [] ==> Pattern(m, Steps(tracks[m])) in r
    ensures forall i, j :: 0 <= i < j < |r| ==> r[i].motorId < r[j].motorId
    decreases |tracks| - from
  {
    if from == |tracks| then []
    else if tracks[from] == [] then FormatFrom(tracks, from + 1)
    else [Pattern(from, Steps(tracks[from]))] + FormatFrom(tracks, from + 1)
  }

  /**
    `formatPattern`: one pattern per non-empty track, in track order, with the
    motor id being the track's index and the segments' order and durations kept.
   */
  function FormatPattern(tracks: Tracks): (r: seq<Pattern>)
    ensures forall p :: p in r ==> 0 <= p.motorId < |tracks| && tracks[p.motorId] != []
    ensures forall m :: 0 <= m < |tracks| ==> (tracks[m] != [] <==> exists p :: p in r && p.motorId == m)
    ensures forall i, j :: 0 <= i < j < |r| ==> r[i].motorId < r[j].motorId
    ensures forall p :: p in r ==>
              |p.segments| == |tracks[p.motorId]|
              && forall k :: 0 <= k < |p.segments| ==> p.segments[k].duration == tracks[p.motorId][k].duration
  {
    var r := FormatFrom(tracks, 0);
    assert forall m :: 0 <= m < |tracks| && tracks[m] != [] ==> Pattern(m, Steps(tracks[m])) in r;
    r
  }

  /** Nothing is posted for the editor's first state, and one new segment posts exactly that motor's pattern. */
  lemma FormatAfterFirstAdd(selected: int, id: int)
    requires 0 <= selected < MotorCount
    ensures FormatPattern(InitialTracks()) == []
    ensures FormatPattern(AddSegment(InitialTracks(), selected, id)) == [Pattern(selected, [Step(1000, 300)])]
  {
    var t := AddSegment(InitialTracks(), selected, id);
    var r := FormatPattern(t);
    assert Pattern(selected, Steps(t[selected])) in r;
    assert Steps(t[selected]) == [Step(1000, 300)];
    forall p | p in r ensures p == Pattern(selected, [Step(1000, 300)]) {
      assert p.motorId == selected;
    }
    OnlyOne(r, Pattern(selected, [Step(1000, 300)]));
    var empty := FormatPattern(InitialTracks());
    assert forall p :: p !in empty;
  }

  lemma OnlyOne(r: seq<Pattern>, x: Pattern)
    requires x in r && forall p :: p in r ==> p == x
    requires forall i, j :: 0 <= i < j < |r| ==> r[i].motorId < r[j].motorId
    ensures r == [x]
  {
    assert forall i :: 0 <= i < |r| ==> r[i] in r;
    assert |r| < 2 || r[0].motorId < r[1].motorId;
    assert |r| == 1;
  }

  // ---------------------------------------------------------------------------
  // Motor assignments

  /** `handleMotorAssign`: a motor already assigned the selected track is unassigned, any other motor is assigned it. */
  function HandleMotorAssign(assignments: map<int, int>, motorIndex: int, selected: int): (r: map<int, int>)
    ensures (motorIndex in r && r[motorIndex] == selected) <==> !(motorIndex in assignments && assignments[motorIndex] == selected)
    ensures motorIndex in r ==> r[motorIndex] == selected
    ensures forall k :: k != motorIndex ==> (k in r <==> k in assignments) && (k in r ==> r[k] == assignments[k])
  {
    if motorIndex in assignments && assignments[motorIndex] == selected then assignments - {motorIndex}
    else assignments[motorIndex := selected]
  }

  /** Clicking the same motor twice with the same track selected undoes the first click, unless the motor was assigned another track. */
  lemma {:induction false} AssignTwice(assignments: map<int, int>, motorIndex: int, selected: int)
    ensures (motorIndex !in assignments || assignments[motorIndex] == selected) ==>
              HandleMotorAssign(HandleMotorAssign(assignments, motorIndex, selected), motorIndex, selected) == assignments
    ensures (motorIndex in assignments && assignments[motorIndex] != selected) ==>
              HandleMotorAssign(HandleMotorAssign(assignments, motorIndex, selected), motorIndex, selected)
              == assignments - {motorIndex}
  {
    var once := HandleMotorAssign(assignments, motorIndex, selected);
    var twice := HandleMotorAssign(once, motorIndex, selected);
    if motorIndex !in assignments || assignments[motorIndex] == selected {
      assert twice.Keys == assignments.Keys;
    } else {
      assert twice.Keys == assignments.Keys - {motorIndex};
    }
  }
}
