/** The per-frame body of the tracking loop of `start_tracker`
    (yolo/beready_tracker.py): the registry of tracked identities, the
    head-of-queue target, and the wait estimate produced when that target
    disappears.

    `NextState` is the reference definition of one frame, written as the
    composition of its five phases; `QueueTracker.Step` does the same work
    with the source's loops over the tracks and over the registry and is
    proved to agree with it. The lemmas state what one frame and a run of
    frames promise. */
module Tracker {
  import opened Seqs

  /** The source's eviction threshold `max_missed`, in frames. */
  const DefaultMaxMissed: nat := 150
  /** The source's detection confidence threshold `conf_threshold`. */
  const ConfThreshold: real := 0.2
  /** The class id the detector gives to a person. */
  const PersonClass: int := 0
  /** The value the published wait starts with (`wait = 20.0`). */
  const InitialWait: real := 20.0

  // ---------------------------------------------------------------------
  // Detector output filtered for the tracker association
  // ---------------------------------------------------------------------

  /** One box of the detector: integer corners, confidence and class id. */
  datatype Box = Box(x1: int, y1: int, x2: int, y2: int, score: real, cls: int)

  /** One row `[x1, y1, x2, y2, score]` handed to the tracker association. */
  datatype Detection = Detection(x1: int, y1: int, x2: int, y2: int, score: real)

  predicate IsPersonBox(b: Box) {
    b.cls == PersonClass && b.score >= ConfThreshold
  }

  function ToDetection(b: Box): Detection {
    Detection(b.x1, b.y1, b.x2, b.y2, b.score)
  }

  /** The rows given to the association: the person boxes at or above the
      confidence threshold, in detector order, without their class. */
  function PersonDetections(boxes: seq<Box>): seq<Detection> {
    var kept := Filter(boxes, (b: Box) => IsPersonBox(b));
    seq(|kept|, i requires 0 <= i < |kept| => ToDetection(kept[i]))
  }

  /** The detection loop over `results.boxes`. */
  method CollectDetections(boxes: seq<Box>) returns (dets: seq<Detection>)
    ensures dets == PersonDetections(boxes)
  {
    dets := [];
    for i := 0 to |boxes|
      invariant dets == PersonDetections(boxes[..i])
    {
      var b := boxes[i];
      assert boxes[..i + 1][..i] == boxes[..i];
      if b.cls == PersonClass && b.score >= ConfThreshold {
        dets := dets + [Detection(b.x1, b.y1, b.x2, b.y2, b.score)];
      }
    }
    assert boxes[..|boxes|] == boxes;
  }

  /** Every row handed on comes from a person box at or above the
      threshold, and every such box is handed on. */
  lemma PersonDetectionsExact(boxes: seq<Box>)
    ensures |PersonDetections(boxes)| <= |boxes|
    ensures forall i :: 0 <= i < |PersonDetections(boxes)| ==>
      exists j :: 0 <= j < |boxes| && IsPersonBox(boxes[j]) && PersonDetections(boxes)[i] == ToDetection(boxes[j])
    ensures forall j :: 0 <= j < |boxes| && IsPersonBox(boxes[j]) ==>
      ToDetection(boxes[j]) in PersonDetections(boxes)
  {
    var kept := Filter(boxes, (b: Box) => IsPersonBox(b));
    var dets := PersonDetections(boxes);
    assert |dets| == |kept|;
    forall i | 0 <= i < |dets|
      ensures exists j :: 0 <= j < |boxes| && IsPersonBox(boxes[j]) && dets[i] == ToDetection(boxes[j])
    {
      assert kept[i] in boxes && IsPersonBox(kept[i]);
      var j :| 0 <= j < |boxes| && boxes[j] == kept[i];
      assert dets[i] == ToDetection(boxes[j]);
    }
    forall j | 0 <= j < |boxes| && IsPersonBox(boxes[j])
      ensures ToDetection(boxes[j]) in dets
    {
      assert boxes[j] in kept;
      var k :| 0 <= k < |kept| && kept[k] == boxes[j];
      assert dets[k] == ToDetection(boxes[j]);
    }
  }

  // ---------------------------------------------------------------------
  // Tracks and the identity registry
  // ---------------------------------------------------------------------

  /** One target of the association: its id and its `tlwh` box. */
  datatype OnlineTarget = OnlineTarget(trackId: int, left: int, top: int, width: int, height: int)

  /** One entry `[x1, y1, x2, y2, track_id]` of the frame's `tracks` list. */
  datatype Track = Track(x1: int, y1: int, x2: int, y2: int, id: int)

  function ToTrack(t: OnlineTarget): Track {
    Track(t.left, t.top, t.left + t.width, t.top + t.height, t.trackId)
  }

  function TracksOf(targets: seq<OnlineTarget>): (tracks: seq<Track>)
    ensures |tracks| == |targets|
  {
    seq(|targets|, i requires 0 <= i < |targets| => ToTrack(targets[i]))
  }

  /** The ids present in a frame (`present_ids`). */
  function Ids(tracks: seq<Track>): set<int> {
    set t | t in tracks :: t.id
  }

  /** `{first_seen, last_seen_frame, missed}` of one id. */
  datatype Record = Record(firstSeen: real, lastSeenFrame: nat, missed: nat)

  /** The tracker's variables: the registry `meta`, `target_id`,
      `current_people_count`, `wait` and `frame_count`. */
  datatype TrackerState = TrackerState(
    meta: map<int, Record>,
    targetId: Option<int>,
    peopleCount: nat,
    wait: real,
    frameCount: nat)

  /** The state when the loop starts. */
  function Initial(): TrackerState {
    TrackerState(map[], None, 0, InitialWait, 0)
  }

  // ---------------------------------------------------------------------
  // The five phases of one frame
  // ---------------------------------------------------------------------

  /** Phase 1: every observed id is refreshed to `missed = 0` and the current
      frame; a new one is registered with `first_seen = now`. */
  function Refresh(meta: map<int, Record>, ids: set<int>, frame: nat, now: real): map<int, Record> {
    map k | k in meta.Keys + ids ::
      if k !in ids then meta[k]
      else if k in meta then meta[k].(lastSeenFrame := frame, missed := 0)
      else Record(now, frame, 0)
  }

  /** Phase 2: every registered id not observed in this frame misses one
      more frame. */
  function MarkAbsent(meta: map<int, Record>, present: set<int>): map<int, Record> {
    map k | k in meta :: if k in present then meta[k] else meta[k].(missed := meta[k].missed + 1)
  }

  /** The target has been missing for `maxMissed` frames. */
  predicate TargetGone(s: TrackerState, maxMissed: nat) {
    s.targetId.Some? && s.targetId.value in s.meta && s.meta[s.targetId.value].missed >= maxMissed
  }

  /** The wait a completed target stands for: its dwell divided by the number
      of people seen when it was selected, or the raw dwell if that was 0. */
  function WaitEstimate(dwell: real, peopleCount: nat): real {
    if peopleCount > 0 then dwell / (peopleCount as real) else dwell
  }

  /** Phase 3: a gone target is completed: the wait is estimated from its
      dwell, its record is deleted and the target is released. */
  function Complete(s: TrackerState, now: real, maxMissed: nat): TrackerState {
    if TargetGone(s, maxMissed) then
      var t := s.targetId.value;
      s.(wait := WaitEstimate(now - s.meta[t].firstSeen, s.peopleCount),
         meta := s.meta - {t},
         targetId := None)
    else s
  }

  /** Phase 4: every record that has missed `maxMissed` frames is deleted. */
  function Sweep(meta: map<int, Record>, maxMissed: nat): map<int, Record> {
    map k | k in meta && meta[k].missed < maxMissed :: meta[k]
  }

  /** Twice the horizontal centre of a track, `x1 + x2`; it orders tracks
      the way `(x1 + x2) / 2` does. */
  function Centre2(t: Track): int {
    t.x1 + t.x2
  }

  /** `k` is the position `min(tracks, key=centre)` picks: a smallest
      centre, and the first one in list order among equals. */
  ghost predicate IsFirstLeftmost(tracks: seq<Track>, k: int) {
    && 0 <= k < |tracks|
    && (forall j :: 0 <= j < |tracks| ==> Centre2(tracks[k]) <= Centre2(tracks[j]))
    && (forall j :: 0 <= j < k ==> Centre2(tracks[j]) > Centre2(tracks[k]))
  }

  function Leftmost(tracks: seq<Track>): (k: nat)
    requires |tracks| > 0
    ensures IsFirstLeftmost(tracks, k)
    decreases |tracks|
  {
    if |tracks| == 1 then 0
    else
      var k := Leftmost(tracks[1..]) + 1;
      assert forall j :: 1 <= j < |tracks| ==> tracks[1..][j - 1] == tracks[j];
      if Centre2(tracks[k]) < Centre2(tracks[0]) then k else 0
  }

  /** Phase 5: with no target, the leftmost track of the frame becomes the
      target and the number of tracks is remembered. */
  function Select(s: TrackerState, tracks: seq<Track>): TrackerState {
    if s.targetId.None? && |tracks| > 0 then
      s.(targetId := Some(tracks[Leftmost(tracks)].id), peopleCount := |tracks|)
    else s
  }

  /** State after phases 1 to 3 (the frame counter already advanced). */
  function Completed(s: TrackerState, targets: seq<OnlineTarget>, now: real, maxMissed: nat): TrackerState {
    var frame := s.frameCount + 1;
    var ids := Ids(TracksOf(targets));
    Complete(s.(frameCount := frame, meta := MarkAbsent(Refresh(s.meta, ids, frame, now), ids)), now, maxMissed)
  }

  /** One frame: the counter advances, then the five phases in order. */
  function NextState(s: TrackerState, targets: seq<OnlineTarget>, now: real, maxMissed: nat): TrackerState {
    var c := Completed(s, targets, now, maxMissed);
    Select(c.(meta := Sweep(c.meta, maxMissed)), TracksOf(targets))
  }

  /** Whether this frame completes the current target: it is registered,
      not observed, and has now missed `maxMissed` frames. */
  predicate Completes(s: TrackerState, targets: seq<OnlineTarget>, maxMissed: nat) {
    && s.targetId.Some?
    && s.targetId.value in s.meta
    && s.targetId.value !in Ids(TracksOf(targets))
    && s.meta[s.targetId.value].missed + 1 >= maxMissed
  }

  /** What the tracker keeps true between frames: the target is registered
      and no record is stale. */
  ghost predicate Inv(s: TrackerState, maxMissed: nat) {
    && (s.targetId.Some? ==> s.targetId.value in s.meta)
    && (forall k :: k in s.meta ==> s.meta[k].missed < maxMissed)
  }

  // ---------------------------------------------------------------------
  // What one frame promises
  // ---------------------------------------------------------------------

  /** The frame counter rises by exactly one per frame. */
  lemma FrameCountAdvances(s: TrackerState, targets: seq<OnlineTarget>, now: real, maxMissed: nat)
    ensures NextState(s, targets, now, maxMissed).frameCount == s.frameCount + 1
  {
  }

  /** Every id observed in the frame is registered afterwards with
      `missed = 0` and the new frame number; a new id is first seen now and
      a known one keeps its first sighting. */
  lemma ObservedIdRefreshed(s: TrackerState, targets: seq<OnlineTarget>, now: real, maxMissed: nat, id: int)
    requires maxMissed >= 1
    requires id in Ids(TracksOf(targets))
    ensures var r := NextState(s, targets, now, maxMissed);
      && id in r.meta
      && r.meta[id] == Record(if id in s.meta then s.meta[id].firstSeen else now, s.frameCount + 1, 0)
  {
    var frame := s.frameCount + 1;
    var ids := Ids(TracksOf(targets));
    var m1 := MarkAbsent(Refresh(s.meta, ids, frame, now), ids);
    var c := Completed(s, targets, now, maxMissed);
    assert m1[id].missed == 0;
    assert c.meta == m1 || c.meta == m1 - {s.targetId.value};
    assert id in c.meta && c.meta[id] == m1[id];
  }

  /** Every registered id not observed in the frame has `missed` increased
      by exactly one and nothing else changed; it stays registered exactly
      when it is still below the threshold. */
  lemma AbsentIdAged(s: TrackerState, targets: seq<OnlineTarget>, now: real, maxMissed: nat, id: int)
    requires id in s.meta && id !in Ids(TracksOf(targets))
    ensures var r := NextState(s, targets, now, maxMissed);
      && (id in r.meta <==> s.meta[id].missed + 1 < maxMissed)
      && (id in r.meta ==> r.meta[id] == s.meta[id].(missed := s.meta[id].missed + 1))
  {
    var frame := s.frameCount + 1;
    var ids := Ids(TracksOf(targets));
    var m1 := MarkAbsent(Refresh(s.meta, ids, frame, now), ids);
    var c := Completed(s, targets, now, maxMissed);
    assert m1[id] == s.meta[id].(missed := s.meta[id].missed + 1);
    assert c.meta == m1 || c.meta == m1 - {s.targetId.value};
    if id in c.meta {
      assert c.meta[id] == m1[id];
    } else {
      assert TargetGone(Completed(s, targets, now, maxMissed).(targetId := s.targetId, meta := m1), maxMissed) || id !in m1;
    }
  }

  /** Nothing else is in the registry after a frame: its ids are exactly
      the observed ones and the unobserved ones that are still fresh. */
  lemma RegistryKeys(s: TrackerState, targets: seq<OnlineTarget>, now: real, maxMissed: nat)
    requires maxMissed >= 1
    ensures var ids := Ids(TracksOf(targets));
      NextState(s, targets, now, maxMissed).meta.Keys ==
        ids + (set k | k in s.meta && k !in ids && s.meta[k].missed + 1 < maxMissed)
  {
    var ids := Ids(TracksOf(targets));
    var r := NextState(s, targets, now, maxMissed);
    var want := ids + (set k | k in s.meta && k !in ids && s.meta[k].missed + 1 < maxMissed);
    forall k | k in want ensures k in r.meta {
      if k in ids {
        ObservedIdRefreshed(s, targets, now, maxMissed, k);
      } else {
        AbsentIdAged(s, targets, now, maxMissed, k);
      }
    }
    forall k | k in r.meta ensures k in want {
      if k !in ids {
        assert k in s.meta;
        AbsentIdAged(s, targets, now, maxMissed, k);
      }
    }
  }

  /** After every frame no record has missed `maxMissed` frames or more. */
  lemma NoStaleRecord(s: TrackerState, targets: seq<OnlineTarget>, now: real, maxMissed: nat)
    ensures var r := NextState(s, targets, now, maxMissed);
      forall k :: k in r.meta ==> r.meta[k].missed < maxMissed
  {
  }

  /** Completion: when the target has now missed `maxMissed` frames the wait
      becomes its dwell over the remembered people count (or the raw dwell
      for a count of 0) and its record is gone; otherwise the wait is
      unchanged. */
  lemma TargetCompletion(s: TrackerState, targets: seq<OnlineTarget>, now: real, maxMissed: nat)
    requires maxMissed >= 1
    ensures var r := NextState(s, targets, now, maxMissed);
      if Completes(s, targets, maxMissed) then
        var t := s.targetId.value;
        && r.wait == WaitEstimate(now - s.meta[t].firstSeen, s.peopleCount)
        && t !in r.meta
        && (r.targetId.Some? ==> r.targetId.value in Ids(TracksOf(targets)))
      else
        r.wait == s.wait
  {
    var frame := s.frameCount + 1;
    var ids := Ids(TracksOf(targets));
    var before := s.(frameCount := frame, meta := MarkAbsent(Refresh(s.meta, ids, frame, now), ids));
    assert TargetGone(before, maxMissed) <==> Completes(s, targets, maxMissed);
    if Completes(s, targets, maxMissed) {
      var tracks := TracksOf(targets);
      if |tracks| > 0 {
        assert tracks[Leftmost(tracks)] in tracks;
      }
    }
  }

  /** The wait estimate when a target completes: with a positive count it
      is the share of the dwell per person, so count times wait gives the
      dwell back; with a count of 0 it is the dwell. */
  lemma WaitEstimateMeaning(dwell: real, peopleCount: nat)
    ensures peopleCount > 0 ==> WaitEstimate(dwell, peopleCount) * (peopleCount as real) == dwell
    ensures peopleCount == 0 ==> WaitEstimate(dwell, peopleCount) == dwell
  {
  }

  /** Selection: with no target left after completion and a non-empty
      frame, the target becomes the first track in list order with the
      smallest centre and the count becomes the number of tracks; otherwise
      neither the target nor the count changes. Completion and selection
      can happen in the same frame. */
  lemma TargetSelection(s: TrackerState, targets: seq<OnlineTarget>, now: real, maxMissed: nat)
    requires maxMissed >= 1
    ensures var r := NextState(s, targets, now, maxMissed);
      var tracks := TracksOf(targets);
      var free := s.targetId.None? || Completes(s, targets, maxMissed);
      if free && |tracks| > 0 then
        exists k :: IsFirstLeftmost(tracks, k) && r.targetId == Some(tracks[k].id) && r.peopleCount == |tracks|
      else
        r.targetId == (if free then None else s.targetId) && r.peopleCount == s.peopleCount
  {
    var frame := s.frameCount + 1;
    var ids := Ids(TracksOf(targets));
    var before := s.(frameCount := frame, meta := MarkAbsent(Refresh(s.meta, ids, frame, now), ids));
    assert TargetGone(before, maxMissed) <==> Completes(s, targets, maxMissed);
    var tracks := TracksOf(targets);
    if (s.targetId.None? || Completes(s, targets, maxMissed)) && |tracks| > 0 {
      var k := Leftmost(tracks);
      assert IsFirstLeftmost(tracks, k);
    }
  }

  /** The first leftmost position is unique, so the target is determined by
      the frame. */
  lemma FirstLeftmostUnique(tracks: seq<Track>, k1: int, k2: int)
    requires IsFirstLeftmost(tracks, k1) && IsFirstLeftmost(tracks, k2)
    ensures k1 == k2
  {
    assert Centre2(tracks[k1]) == Centre2(tracks[k2]);
  }

  /** Between frames the target is registered and no record is stale; one
      frame keeps this, because completion is checked before the sweep and
      a new target is picked from ids just refreshed. */
  lemma StepPreservesInv(s: TrackerState, targets: seq<OnlineTarget>, now: real, maxMissed: nat)
    requires maxMissed >= 1
    requires Inv(s, maxMissed)
    ensures Inv(NextState(s, targets, now, maxMissed), maxMissed)
  {
    var r := NextState(s, targets, now, maxMissed);
    var tracks := TracksOf(targets);
    var c := Completed(s, targets, now, maxMissed);
    if r.targetId.Some? {
      var t := r.targetId.value;
      if c.targetId.None? {
        assert tracks[Leftmost(tracks)] in tracks;
        ObservedIdRefreshed(s, targets, now, maxMissed, t);
      } else {
        assert c.targetId == s.targetId == r.targetId;
        assert t in c.meta && c.meta[t].missed < maxMissed;
      }
    }
  }

  // ---------------------------------------------------------------------
  // Runs of frames
  // ---------------------------------------------------------------------

  /** One frame of input: the association's targets and the clock. */
  datatype Frame = Frame(targets: seq<OnlineTarget>, now: real)

  /** `detect_interval`: the detector runs every this many frames. */
  const DetectInterval: nat := 1

  /** The targets a frame hands to the per-frame body: the association's
      output on frames whose number is a multiple of the interval, and no
      targets on the frames in between. */
  function Observed(frame: nat, interval: nat, associated: seq<OnlineTarget>): seq<OnlineTarget>
    requires interval >= 1
  {
    if frame % interval == 0 then associated else []
  }

  /** On a frame without detection nothing is observed: every record ages
      by one frame and survives exactly while it is below the threshold. */
  lemma SkippedFrameAgesAll(s: TrackerState, interval: nat, associated: seq<OnlineTarget>, now: real, maxMissed: nat)
    requires maxMissed >= 1 && interval >= 1 && (s.frameCount + 1) % interval != 0
    ensures var r := NextState(s, Observed(s.frameCount + 1, interval, associated), now, maxMissed);
      && (forall k :: k in r.meta <==> k in s.meta && s.meta[k].missed + 1 < maxMissed)
      && (forall k :: k in r.meta ==> r.meta[k] == s.meta[k].(missed := s.meta[k].missed + 1))
  {
    var targets := Observed(s.frameCount + 1, interval, associated);
    assert targets == [];
    assert Ids(TracksOf(targets)) == {};
    RegistryKeys(s, targets, now, maxMissed);
    forall k | k in s.meta
      ensures var r := NextState(s, targets, now, maxMissed);
        k in r.meta ==> r.meta[k] == s.meta[k].(missed := s.meta[k].missed + 1)
    {
      AbsentIdAged(s, targets, now, maxMissed, k);
    }
  }

  /** With the source's `detect_interval` of 1 the detector runs on every
      frame, so every frame sees the association's output. */
  lemma EveryFrameDetected(frame: nat, associated: seq<OnlineTarget>)
    ensures Observed(frame, DetectInterval, associated) == associated
  {
  }

  function Run(s: TrackerState, frames: seq<Frame>, maxMissed: nat): TrackerState
    decreases |frames|
  {
    if frames == [] then s
    else Run(NextState(s, frames[0].targets, frames[0].now, maxMissed), frames[1..], maxMissed)
  }

  /** The tracker's invariant holds from the initial state on. */
  lemma RunKeepsInv(s: TrackerState, frames: seq<Frame>, maxMissed: nat)
    requires maxMissed >= 1 && Inv(s, maxMissed)
    ensures Inv(Run(s, frames, maxMissed), maxMissed)
    decreases |frames|
  {
    if frames != [] {
      StepPreservesInv(s, frames[0].targets, frames[0].now, maxMissed);
      RunKeepsInv(NextState(s, frames[0].targets, frames[0].now, maxMissed), frames[1..], maxMissed);
    }
  }

  lemma InitialInv(maxMissed: nat)
    ensures Inv(Initial(), maxMissed) && Initial().wait == InitialWait
  {
  }

  /** An id observed in every frame of a run is never evicted: it ends
      registered with `missed = 0`, last seen in the final frame, and it
      keeps the first sighting it had before the run. */
  lemma {:induction false} IdSeenEveryFrameKept(s: TrackerState, frames: seq<Frame>, maxMissed: nat, id: int)
    requires maxMissed >= 1 && |frames| > 0
    requires forall i :: 0 <= i < |frames| ==> id in Ids(TracksOf(frames[i].targets))
    ensures var r := Run(s, frames, maxMissed);
      && id in r.meta && r.meta[id].missed == 0
      && r.meta[id].lastSeenFrame == s.frameCount + |frames|
      && r.meta[id].firstSeen == (if id in s.meta then s.meta[id].firstSeen else frames[0].now)
    decreases |frames|
  {
    var s' := NextState(s, frames[0].targets, frames[0].now, maxMissed);
    ObservedIdRefreshed(s, frames[0].targets, frames[0].now, maxMissed, id);
    if |frames| > 1 {
      IdSeenEveryFrameKept(s', frames[1..], maxMissed, id);
      assert Run(s, frames, maxMissed) == Run(s', frames[1..], maxMissed);
    }
  }

  /** A target observed in every frame never completes: the target, the
      people count and the wait (20.0 until a first completion) stay as
      they are. */
  lemma {:induction false} TargetSeenEveryFrameKept(s: TrackerState, frames: seq<Frame>, maxMissed: nat)
    requires maxMissed >= 1 && s.targetId.Some?
    requires forall i :: 0 <= i < |frames| ==> s.targetId.value in Ids(TracksOf(frames[i].targets))
    ensures var r := Run(s, frames, maxMissed);
      r.targetId == s.targetId && r.peopleCount == s.peopleCount && r.wait == s.wait
    decreases |frames|
  {
    if frames != [] {
      var f := frames[0];
      TargetCompletion(s, f.targets, f.now, maxMissed);
      TargetSelection(s, f.targets, f.now, maxMissed);
      TargetSeenEveryFrameKept(NextState(s, f.targets, f.now, maxMissed), frames[1..], maxMissed);
    }
  }

  // ---------------------------------------------------------------------
  // Scenarios
  // ---------------------------------------------------------------------

  /** A target first seen at 0 s completes at 35 s with 4 people counted at
      selection: the dwell of 35 s gives a wait of 8.75 s. */
  lemma CompletionScenario()
    ensures var s := TrackerState(map[7 := Record(0.0, 100, DefaultMaxMissed - 1)], Some(7), 4, InitialWait, 250);
      var r := NextState(s, [], 35.0, DefaultMaxMissed);
      r.wait == 8.75 && r.targetId == None && 7 !in r.meta
  {
    var s := TrackerState(map[7 := Record(0.0, 100, DefaultMaxMissed - 1)], Some(7), 4, InitialWait, 250);
    TargetCompletion(s, [], 35.0, DefaultMaxMissed);
  }

  /** Two tracks with the same centre: the first in list order is selected,
      even though the second has the lower id. */
  lemma TieBreakScenario()
    ensures var targets := [OnlineTarget(5, 10, 0, 10, 30), OnlineTarget(3, 5, 0, 20, 30)];
      NextState(Initial(), targets, 1.0, DefaultMaxMissed).targetId == Some(5)
  {
    var targets := [OnlineTarget(5, 10, 0, 10, 30), OnlineTarget(3, 5, 0, 20, 30)];
    var tracks := TracksOf(targets);
    assert tracks == [Track(10, 0, 20, 30, 5), Track(5, 0, 25, 30, 3)];
    assert Leftmost(tracks) == 0;
  }

  // ---------------------------------------------------------------------
  // The tracking loop's variables, updated in place frame by frame
  // ---------------------------------------------------------------------

  class QueueTracker {
    var meta: map<int, Record>
    var targetId: Option<int>
    var currentPeopleCount: nat
    var wait: real
    var frameCount: nat
    const maxMissed: nat

    function Snapshot(): TrackerState
      reads this
    {
      TrackerState(meta, targetId, currentPeopleCount, wait, frameCount)
    }

    ghost predicate Valid()
      reads this
    {
      maxMissed >= 1 && Inv(Snapshot(), maxMissed)
    }

    constructor (maxMissed: nat)
      requires maxMissed >= 1
      ensures Valid() && this.maxMissed == maxMissed && Snapshot() == Initial()
    {
      meta := map[];
      targetId := None;
      currentPeopleCount := 0;
      wait := InitialWait;
      frameCount := 0;
      this.maxMissed := maxMissed;
    }

    /** One pass of the `while running` loop after the association. */
    method Step(targets: seq<OnlineTarget>, now: real)
      requires Valid()
      modifies this
      ensures Valid()
      ensures Snapshot() == NextState(old(Snapshot()), targets, now, maxMissed)
    {
      ghost var s0 := Snapshot();
      frameCount := frameCount + 1;
      var tracks, presentIds := RefreshTracks(targets, now);
      MarkAbsentIds(presentIds);
      CompleteTarget(now);
      assert Snapshot() == Completed(s0, targets, now, maxMissed);
      SweepStale();
      ObservedSurviveSweep(s0, targets, now, maxMissed);
      SelectTarget(tracks);
      StepPreservesInv(s0, targets, now, maxMissed);
    }

    /** With no target, the leftmost track of the frame becomes the target
        and the number of tracks is remembered. */
    method SelectTarget(tracks: seq<Track>)
      requires forall k :: 0 <= k < |tracks| ==> tracks[k].id in meta
      modifies this`targetId, this`currentPeopleCount
      ensures Snapshot() == Select(old(Snapshot()), tracks)
    {
      if targetId.None? && |tracks| > 0 {
        var k := Leftmost(tracks);
        targetId := Some(tracks[k].id);
        currentPeopleCount := |tracks|;
        // The registry lookup of the new target cannot fail.
        assert tracks[k].id in meta;
      }
    }

    /** The tracks of the frame, built from the association's targets, and
        the refresh of their records. */
    method RefreshTracks(targets: seq<OnlineTarget>, now: real) returns (tracks: seq<Track>, presentIds: set<int>)
      modifies this`meta
      ensures tracks == TracksOf(targets) && presentIds == Ids(tracks)
      ensures meta == Refresh(old(meta), presentIds, frameCount, now)
    {
      presentIds := {};
      tracks := [];
      for i := 0 to |targets|
        invariant tracks == TracksOf(targets[..i])
        invariant presentIds == Ids(tracks)
        invariant meta == Refresh(old(meta), presentIds, frameCount, now)
      {
        var t := targets[i];
        var x1, y1 := t.left, t.top;
        var x2, y2 := x1 + t.width, y1 + t.height;
        ghost var ids := presentIds;
        ghost var before := tracks;
        tracks := tracks + [Track(x1, y1, x2, y2, t.trackId)];
        presentIds := presentIds + {t.trackId};
        TouchRecord(t.trackId, now);
        RefreshAdd(old(meta), ids, t.trackId, frameCount, now);
        TracksSnoc(targets, i);
        IdsSnoc(before, ToTrack(t));
      }
      assert targets[..|targets|] == targets;
    }

    /** The record of an observed id: created with `first_seen = now`, or
        refreshed to this frame with no miss. */
    method TouchRecord(trackId: int, now: real)
      modifies this`meta
      ensures meta == Touch(old(meta), trackId, frameCount, now)
    {
      if trackId !in meta {
        meta := meta[trackId := Record(now, frameCount, 0)];
      } else {
        meta := meta[trackId := meta[trackId].(lastSeenFrame := frameCount, missed := 0)];
      }
    }

    /** Every registered id absent from the frame misses one more frame. */
    method MarkAbsentIds(presentIds: set<int>)
      modifies this`meta
      ensures meta == MarkAbsent(old(meta), presentIds)
    {
      var pending: set<int> := meta.Keys;
      while pending != {}
        invariant pending <= old(meta).Keys
        invariant meta == MarkAbsent(old(meta), presentIds + pending)
        decreases pending
      {
        HasElement(pending);
        var pid :| pid in pending;
        MarkAbsentOne(old(meta), presentIds, pending, pid);
        if pid !in presentIds {
          meta := meta[pid := meta[pid].(missed := meta[pid].missed + 1)];
        }
        pending := pending - {pid};
      }
      assert presentIds + pending == presentIds;
    }

    /** A target gone for `maxMissed` frames completes. */
    method CompleteTarget(now: real)
      modifies this`meta, this`wait, this`targetId
      ensures Snapshot() == Complete(old(Snapshot()), now, maxMissed)
    {
      if targetId.Some? && targetId.value in meta && meta[targetId.value].missed >= maxMissed {
        var waited := now - meta[targetId.value].firstSeen;
        wait := if currentPeopleCount > 0 then waited / (currentPeopleCount as real) else waited;
        meta := meta - {targetId.value};
        targetId := None;
      }
    }

    /** Every record that has missed `maxMissed` frames is deleted. */
    method SweepStale()
      modifies this`meta
      ensures meta == Sweep(old(meta), maxMissed)
    {
      var keys: set<int> := meta.Keys;
      while keys != {}
        invariant keys <= old(meta).Keys
        invariant meta == SweepBut(old(meta), maxMissed, keys)
        decreases keys
      {
        HasElement(keys);
        var pid :| pid in keys;
        SweepOne(old(meta), maxMissed, keys, pid);
        if meta[pid].missed >= maxMissed {
          meta := meta - {pid};
        }
        keys := keys - {pid};
      }
    }
  }

  /** A set without elements is the empty set. */
  lemma EmptyIfNoElement(s: set<int>)
    requires forall x :: x !in s
    ensures s == {}
  {
    assert forall x :: x in s <==> x in {};
  }

  /** A non-empty set has an element, so a loop can pick one. */
  lemma HasElement(s: set<int>)
    requires s != {}
    ensures exists x :: x in s
  {
    if forall x :: x !in s {
      EmptyIfNoElement(s);
      assert false;
    }
  }

  /** The sweep with the records of `keep` not yet looked at. */
  ghost function SweepBut(meta: map<int, Record>, maxMissed: nat, keep: set<int>): map<int, Record> {
    map k | k in meta && (k in keep || meta[k].missed < maxMissed) :: meta[k]
  }

  lemma SweepOne(meta: map<int, Record>, maxMissed: nat, keep: set<int>, pid: int)
    requires pid in keep && keep <= meta.Keys
    ensures var m := SweepBut(meta, maxMissed, keep);
      && pid in m && m[pid] == meta[pid]
      && SweepBut(meta, maxMissed, keep - {pid}) == if m[pid].missed >= maxMissed then m - {pid} else m
  {
  }

  /** Marking one more id absent is one more update of the registry. */
  lemma MarkAbsentOne(meta: map<int, Record>, present: set<int>, pending: set<int>, pid: int)
    requires pid in pending && pending <= meta.Keys
    ensures var m := MarkAbsent(meta, present + pending);
      && pid in m && m[pid] == meta[pid]
      && MarkAbsent(meta, present + (pending - {pid})) ==
           if pid in present then m else m[pid := m[pid].(missed := m[pid].missed + 1)]
  {
    var m := MarkAbsent(meta, present + pending);
    var m' := MarkAbsent(meta, present + (pending - {pid}));
    if pid !in present {
      assert m'.Keys == m[pid := m[pid].(missed := m[pid].missed + 1)].Keys;
    } else {
      assert present + (pending - {pid}) == present + pending;
    }
  }

  /** One more target is one more track. */
  lemma TracksSnoc(targets: seq<OnlineTarget>, i: nat)
    requires i < |targets|
    ensures TracksOf(targets[..i + 1]) == TracksOf(targets[..i]) + [ToTrack(targets[i])]
  {
  }

  /** One more track adds its id to the present ones. */
  lemma IdsSnoc(tracks: seq<Track>, t: Track)
    ensures Ids(tracks + [t]) == Ids(tracks) + {t.id}
  {
  }

  /** Every track of the frame is still registered when the target is
      selected, so the lookup of a new target cannot fail. */
  lemma ObservedSurviveSweep(s: TrackerState, targets: seq<OnlineTarget>, now: real, maxMissed: nat)
    requires maxMissed >= 1
    ensures var tracks := TracksOf(targets);
      forall k :: 0 <= k < |tracks| ==> tracks[k].id in Sweep(Completed(s, targets, now, maxMissed).meta, maxMissed)
  {
    var tracks := TracksOf(targets);
    forall k | 0 <= k < |tracks|
      ensures tracks[k].id in Sweep(Completed(s, targets, now, maxMissed).meta, maxMissed)
    {
      assert tracks[k] in tracks;
      ObservedIdRefreshed(s, targets, now, maxMissed, tracks[k].id);
    }
  }

  /** Refreshing one more id is one more update of the registry. */
  lemma RefreshAdd(meta: map<int, Record>, ids: set<int>, id: int, frame: nat, now: real)
    ensures Refresh(meta, ids + {id}, frame, now) == Touch(Refresh(meta, ids, frame, now), id, frame, now)
  {
  }

  /** The registry after one observation of `id` in frame `frame`. */
  function Touch(meta: map<int, Record>, id: int, frame: nat, now: real): map<int, Record> {
    if id !in meta then meta[id := Record(now, frame, 0)]
    else meta[id := meta[id].(lastSeenFrame := frame, missed := 0)]
  }
}
