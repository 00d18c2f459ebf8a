/** The debounced unlock state machine of the face-recognition worker, as pure functions
    over the door state, and the properties it guarantees.

    Time is an integer clock tick standing for the value `time.time()` returns; the worker
    reads the clock once per successfully recognised face and once more for the hold-expiry
    check at the end of each frame. */
module Door {

  import opened Common

  const DOOR_HOLD_TIME: int := 7
  const RECOGNITION_THRESHOLD: int := 100

  /** The worker's `door_open`, `last_open_time` and `door_hold_time` fields. */
  datatype DoorState = DoorState(doorOpen: bool, lastOpenTime: int, doorHoldTime: int)

  /** What recognition made of one face: a label and a distance (lower is closer) together
      with the clock tick read right after the prediction, or an error. */
  datatype Outcome = Predicted(identity: int, confidence: int, time: int) | RecognitionError

  datatype Detection = Detection(region: Region, outcome: Outcome)

  /** One frame as the state machine sees it: the registration flag, the detections and
      the tick of the expiry check. */
  datatype Tick = Tick(paused: bool, detections: seq<Detection>, now: int)

  /** The door state after a step, with the clock ticks of the unlocks published during it. */
  datatype Step = Step(state: DoorState, unlocks: seq<int>)

  /** The state a freshly constructed worker starts in. */
  function InitialState(): (s: DoorState)
    ensures !s.doorOpen && s.lastOpenTime == 0 && s.doorHoldTime == DOOR_HOLD_TIME
  {
    DoorState(false, 0, DOOR_HOLD_TIME)
  }

  /** Reference statement of when one face unlocks the door from state `s`. */
  predicate UnlockAllowed(s: DoorState, paused: bool, d: Detection)
  {
    && !paused
    && d.outcome.Predicted?
    && d.outcome.confidence < RECOGNITION_THRESHOLD
    && !s.doorOpen
    && d.outcome.time - s.lastOpenTime > s.doorHoldTime
  }

  /** One iteration of the loop over the faces of a frame. */
  function DetectionStep(s: DoorState, paused: bool, d: Detection): Step
  {
    if paused then Step(s, [])
    else match d.outcome
      case RecognitionError => Step(s, [])
      case Predicted(_, confidence, t) =>
        if confidence < RECOGNITION_THRESHOLD then
          if !s.doorOpen && t - s.lastOpenTime > s.doorHoldTime then
            Step(DoorState(true, t, s.doorHoldTime), [t])
          else Step(s, [])
        else Step(s, [])
  }

  /** The loop over all faces of a frame, in detection order. */
  function FaceLoop(s: DoorState, paused: bool, dets: seq<Detection>): Step
    decreases |dets|
  {
    if dets == [] then Step(s, [])
    else
      var before := FaceLoop(s, paused, dets[..|dets| - 1]);
      var last := DetectionStep(before.state, paused, dets[|dets| - 1]);
      Step(last.state, before.unlocks + last.unlocks)
  }

  /** The hold-expiry check that ends every frame. */
  function Expire(s: DoorState, now: int): DoorState
  {
    if s.doorOpen && now - s.lastOpenTime > s.doorHoldTime then s.(doorOpen := false) else s
  }

  /** A whole frame: the face loop, then the expiry check. */
  function FrameStep(s: DoorState, paused: bool, dets: seq<Detection>, now: int): Step
  {
    var r := FaceLoop(s, paused, dets);
    Step(Expire(r.state, now), r.unlocks)
  }

  /** A run of consecutive frames. */
  function Run(s: DoorState, ticks: seq<Tick>): Step
    decreases |ticks|
  {
    if ticks == [] then Step(s, [])
    else
      var before := Run(s, ticks[..|ticks| - 1]);
      var t := ticks[|ticks| - 1];
      var last := FrameStep(before.state, t.paused, t.detections, t.now);
      Step(last.state, before.unlocks + last.unlocks)
  }

  /** One face publishes an unlock exactly when the guard holds; it then opens the door
      stamped with that face's tick, and otherwise (paused, low confidence, recognition
      error, door still open, hold not elapsed) leaves the door state untouched. */
  lemma UnlockGuard(s: DoorState, paused: bool, d: Detection)
    ensures var r := DetectionStep(s, paused, d);
      && (r.unlocks != [] <==> UnlockAllowed(s, paused, d))
      && (UnlockAllowed(s, paused, d) ==>
            r.unlocks == [d.outcome.time] && r.state == DoorState(true, d.outcome.time, s.doorHoldTime))
      && (!UnlockAllowed(s, paused, d) ==> r == Step(s, []))
  {
  }

  /** Within one frame the door unlocks at most once: it unlocks exactly when some face
      passes the guard against the state the frame started in, and the unlock is the one of
      the first such face; later faces of the frame find the door open. */
  lemma {:induction false} FaceLoopUnlocksOnce(s: DoorState, paused: bool, dets: seq<Detection>)
    ensures var r := FaceLoop(s, paused, dets);
      && |r.unlocks| <= 1
      && r.state.doorHoldTime == s.doorHoldTime
      && (r.unlocks == [] <==> forall i :: 0 <= i < |dets| ==> !UnlockAllowed(s, paused, dets[i]))
      && (r.unlocks == [] ==> r.state == s)
      && (r.unlocks != [] ==>
            exists i :: 0 <= i < |dets| && UnlockAllowed(s, paused, dets[i])
                        && (forall j :: 0 <= j < i ==> !UnlockAllowed(s, paused, dets[j]))
                        && r.unlocks == [dets[i].outcome.time]
                        && r.state == DoorState(true, dets[i].outcome.time, s.doorHoldTime))
    decreases |dets|
  {
    if dets != [] {
      var n := |dets| - 1;
      var init := dets[..n];
      FaceLoopUnlocksOnce(s, paused, init);
      var before := FaceLoop(s, paused, init);
      UnlockGuard(before.state, paused, dets[n]);
      assert forall i :: 0 <= i < n ==> init[i] == dets[i];
      if before.unlocks == [] {
        var r := FaceLoop(s, paused, dets);
        if r.unlocks != [] {
          assert forall j :: 0 <= j < n ==> !UnlockAllowed(s, paused, dets[j]);
        }
      } else {
        assert before.state.doorOpen;
        assert !UnlockAllowed(before.state, paused, dets[n]);
        var i :| 0 <= i < n && UnlockAllowed(s, paused, init[i])
                 && (forall j :: 0 <= j < i ==> !UnlockAllowed(s, paused, init[j]))
                 && before.unlocks == [init[i].outcome.time]
                 && before.state == DoorState(true, init[i].outcome.time, s.doorHoldTime);
        assert UnlockAllowed(s, paused, dets[i]);
      }
    }
  }

  /** A face in a frame that starts with the door flag still set never unlocks, even when
      the hold time has already elapsed: the flag is only cleared by the end-of-frame check. */
  lemma StaleOpenFlagBlocksUnlock(s: DoorState, paused: bool, dets: seq<Detection>, now: int)
    requires s.doorOpen
    ensures FrameStep(s, paused, dets, now).unlocks == []
    ensures FrameStep(s, paused, dets, now).state.lastOpenTime == s.lastOpenTime
  {
    FaceLoopUnlocksOnce(s, paused, dets);
  }

  /** After a frame whose expiry check ran at tick `now`, an open door was opened at most
      `doorHoldTime` ticks before `now`; with no faces the check alone re-arms the door once
      the hold has elapsed. */
  lemma FrameEndInvariant(s: DoorState, paused: bool, dets: seq<Detection>, now: int)
    ensures var r := FrameStep(s, paused, dets, now);
      r.state.doorOpen ==> now - r.state.lastOpenTime <= r.state.doorHoldTime
    ensures dets == [] ==> FrameStep(s, paused, dets, now) == Step(Expire(s, now), [])
    ensures dets == [] && s.doorOpen && now - s.lastOpenTime > s.doorHoldTime ==>
      !FrameStep(s, paused, dets, now).state.doorOpen
  {
  }

  /** The unlock guard applied to a whole frame: a frame publishes at most one unlock, and
      it does so exactly when one of its faces passes the guard against the starting state. */
  lemma FrameUnlocksOnce(s: DoorState, paused: bool, dets: seq<Detection>, now: int)
    ensures var r := FrameStep(s, paused, dets, now);
      && |r.unlocks| <= 1
      && (r.unlocks != [] <==> exists i :: 0 <= i < |dets| && UnlockAllowed(s, paused, dets[i]))
  {
    FaceLoopUnlocksOnce(s, paused, dets);
  }

  /** Over any run of frames, the hold time never changes, the first unlock comes more than
      a hold after the starting `lastOpenTime`, every two successive unlocks are more than
      a hold apart, `lastOpenTime` is the tick of the latest unlock, and no frame publishes
      more than one unlock. */
  lemma {:induction false} RunSpacesUnlocks(s: DoorState, ticks: seq<Tick>)
    ensures var r := Run(s, ticks);
      && r.state.doorHoldTime == s.doorHoldTime
      && |r.unlocks| <= |ticks|
      && (r.unlocks != [] ==> r.unlocks[0] - s.lastOpenTime > s.doorHoldTime)
      && (forall i :: 0 < i < |r.unlocks| ==> r.unlocks[i] - r.unlocks[i - 1] > s.doorHoldTime)
      && r.state.lastOpenTime == (if r.unlocks == [] then s.lastOpenTime else r.unlocks[|r.unlocks| - 1])
    decreases |ticks|
  {
    if ticks != [] {
      var n := |ticks| - 1;
      RunSpacesUnlocks(s, ticks[..n]);
      var before := Run(s, ticks[..n]);
      var t := ticks[n];
      FaceLoopUnlocksOnce(before.state, t.paused, t.detections);
      var last := FrameStep(before.state, t.paused, t.detections, t.now);
      var r := Run(s, ticks);
      assert r.unlocks == before.unlocks + last.unlocks;
      if last.unlocks != [] {
        var i :| 0 <= i < |t.detections| && UnlockAllowed(before.state, t.paused, t.detections[i])
                 && last.unlocks == [t.detections[i].outcome.time];
        assert last.unlocks[0] - before.state.lastOpenTime > s.doorHoldTime;
      }
    }
  }

  /** While the registration flag is set, no frame of a run publishes an unlock and
      `lastOpenTime` keeps its value; the door can only go from open to closed. */
  lemma {:induction false} PausedRunNeverUnlocks(s: DoorState, ticks: seq<Tick>)
    requires forall i :: 0 <= i < |ticks| ==> ticks[i].paused
    ensures var r := Run(s, ticks);
      && r.unlocks == []
      && r.state.lastOpenTime == s.lastOpenTime
      && r.state.doorHoldTime == s.doorHoldTime
      && (r.state.doorOpen ==> s.doorOpen)
    decreases |ticks|
  {
    if ticks != [] {
      var n := |ticks| - 1;
      PausedRunNeverUnlocks(s, ticks[..n]);
      var before := Run(s, ticks[..n]);
      FaceLoopUnlocksOnce(before.state, true, ticks[n].detections);
    }
  }

  /** The hold-time scenario: a close match three ticks after the last unlock does nothing;
      the same match eight ticks after it unlocks and restamps the door, unless the door
      flag was never cleared by an intervening frame. */
  lemma HoldScenario(region: Region)
    ensures var s := DoorState(false, 100, DOOR_HOLD_TIME);
      FrameStep(s, false, [Detection(region, Predicted(1, 45, 103))], 103).unlocks == []
    ensures var s := DoorState(false, 100, DOOR_HOLD_TIME);
      FrameStep(s, false, [Detection(region, Predicted(1, 45, 108))], 108)
        == Step(DoorState(true, 108, DOOR_HOLD_TIME), [108])
    ensures var s := DoorState(true, 100, DOOR_HOLD_TIME);
      FrameStep(s, false, [Detection(region, Predicted(1, 45, 108))], 108)
        == Step(DoorState(false, 100, DOOR_HOLD_TIME), [])
  {
    var open := DoorState(true, 100, DOOR_HOLD_TIME);
    var closed := DoorState(false, 100, DOOR_HOLD_TIME);
    var d3 := [Detection(region, Predicted(1, 45, 103))];
    var d8 := [Detection(region, Predicted(1, 45, 108))];
    assert d3[..0] == [] && d8[..0] == [];
    assert FaceLoop(closed, false, d3) == DetectionStep(closed, false, d3[0]) == Step(closed, []);
    assert FaceLoop(closed, false, d8) == DetectionStep(closed, false, d8[0]);
    assert FaceLoop(open, false, d8) == DetectionStep(open, false, d8[0]) == Step(open, []);
  }
}
