/** The face-recognition worker: the state shared with the HTTP layer (the latest processed
    frame and the registration flag), the per-frame pipeline that drives the debounced
    unlock state machine of module Door, and the two capture loops that feed it.

    The capture device, the face detector and the recogniser are inputs: a read either
    fails or yields a frame together with its detections, each carrying what recognition
    made of it. Both worker copies share one `ProcessFrame`; they differ in what their
    capture loop does on a failed read. */
module Worker {

  import opened Common
  import opened Door

  const MQTT_TOPIC_CONTROL: string := "door/control"

  /** A message published on the broker. */
  datatype Command = Publish(topic: string, payload: string)

  const UNLOCK: Command := Publish(MQTT_TOPIC_CONTROL, "unlock")

  /** `n` unlock commands. */
  function UnlockCommands(n: nat): (cs: seq<Command>)
    ensures |cs| == n && forall i :: 0 <= i < n ==> cs[i] == UNLOCK
  {
    seq(n, _ => UNLOCK)
  }

  /** The rectangles the face loop draws: one per face, its colour telling whether the
      face went through recognition or was skipped because registration is active. */
  function FaceBoxes(paused: bool, dets: seq<Detection>): seq<Box>
    decreases |dets|
  {
    if dets == [] then []
    else
      var color := if paused then PAUSED_COLOR else RECOGNISED_COLOR;
      FaceBoxes(paused, dets[..|dets| - 1]) + [Box(dets[|dets| - 1].region, color)]
  }

  /** A frame with the rectangles of its faces drawn on it. */
  function Annotate(frame: Frame, paused: bool, dets: seq<Detection>): Frame
  {
    frame.(boxes := frame.boxes + FaceBoxes(paused, dets))
  }

  /** Every face gets exactly one rectangle, in detection order, over its own region; the
      colour is the paused one for every face while registration is active and the
      recognised one for every face otherwise, whatever recognition returned. */
  lemma {:induction false} FaceBoxesOnePerFace(paused: bool, dets: seq<Detection>)
    ensures var boxes := FaceBoxes(paused, dets);
      && |boxes| == |dets|
      && forall i :: 0 <= i < |dets| ==>
           boxes[i].region == dets[i].region
           && boxes[i].color == (if paused then PAUSED_COLOR else RECOGNISED_COLOR)
    decreases |dets|
  {
    if dets != [] {
      FaceBoxesOnePerFace(paused, dets[..|dets| - 1]);
    }
  }

  /** What one `read()` of the capture device returned. */
  datatype ReadResult = Captured(frame: Frame, detections: seq<Detection>, now: int) | ReadFailed

  /** The frames among `results`, as the state machine sees them under flag `paused`. */
  function FrameTicks(results: seq<ReadResult>, paused: bool): seq<Tick>
    decreases |results|
  {
    if results == [] then []
    else
      var before := FrameTicks(results[..|results| - 1], paused);
      match results[|results| - 1]
      case ReadFailed => before
      case Captured(_, dets, now) => before + [Tick(paused, dets, now)]
  }

  /** The latest-frame slot after the frames among `results` were processed, starting from
      `slot`: the annotated last frame read, or `slot` itself when no read succeeded. */
  function SlotAfter(results: seq<ReadResult>, paused: bool, slot: Option<Frame>): Option<Frame>
    decreases |results|
  {
    if results == [] then slot
    else match results[|results| - 1]
      case ReadFailed => SlotAfter(results[..|results| - 1], paused, slot)
      case Captured(frame, dets, _) => Some(Annotate(frame, paused, dets))
  }

  /** The number of leading results before the first failed one. */
  function FirstFailure(results: seq<ReadResult>): (k: nat)
    ensures k <= |results|
    ensures forall j :: 0 <= j < k ==> results[j].Captured?
    ensures k < |results| ==> results[k].ReadFailed?
    decreases |results|
  {
    if results == [] || results[0].ReadFailed? then 0
    else 1 + FirstFailure(results[1..])
  }

  lemma UnlockCommandsAppend(m: nat, n: nat)
    ensures UnlockCommands(m) + UnlockCommands(n) == UnlockCommands(m + n)
  {
  }

  /** How the frame ticks, the run and the slot of a read log grow by one read. */
  lemma OneMoreRead(s: DoorState, results: seq<ReadResult>, i: nat, paused: bool, slot: Option<Frame>)
    requires i < |results|
    ensures var before := FrameTicks(results[..i], paused);
      var after := FrameTicks(results[..i + 1], paused);
      match results[i]
      case ReadFailed =>
        && after == before
        && SlotAfter(results[..i + 1], paused, slot) == SlotAfter(results[..i], paused, slot)
      case Captured(frame, dets, now) =>
        var r := Run(s, before);
        var last := FrameStep(r.state, paused, dets, now);
        && after == before + [Tick(paused, dets, now)]
        && Run(s, after) == Step(last.state, r.unlocks + last.unlocks)
        && SlotAfter(results[..i + 1], paused, slot) == Some(Annotate(frame, paused, dets))
  {
    assert results[..i + 1][..i] == results[..i];
    var before := FrameTicks(results[..i], paused);
    if results[i].Captured? {
      var t := Tick(paused, results[i].detections, results[i].now);
      assert (before + [t])[..|before|] == before;
    }
  }

  /** The slot for the latest processed frame and the registration flag, both process-wide
      in the service and shared between the worker and the HTTP handlers. */
  class SharedState {
    var processedFrame: Option<Frame>
    var registrationActive: bool

    constructor ()
      ensures processedFrame == None && !registrationActive
    {
      processedFrame := None;
      registrationActive := false;
    }

    /** Enrollment starts: actuation is suspended. Calling it again changes nothing. */
    method PauseRegistration() returns (status: string)
      modifies this`registrationActive
      ensures registrationActive
      ensures status == "paused"
    {
      registrationActive := true;
      status := "paused";
    }

    /** Enrollment ends: actuation resumes. Calling it again changes nothing. */
    method ResumeRegistration() returns (status: string)
      modifies this`registrationActive
      ensures !registrationActive
      ensures status == "running"
    {
      registrationActive := false;
      status := "running";
    }
  }

  class FaceRecognitionWorker {
    const shared: SharedState
    const videoSource: Source
    var doorOpen: bool
    var lastOpenTime: int
    var doorHoldTime: int

    /** The door state machine's view of the worker. */
    function State(): DoorState
      reads this
    {
      DoorState(doorOpen, lastOpenTime, doorHoldTime)
    }

    constructor (videoSource: Source, shared: SharedState)
      ensures State() == InitialState()
      ensures this.videoSource == videoSource && this.shared == shared
    {
      this.shared := shared;
      this.videoSource := videoSource;
      doorOpen := false;
      lastOpenTime := 0;
      doorHoldTime := DOOR_HOLD_TIME;
    }

    /** Processes one frame: every face is annotated and, unless registration is active,
        may unlock the door; the hold-expiry check at tick `now` follows the face loop, and
        the annotated frame replaces the shared slot and is returned. The source resizes
        each face crop before recognising it; that happens outside this method, and
        `detections` carries what recognition returned for the resized crop. */
    method ProcessFrame(frame: Frame, detections: seq<Detection>, now: int)
      returns (published: seq<Command>, processed: Frame)
      modifies this`doorOpen, this`lastOpenTime, shared`processedFrame
      ensures var r := FrameStep(old(State()), old(shared.registrationActive), detections, now);
        State() == r.state && published == UnlockCommands(|r.unlocks|)
      ensures |published| <= 1
      ensures doorOpen ==> now - lastOpenTime <= doorHoldTime
      ensures processed == Annotate(frame, old(shared.registrationActive), detections)
      ensures shared.processedFrame == Some(processed)
    {
      var paused := shared.registrationActive;
      ghost var s0 := State();
      published := [];
      processed := frame;
      var i := 0;
      while i < |detections|
        invariant 0 <= i <= |detections|
        invariant State() == FaceLoop(s0, paused, detections[..i]).state
        invariant published == UnlockCommands(|FaceLoop(s0, paused, detections[..i]).unlocks|)
        invariant processed == Annotate(frame, paused, detections[..i])
      {
        var d := detections[i];
        assert detections[..i + 1][..i] == detections[..i];
        if paused {
          processed := processed.(boxes := processed.boxes + [Box(d.region, PAUSED_COLOR)]);
        } else {
          match d.outcome {
            case Predicted(_, confidence, t) =>
              if confidence < RECOGNITION_THRESHOLD {
                if !doorOpen && t - lastOpenTime > doorHoldTime {
                  published := published + [UNLOCK];
                  doorOpen := true;
                  lastOpenTime := t;
                }
              }
            case RecognitionError =>
          }
          processed := processed.(boxes := processed.boxes + [Box(d.region, RECOGNISED_COLOR)]);
        }
        i := i + 1;
      }
      assert detections[..i] == detections;
      if doorOpen && now - lastOpenTime > doorHoldTime {
        doorOpen := false;
      }
      shared.processedFrame := Some(processed);
      FrameUnlocksOnce(s0, paused, detections, now);
      FrameEndInvariant(s0, paused, detections, now);
    }

    /** The capture loop that survives read failures: a failed read releases and reopens
        the device and the loop goes on with the next read; a device that cannot be opened
        at the start ends the loop before any read. Returns the number of frames processed,
        the number of reopenings and the commands published. */
    method RunStreamReconnect(isOpened: bool, results: seq<ReadResult>)
      returns (frameCount: nat, reconnects: nat, published: seq<Command>)
      modifies this`doorOpen, this`lastOpenTime, shared`processedFrame
      ensures !isOpened ==> frameCount == reconnects == 0 && published == []
      ensures !isOpened ==> State() == old(State()) && shared.processedFrame == old(shared.processedFrame)
      ensures isOpened ==>
        var ticks := FrameTicks(results, old(shared.registrationActive));
        var r := Run(old(State()), ticks);
        && State() == r.state
        && published == UnlockCommands(|r.unlocks|)
        && frameCount == |ticks|
        && frameCount + reconnects == |results|
        && shared.processedFrame == SlotAfter(results, old(shared.registrationActive), old(shared.processedFrame))
    {
      frameCount, reconnects, published := 0, 0, [];
      if !isOpened {
        return;
      }
      var paused := shared.registrationActive;
      ghost var s0 := State();
      ghost var slot0 := shared.processedFrame;
      var i := 0;
      while i < |results|
        invariant 0 <= i <= |results|
        invariant shared.registrationActive == paused
        invariant frameCount == |FrameTicks(results[..i], paused)|
        invariant frameCount + reconnects == i
        invariant State() == Run(s0, FrameTicks(results[..i], paused)).state
        invariant published == UnlockCommands(|Run(s0, FrameTicks(results[..i], paused)).unlocks|)
        invariant shared.processedFrame == SlotAfter(results[..i], paused, slot0)
      {
        OneMoreRead(s0, results, i, paused, slot0);
        match results[i] {
          case ReadFailed =>
            reconnects := reconnects + 1;
          case Captured(frame, dets, now) =>
            ghost var before := Run(s0, FrameTicks(results[..i], paused));
            var more, _ := ProcessFrame(frame, dets, now);
            UnlockCommandsAppend(|before.unlocks|, |more|);
            published := published + more;
            frameCount := frameCount + 1;
        }
        i := i + 1;
      }
      assert results[..i] == results;
    }

    /** The capture loop that gives up at the first failed read: every frame read before it
        is processed in order, nothing after it is read; a device that cannot be opened
        ends the loop before any read. Returns the number of frames processed and the
        commands published. */
    method RunStreamStopOnFailure(isOpened: bool, results: seq<ReadResult>)
      returns (frameCount: nat, published: seq<Command>)
      modifies this`doorOpen, this`lastOpenTime, shared`processedFrame
      ensures !isOpened ==> frameCount == 0 && published == []
      ensures !isOpened ==> State() == old(State()) && shared.processedFrame == old(shared.processedFrame)
      ensures isOpened ==>
        var done := results[..FirstFailure(results)];
        var ticks := FrameTicks(done, old(shared.registrationActive));
        var r := Run(old(State()), ticks);
        && frameCount == FirstFailure(results) == |ticks|
        && State() == r.state
        && published == UnlockCommands(|r.unlocks|)
        && shared.processedFrame == SlotAfter(done, old(shared.registrationActive), old(shared.processedFrame))
    {
      frameCount, published := 0, [];
      if !isOpened {
        return;
      }
      var paused := shared.registrationActive;
      ghost var s0 := State();
      ghost var slot0 := shared.processedFrame;
      ghost var k := FirstFailure(results);
      var i := 0;
      while i < |results| && results[i].Captured?
        invariant 0 <= i <= k
        invariant shared.registrationActive == paused
        invariant frameCount == i == |FrameTicks(results[..i], paused)|
        invariant State() == Run(s0, FrameTicks(results[..i], paused)).state
        invariant published == UnlockCommands(|Run(s0, FrameTicks(results[..i], paused)).unlocks|)
        invariant shared.processedFrame == SlotAfter(results[..i], paused, slot0)
      {
        OneMoreRead(s0, results, i, paused, slot0);
        var read := results[i];
        ghost var before := Run(s0, FrameTicks(results[..i], paused));
        var more, _ := ProcessFrame(read.frame, read.detections, read.now);
        UnlockCommandsAppend(|before.unlocks|, |more|);
        published := published + more;
        frameCount := frameCount + 1;
        i := i + 1;
      }
      assert i == k;
    }
  }
}
