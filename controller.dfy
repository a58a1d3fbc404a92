/**
 * The Sense3d controller: the object that owns the bus, the reset and TS
 * lines, the listener slots, the polling flags and the air-wheel counter.
 */
module Sense3d {
  import opened Bits
  import opened Wrappers
  import opened Sense3dTypes
  import opened SensorDecode
  import opened FirmwareInit
  import opened FrameReader
  import opened Dispatch

  /** Misuse of the polling lifecycle. */
  datatype LifecycleError = AlreadyStarted

  // ---------------------------------------------------------------------------
  // What the poll loop does, as functions of the successive readMsg environments

  /** One iteration of the poll loop: read 26 bytes and decode them if they classify as sensor data. */
  function PollStep(env: ReadEnv, last: Int32): Decoded
  {
    var buf := Buffer(OutcomeOf(env));
    if Classify(buf) == SensorData then DecodeFrame(buf, last) else Decoded([], last)
  }

  /** The events of several iterations, in order, and lastRotation after the last one. */
  function PollRun(envs: seq<ReadEnv>, last: Int32): Decoded
  {
    if envs == [] then Decoded([], last)
    else
      var prev := PollRun(envs[..|envs| - 1], last);
      var step := PollStep(envs[|envs| - 1], prev.lastRotation);
      Decoded(prev.events + step.events, step.lastRotation)
  }

  /** The bus and pin operations of several iterations. */
  function PollOps(envs: seq<ReadEnv>): seq<IoOp>
  {
    if envs == [] then []
    else PollOps(envs[..|envs| - 1]) + HandshakeOps(envs[|envs| - 1], SensorFrameLength)
  }

  /** Running one more iteration appends its events and operations. */
  lemma PollRunSnoc(envs: seq<ReadEnv>, i: nat, last: Int32)
    requires i < |envs|
    ensures var prev := PollRun(envs[..i], last);
            var step := PollStep(envs[i], prev.lastRotation);
            PollRun(envs[..i + 1], last) == Decoded(prev.events + step.events, step.lastRotation) &&
            PollOps(envs[..i + 1]) == PollOps(envs[..i]) + HandshakeOps(envs[i], SensorFrameLength)
  {
    assert envs[..i + 1][..i] == envs[..i];
  }

  /**
   * Polling over a then over b is polling over a + b: the events of b follow
   * those of a, and b starts from the lastRotation a left.
   */
  lemma {:induction false} PollRunAppend(a: seq<ReadEnv>, b: seq<ReadEnv>, last: Int32)
    ensures var first := PollRun(a, last);
            var second := PollRun(b, first.lastRotation);
            PollRun(a + b, last) == Decoded(first.events + second.events, second.lastRotation)
    decreases |b|
  {
    if b == [] {
      assert a + b == a;
    } else {
      var b', env := b[..|b| - 1], b[|b| - 1];
      PollRunAppend(a, b', last);
      var first := PollRun(a, last);
      var mid := PollRun(b', first.lastRotation);
      var step := PollStep(env, mid.lastRotation);
      assert PollRun(a + b, last) == Decoded((first.events + mid.events) + step.events, step.lastRotation) by {
        assert (a + b)[..|a + b| - 1] == a + b';
        assert (a + b)[|a + b| - 1] == env;
      }
      SnocRegroup(first.events, mid.events, step, PollRun(a + b, last), PollRun(b, first.lastRotation));
    }
  }

  /** Regrouping the events of three consecutive stretches of polling. */
  lemma SnocRegroup(first: seq<Event>, mid: seq<Event>, step: Decoded, whole: Decoded, second: Decoded)
    requires whole == Decoded((first + mid) + step.events, step.lastRotation)
    requires second == Decoded(mid + step.events, step.lastRotation)
    ensures whole == Decoded(first + second.events, second.lastRotation)
  {
    assert (first + mid) + step.events == first + (mid + step.events);
  }

  /** The operations of a + b are those of a followed by those of b. */
  lemma {:induction false} PollOpsAppend(a: seq<ReadEnv>, b: seq<ReadEnv>)
    ensures PollOps(a + b) == PollOps(a) + PollOps(b)
    decreases |b|
  {
    if b == [] {
      assert a + b == a;
    } else {
      var b' := b[..|b| - 1];
      assert (a + b)[..|a + b| - 1] == a + b';
      assert (a + b)[|a + b| - 1] == b[|b| - 1];
      PollOpsAppend(a, b');
    }
  }

  /** Iterations in which no frame was read surface nothing and leave lastRotation alone. */
  lemma {:induction false} PollRunWithoutFrames(envs: seq<ReadEnv>, last: Int32)
    requires forall i | 0 <= i < |envs| :: !OutcomeOf(envs[i]).Read?
    ensures PollRun(envs, last) == Decoded([], last)
  {
    if envs != [] {
      PollRunWithoutFrames(envs[..|envs| - 1], last);
      SentinelsIgnored(envs[|envs| - 1]);
    }
  }

  /** lastRotation after a poll iteration is the counter of its frame when the air-wheel branch ran, and unchanged otherwise. */
  lemma PollStepRotation(env: ReadEnv, last: Int32)
    ensures var buf := Buffer(OutcomeOf(env));
            PollStep(env, last).lastRotation
              == if Classify(buf) == SensorData && HasAirWheel(buf) then buf[PayloadAirWheel] else last
  {
    var buf := Buffer(OutcomeOf(env));
    if Classify(buf) == SensorData {
      AirWheelDecoded(buf, last);
    }
  }

  /** The TS line is an input after every poll iteration. */
  lemma {:induction false} PollReleasesPin(trace: seq<IoOp>, envs: seq<ReadEnv>)
    requires TsModeAfter(trace) == Input
    ensures TsModeAfter(trace + PollOps(envs)) == Input
  {
    if envs != [] {
      var init := envs[..|envs| - 1];
      PollReleasesPin(trace, init);
      HandshakeReleasesPin(trace + PollOps(init), envs[|envs| - 1], SensorFrameLength);
      assert trace + PollOps(envs) == (trace + PollOps(init)) + HandshakeOps(envs[|envs| - 1], SensorFrameLength);
    } else {
      assert trace + PollOps(envs) == trace;
    }
  }

  /** Dispatching p and then s dispatches p + s. */
  lemma DeliverEvents(p: seq<Event>, s: seq<Event>, whole: seq<Event>, slots: Slots,
                      d0: seq<Delivery>, before: seq<Delivery>, after: seq<Delivery>)
    requires whole == p + s
    requires before == d0 + Deliver(p, slots)
    requires after == before + Deliver(s, slots)
    ensures after == d0 + Deliver(whole, slots)
  {
    DeliverAppend(p, s, slots);
  }

  /** Surfacing the four blocks of a frame one after the other surfaces the frame's events in decode order. */
  lemma SurfaceInOrder(data: seq<Byte>, last: Int32, slots: Slots, d0: seq<Delivery>, d1: seq<Delivery>,
                       d2: seq<Delivery>, d3: seq<Delivery>, d4: seq<Delivery>)
    requires |data| == SensorFrameLength
    requires d1 == d0 + Deliver(MoveEvents(data), slots)
    requires d2 == d1 + Deliver(TouchEvents(data), slots)
    requires d3 == d2 + Deliver(GestureEvents(data), slots)
    requires d4 == d3 + Deliver(AirWheelPart(data, last).events, slots)
    ensures d4 == d0 + Deliver(DecodeFrame(data, last).events, slots)
  {
    var m, t, g, a := MoveEvents(data), TouchEvents(data), GestureEvents(data), AirWheelPart(data, last).events;
    DeliverEvents(m, t, m + t, slots, d0, d1, d2);
    DeliverEvents(m + t, g, m + t + g, slots, d0, d2, d3);
    DeliverEvents(m + t + g, a, DecodeFrame(data, last).events, slots, d0, d3, d4);
  }

  /** Surfacing touch type k after the first k touch types surfaces the first k + 1. */
  lemma SurfaceTouchStep(action: nat, k: nat, slots: Slots, d0: seq<Delivery>, before: seq<Delivery>, after: seq<Delivery>)
    requires k < |TouchTypes|
    requires before == d0 + Deliver(TouchPrefix(action, k), slots)
    requires after == before + if BitSet(action, 14 - k) then Deliver([TouchTap(TouchTypes[k])], slots) else []
    ensures after == d0 + Deliver(TouchPrefix(action, k + 1), slots)
  {
    DeliverAppend(TouchPrefix(action, k), if BitSet(action, 14 - k) then [TouchTap(TouchTypes[k])] else [], slots);
  }

  /**
   * One more poll iteration, applied to a state that agrees with the first i
   * iterations, gives a state that agrees with the first i + 1.
   */
  lemma PollLoopStep(envs: seq<ReadEnv>, i: nat, last: Int32, slots: Slots, d0: seq<Delivery>, t0: seq<IoOp>,
                     rot: Int32, d: seq<Delivery>, t: seq<IoOp>, rot': Int32, d': seq<Delivery>, t': seq<IoOp>)
    requires i < |envs|
    requires rot == PollRun(envs[..i], last).lastRotation
    requires d == d0 + Deliver(PollRun(envs[..i], last).events, slots)
    requires t == t0 + PollOps(envs[..i])
    requires rot' == PollStep(envs[i], rot).lastRotation
    requires d' == d + Deliver(PollStep(envs[i], rot).events, slots)
    requires t' == t + HandshakeOps(envs[i], SensorFrameLength)
    ensures rot' == PollRun(envs[..i + 1], last).lastRotation
    ensures d' == d0 + Deliver(PollRun(envs[..i + 1], last).events, slots)
    ensures t' == t0 + PollOps(envs[..i + 1])
  {
    var prev := PollRun(envs[..i], last);
    var step := PollStep(envs[i], prev.lastRotation);
    PollRunSnoc(envs, i, last);
    DeliverEvents(prev.events, step.events, PollRun(envs[..i + 1], last).events, slots, d0, d, d');
  }

  // ---------------------------------------------------------------------------

  class Sense3dController {
    /** The air-wheel counter of the last frame whose air-wheel branch ran. */
    var lastRotation: Int32
    /** The flag the poll loop runs on. */
    var running: bool
    /** Whether the polling thread is alive. */
    var alive: bool

    var onGestureListener: Option<ListenerId>
    var onMoveListener: Option<ListenerId>
    var onAirWheelListener: Option<ListenerId>
    var onTouchTapListener: Option<ListenerId>

    /** The mode of the TS line. */
    var tsMode: PinMode
    /** Every bus and pin operation performed so far. */
    var trace: seq<IoOp>
    /** Every listener callback made so far. */
    var delivered: seq<Delivery>

    /** Between calls the TS line is an input. */
    ghost predicate Valid()
      reads this`tsMode
    {
      tsMode == Input
    }

    function Listeners(): Slots
      reads this`onGestureListener, this`onMoveListener, this`onTouchTapListener, this`onAirWheelListener
    {
      Slots(onGestureListener, onMoveListener, onTouchTapListener, onAirWheelListener)
    }

    constructor ()
      ensures Valid()
      ensures lastRotation == 0 && !running && !alive
      ensures Listeners() == Slots(None, None, None, None)
      ensures trace == [] && delivered == []
    {
      lastRotation := 0;
      running, alive := false, false;
      onGestureListener, onMoveListener, onAirWheelListener, onTouchTapListener := None, None, None, None;
      tsMode := Input;
      trace, delivered := [], [];
    }

    // -------------------------------------------------------------------------
    // Bus handshake

    /**
     * readMsg: when TS has gone low, hold it low as an output while the bus is
     * read and release it to input afterwards, whether the read succeeded or
     * threw; otherwise return a zero-filled sentinel.
     */
    method ReadMsg(length: nat, env: ReadEnv) returns (data: seq<Byte>)
      requires Valid()
      modifies this`tsMode, this`trace
      ensures Valid()
      ensures data == Buffer(OutcomeOf(env))
      ensures trace == old(trace) + HandshakeOps(env, length)
    {
      if env.highAfterWait {
        return Zeros(4);
      }
      if env.lowAtCheck {
        tsMode := Output;
        trace := trace + [TsOutputLow];
        trace := trace + [BusReadN(length)];
        match env.bus {
          case Bytes(bytes) => data := bytes;
          case IoFailure => data := Zeros(9);
        }
        tsMode := Input;
        trace := trace + [TsInput];
        return;
      }
      data := Zeros(9);
    }

    // -------------------------------------------------------------------------
    // Decoding and dispatch

    /** Call the listener of e's kind with e, if there is one. */
    method Surface(e: Event)
      modifies this`delivered
      ensures delivered == old(delivered) + Deliver([e], Listeners())
    {
      delivered := delivered + [Delivery(SlotFor(Listeners(), KindOf(e)), e)];
    }

    /**
     * parseAndSurfaceSensorData: surface the events of one sensor frame to the
     * listeners, in decode order; lastRotation is the only other state it changes.
     */
    method ParseAndSurfaceSensorData(data: seq<Byte>)
      requires |data| == SensorFrameLength
      modifies this`lastRotation, this`delivered
      ensures lastRotation == DecodeFrame(data, old(lastRotation)).lastRotation
      ensures delivered == old(delivered) + Deliver(DecodeFrame(data, old(lastRotation)).events, Listeners())
    {
      ghost var d0 := delivered;
      SurfaceMove(data);
      ghost var d1 := delivered;
      SurfaceTouches(data);
      ghost var d2 := delivered;
      SurfaceGesture(data);
      ghost var d3 := delivered;
      SurfaceAirWheel(data);
      SurfaceInOrder(data, old(lastRotation), Listeners(), d0, d1, d2, d3, delivered);
    }

    /** The position block of parseAndSurfaceSensorData. */
    method SurfaceMove(data: seq<Byte>)
      requires |data| == SensorFrameLength
      modifies this`delivered
      ensures delivered == old(delivered) + Deliver(MoveEvents(data), Listeners())
    {
      var configMask := data[ConfigMaskOffset];
      var sysInfo := data[SysInfoOffset];
      if BitSet(configMask, DataXyz) && BitSet(sysInfo, SysPosition) {
        var x := LittleEndian16(data[PayloadX], data[PayloadX + 1]);
        var y := LittleEndian16(data[PayloadY], data[PayloadY + 1]);
        var z := LittleEndian16(data[PayloadZ], data[PayloadZ + 1]);
        Surface(Move(x, y, z));
      } else {
        assert MoveEvents(data) == [];
      }
    }

    /** The touch block of parseAndSurfaceSensorData: walk the touch types with a one-bit mask shifted right. */
    method SurfaceTouches(data: seq<Byte>)
      requires |data| == SensorFrameLength
      modifies this`delivered
      ensures delivered == old(delivered) + Deliver(TouchEvents(data), Listeners())
    {
      var configMask := data[ConfigMaskOffset];
      if BitSet(configMask, DataTouch) {
        var action := LittleEndian16(data[PayloadTouch], data[PayloadTouch + 1]);
        var comp: int := Pow2(14);
        for k := 0 to |TouchTypes|
          invariant comp == if k < |TouchTypes| then Pow2(14 - k) else 0
          invariant delivered == old(delivered) + Deliver(TouchPrefix(action, k), Listeners())
        {
          ghost var before := delivered;
          // `action and comp > 0`, comp being the single bit 14 - k
          if (action / comp) % 2 == 1 {
            Surface(TouchTap(TouchTypes[k]));
          }
          SurfaceTouchStep(action, k, Listeners(), old(delivered), before, delivered);
          comp := comp / 2;
        }
      } else {
        assert TouchEvents(data) == [];
      }
    }

    /** The gesture block of parseAndSurfaceSensorData. */
    method SurfaceGesture(data: seq<Byte>)
      requires |data| == SensorFrameLength
      modifies this`delivered
      ensures delivered == old(delivered) + Deliver(GestureEvents(data), Listeners())
    {
      var configMask := data[ConfigMaskOffset];
      if BitSet(configMask, DataGesture) && data[PayloadGesture] > 0 {
        var gesture := GestureOf(data[PayloadGesture]);
        Surface(Gesture(gesture));
      } else {
        assert GestureEvents(data) == [];
      }
    }

    /** The air-wheel block of parseAndSurfaceSensorData, the one place lastRotation is written. */
    method SurfaceAirWheel(data: seq<Byte>)
      requires |data| == SensorFrameLength
      modifies this`lastRotation, this`delivered
      ensures lastRotation == AirWheelPart(data, old(lastRotation)).lastRotation
      ensures delivered == old(delivered) + Deliver(AirWheelPart(data, old(lastRotation)).events, Listeners())
    {
      var configMask := data[ConfigMaskOffset];
      var sysInfo := data[SysInfoOffset];
      if BitSet(configMask, DataAirWheel) && BitSet(sysInfo, SysAirWheel) {
        var delta := (Wrap32(data[PayloadAirWheel] - lastRotation) as real) / 32.0;
        if delta != 0.0 && delta > -0.5 && delta < 0.5 {
          Surface(AirWheel(delta * 360.0));
        }
        lastRotation := data[PayloadAirWheel];
      }
    }

    // -------------------------------------------------------------------------
    // Polling

    /**
     * The poll loop, run for the given readMsg environments while the running
     * flag is set.
     */
    method Poll(envs: seq<ReadEnv>)
      requires Valid()
      modifies this`tsMode, this`trace, this`lastRotation, this`delivered
      ensures Valid()
      ensures running ==>
                lastRotation == PollRun(envs, old(lastRotation)).lastRotation &&
                delivered == old(delivered) + Deliver(PollRun(envs, old(lastRotation)).events, Listeners()) &&
                trace == old(trace) + PollOps(envs)
      ensures !running ==> lastRotation == old(lastRotation) && delivered == old(delivered) && trace == old(trace)
    {
      ghost var last0, d0, t0 := lastRotation, delivered, trace;
      var i := 0;
      while running && i < |envs|
        invariant 0 <= i <= |envs|
        invariant Valid()
        invariant !running ==> i == 0
        invariant lastRotation == PollRun(envs[..i], last0).lastRotation
        invariant delivered == d0 + Deliver(PollRun(envs[..i], last0).events, Listeners())
        invariant trace == t0 + PollOps(envs[..i])
      {
        ghost var rot, d, t := lastRotation, delivered, trace;
        PollIteration(envs[i]);
        PollLoopStep(envs, i, last0, Listeners(), d0, t0, rot, d, t, lastRotation, delivered, trace);
        i := i + 1;
      }
      assert envs[..|envs|] == envs;
    }

    /**
     * One iteration of the poll loop: each 26-byte read whose first byte is
     * nonzero and whose type byte is 0x91 is decoded and surfaced; every other
     * buffer is passed over.
     */
    method PollIteration(env: ReadEnv)
      requires Valid()
      modifies this`tsMode, this`trace, this`lastRotation, this`delivered
      ensures Valid()
      ensures lastRotation == PollStep(env, old(lastRotation)).lastRotation
      ensures delivered == old(delivered) + Deliver(PollStep(env, old(lastRotation)).events, Listeners())
      ensures trace == old(trace) + HandshakeOps(env, SensorFrameLength)
    {
      var data := ReadMsg(SensorFrameLength, env);
      if |data| == 0 || data[0] == 0 {
        // no message
      } else if |data| != SensorFrameLength {
        // a short read is logged and skipped
      } else if data[3] == FlagSensorData {
        ParseAndSurfaceSensorData(data);
      }
    }

    /** init: reset the chip, read and check its firmware information, then write the two configuration commands. */
    method Init(env: ReadEnv) returns (r: Result<FirmwareInfo, InitError>)
      requires Valid()
      modifies this`tsMode, this`trace
      ensures Valid()
      ensures r == CheckFirmwareFrame(Buffer(OutcomeOf(env)))
      ensures trace == old(trace) + [ResetLow, ResetHigh] + HandshakeOps(env, FirmwareInfoLength)
                       + (if r.Success? then [BusWrite(OutputLock), BusWrite(AutoCalibration)] else [])
    {
      trace := trace + [ResetLow];
      trace := trace + [ResetHigh];
      var data := ReadMsg(FirmwareInfoLength, env);
      if |data| <= 3 {
        return Failure(IndexOutOfBounds);
      }
      if data[3] != FlagFirmwareInfo {
        return Failure(NotFirmwareInfo);
      }
      r := ParseFirmwareInfo(data);
      if r.Failure? {
        return;
      }
      trace := trace + [BusWrite(OutputLock)];
      trace := trace + [BusWrite(AutoCalibration)];
    }

    // -------------------------------------------------------------------------
    // Lifecycle

    /** start: fails while the polling thread is alive; otherwise sets the running flag and starts it. */
    method Start() returns (r: Outcome<LifecycleError>)
      modifies this`running, this`alive
      ensures old(alive) ==> r == Fail(AlreadyStarted) && running == old(running) && alive
      ensures !old(alive) ==> r == Pass && running && alive
    {
      if alive {
        return Fail(AlreadyStarted);
      }
      running := true;
      alive := true;
      r := Pass;
    }

    /**
     * stop: clears the running flag and joins the polling thread, which has then
     * exited; an interrupted join returns at once, leaving the thread as it was
     * until it exits on its own (PollThreadExits).
     */
    method Stop(interrupted: bool)
      modifies this`running, this`alive
      ensures !running
      ensures alive == (old(alive) && interrupted)
    {
      running := false;
      if !interrupted {
        alive := false;
      }
    }

    /**
     * The polling thread ends on its own: after running is cleared its loop
     * exits at the next check, and an exception caught around the loop ends it
     * with running still set.
     */
    method PollThreadExits()
      modifies this`alive
      ensures !alive
    {
      alive := false;
    }

    /** close: stops polling if running, closes the bus and clears every listener slot. */
    method Close(interrupted: bool)
      requires Valid()
      modifies this`running, this`alive, this`trace,
               this`onGestureListener, this`onMoveListener, this`onTouchTapListener, this`onAirWheelListener
      ensures Valid()
      ensures !running
      ensures alive == if old(running) then old(alive) && interrupted else old(alive)
      ensures trace == old(trace) + [BusClose]
      ensures Listeners() == Slots(None, None, None, None)
    {
      if running {
        Stop(interrupted);
      }
      trace := trace + [BusClose];
      RemoveOnGestureListener(None);
      RemoveOnMoveListener(None);
      RemoveOnTouchTapListener(None);
      RemoveOnAirWheelListener(None);
    }

    // -------------------------------------------------------------------------
    // Listener slots: add replaces, remove clears whatever it is given

    method AddOnMoveListener(listener: ListenerId)
      modifies this`onMoveListener
      ensures Listeners() == old(Listeners()).(move := Some(listener))
    {
      onMoveListener := Some(listener);
    }

    method RemoveOnMoveListener(listener: Option<ListenerId>)
      modifies this`onMoveListener
      ensures Listeners() == old(Listeners()).(move := None)
    {
      onMoveListener := None;
    }

    method AddOnAirWheelListener(listener: ListenerId)
      modifies this`onAirWheelListener
      ensures Listeners() == old(Listeners()).(airWheel := Some(listener))
    {
      onAirWheelListener := Some(listener);
    }

    method RemoveOnAirWheelListener(listener: Option<ListenerId>)
      modifies this`onAirWheelListener
      ensures Listeners() == old(Listeners()).(airWheel := None)
    {
      onAirWheelListener := None;
    }

    method AddOnTouchTapListener(listener: ListenerId)
      modifies this`onTouchTapListener
      ensures Listeners() == old(Listeners()).(touchTap := Some(listener))
    {
      onTouchTapListener := Some(listener);
    }

    method RemoveOnTouchTapListener(listener: Option<ListenerId>)
      modifies this`onTouchTapListener
      ensures Listeners() == old(Listeners()).(touchTap := None)
    {
      onTouchTapListener := None;
    }

    method AddOnGestureListener(listener: ListenerId)
      modifies this`onGestureListener
      ensures Listeners() == old(Listeners()).(gesture := Some(listener))
    {
      onGestureListener := Some(listener);
    }

    method RemoveOnGestureListener(listener: Option<ListenerId>)
      modifies this`onGestureListener
      ensures Listeners() == old(Listeners()).(gesture := None)
    {
      onGestureListener := None;
    }
  }

  // ---------------------------------------------------------------------------
  // Lifecycle scenarios

  /** A second start while the polling thread is alive is refused. */
  method StartTwice() returns (first: Outcome<LifecycleError>, second: Outcome<LifecycleError>)
    ensures first == Pass && second == Fail(AlreadyStarted)
  {
    var c := new Sense3dController();
    first := c.Start();
    second := c.Start();
  }

  /**
   * After a stop whose join completed, start succeeds again. After an
   * interrupted join it is refused while the thread is still alive, and
   * succeeds once the thread has exited.
   */
  method RestartAfterStop(interrupted: bool, exited: bool) returns (r: Outcome<LifecycleError>)
    ensures r == if interrupted && !exited then Fail(AlreadyStarted) else Pass
  {
    var c := new Sense3dController();
    var _ := c.Start();
    c.Stop(interrupted);
    if exited {
      c.PollThreadExits();
    }
    r := c.Start();
  }

  /** A thread ended by an exception leaves running set, and start succeeds anew. */
  method RestartAfterCrash() returns (running: bool, r: Outcome<LifecycleError>)
    ensures running && r == Pass
  {
    var c := new Sense3dController();
    var _ := c.Start();
    c.PollThreadExits();
    running := c.running;
    r := c.Start();
  }

  /** close leaves the controller stopped, the bus closed once and no listener registered. */
  method CloseAfterStart(listener: ListenerId, interrupted: bool) returns (running: bool, closes: nat, slots: Slots)
    ensures !running && closes == 1 && slots == Slots(None, None, None, None)
  {
    var c := new Sense3dController();
    c.AddOnMoveListener(listener);
    c.AddOnGestureListener(listener);
    var _ := c.Start();
    c.Close(interrupted);
    running, closes, slots := c.running, multiset(c.trace)[BusClose], c.Listeners();
  }
}
