/**
 * Decoding of one 26-byte MGC3130 sensor-data frame into the events the
 * controller surfaces, in the order it surfaces them, together with the
 * air-wheel counter carried from frame to frame.
 */
module SensorDecode {
  import opened Bits
  import opened Sense3dTypes

  const SensorFrameLength := 26

  // Byte offsets of the two bitfields of a sensor frame.
  const ConfigMaskOffset := 4
  const SysInfoOffset := 7

  // Bits of the config mask (byte 4).
  const DataGesture: nat := 1
  const DataTouch: nat := 2
  const DataAirWheel: nat := 3
  const DataXyz: nat := 4

  // Bits of the sys-info byte (byte 7).
  const SysPosition: nat := 0
  const SysAirWheel: nat := 1

  // Payload offsets.
  const PayloadGesture := 10
  const PayloadTouch := 14
  const PayloadAirWheel := 18
  const PayloadX := 20
  const PayloadY := 22
  const PayloadZ := 24

  /** The events of one frame and the value of lastRotation after it. */
  datatype Decoded = Decoded(events: seq<Event>, lastRotation: Int32)

  predicate HasPosition(data: seq<Byte>)
    requires |data| == SensorFrameLength
  {
    BitSet(data[ConfigMaskOffset], DataXyz) && BitSet(data[SysInfoOffset], SysPosition)
  }

  predicate HasTouch(data: seq<Byte>)
    requires |data| == SensorFrameLength
  {
    BitSet(data[ConfigMaskOffset], DataTouch)
  }

  predicate HasGesture(data: seq<Byte>)
    requires |data| == SensorFrameLength
  {
    BitSet(data[ConfigMaskOffset], DataGesture) && data[PayloadGesture] > 0
  }

  predicate HasAirWheel(data: seq<Byte>)
    requires |data| == SensorFrameLength
  {
    BitSet(data[ConfigMaskOffset], DataAirWheel) && BitSet(data[SysInfoOffset], SysAirWheel)
  }

  function MoveEvents(data: seq<Byte>): seq<Event>
    requires |data| == SensorFrameLength
  {
    if HasPosition(data) then
      [Move(LittleEndian16(data[PayloadX], data[PayloadX + 1]),
            LittleEndian16(data[PayloadY], data[PayloadY + 1]),
            LittleEndian16(data[PayloadZ], data[PayloadZ + 1]))]
    else []
  }

  /** The 16-bit touch action mask, bytes 14 (low) and 15 (high). */
  function TouchAction(data: seq<Byte>): nat
    requires |data| == SensorFrameLength
  {
    LittleEndian16(data[PayloadTouch], data[PayloadTouch + 1])
  }

  /** The touch events for the first k touch types: type j fires when bit 14 - j of action is set. */
  function TouchPrefix(action: nat, k: nat): seq<Event>
    requires k <= |TouchTypes|
  {
    if k == 0 then []
    else TouchPrefix(action, k - 1)
         + (if BitSet(action, 14 - (k - 1)) then [TouchTap(TouchTypes[k - 1])] else [])
  }

  function TouchEvents(data: seq<Byte>): seq<Event>
    requires |data| == SensorFrameLength
  {
    if HasTouch(data) then TouchPrefix(TouchAction(data), |TouchTypes|) else []
  }

  /** `GestureType.values().getOrElse(raw - 1) { GARBAGE }`. */
  function GestureOf(raw: Byte): GestureType
  {
    var i := raw - 1;
    if 0 <= i < |GestureTypes| then GestureTypes[i] else Garbage
  }

  function GestureEvents(data: seq<Byte>): seq<Event>
    requires |data| == SensorFrameLength
  {
    if HasGesture(data) then [Gesture(GestureOf(data[PayloadGesture]))] else []
  }

  /**
   * The body of the air-wheel branch: the Int difference of the counter and
   * lastRotation, scaled by 1/32 and emitted times 360 when it is nonzero and
   * within (-0.5, 0.5); lastRotation becomes the counter either way.
   */
  function AirWheelBranch(counter: Byte, last: Int32): Decoded
  {
    var delta := (Wrap32(counter - last) as real) / 32.0;
    var events := if delta != 0.0 && delta > -0.5 && delta < 0.5 then [AirWheel(delta * 360.0)] else [];
    Decoded(events, counter)
  }

  /** The air-wheel branch when the frame enables it; otherwise no event and lastRotation kept. */
  function AirWheelPart(data: seq<Byte>, last: Int32): Decoded
    requires |data| == SensorFrameLength
  {
    if HasAirWheel(data) then AirWheelBranch(data[PayloadAirWheel], last) else Decoded([], last)
  }

  /** The events of one sensor frame and the new lastRotation. */
  function DecodeFrame(data: seq<Byte>, last: Int32): Decoded
    requires |data| == SensorFrameLength
  {
    var air := AirWheelPart(data, last);
    Decoded(MoveEvents(data) + TouchEvents(data) + GestureEvents(data) + air.events, air.lastRotation)
  }

  // ---------------------------------------------------------------------------
  // Events of one kind

  function OfKind(events: seq<Event>, kind: EventKind): (r: seq<Event>)
    ensures |r| <= |events|
    ensures forall i | 0 <= i < |r| :: KindOf(r[i]) == kind
  {
    if events == [] then []
    else (if KindOf(events[0]) == kind then [events[0]] else []) + OfKind(events[1..], kind)
  }

  lemma {:induction false} OfKindMembership(events: seq<Event>, kind: EventKind, e: Event)
    ensures e in OfKind(events, kind) <==> e in events && KindOf(e) == kind
  {
    if events != [] {
      OfKindMembership(events[1..], kind, e);
      assert events == [events[0]] + events[1..];
    }
  }

  lemma {:induction false} OfKindAppend(a: seq<Event>, b: seq<Event>, kind: EventKind)
    ensures OfKind(a + b, kind) == OfKind(a, kind) + OfKind(b, kind)
  {
    if a == [] {
      assert a + b == b;
    } else {
      assert (a + b)[0] == a[0];
      assert (a + b)[1..] == a[1..] + b;
      OfKindAppend(a[1..], b, kind);
    }
  }

  lemma {:induction false} OfKindUniform(s: seq<Event>, kind: EventKind, other: EventKind)
    requires forall i | 0 <= i < |s| :: KindOf(s[i]) == kind
    ensures OfKind(s, kind) == s
    ensures other != kind ==> OfKind(s, other) == []
  {
    if s != [] {
      OfKindUniform(s[1..], kind, other);
    }
  }

  // ---------------------------------------------------------------------------
  // Touch events

  lemma {:induction false} TouchPrefixAllTouch(action: nat, k: nat)
    requires k <= |TouchTypes|
    ensures forall i | 0 <= i < |TouchPrefix(action, k)| :: TouchPrefix(action, k)[i].TouchTap?
  {
    if k > 0 {
      TouchPrefixAllTouch(action, k - 1);
    }
  }

  /** Touch type j is among the first k touch events exactly when j < k and bit 14 - j is set. */
  lemma {:induction false} TouchPrefixMembership(action: nat, k: nat, j: nat)
    requires k <= |TouchTypes| && j < |TouchTypes|
    ensures TouchTap(TouchTypes[j]) in TouchPrefix(action, k) <==> j < k && BitSet(action, 14 - j)
  {
    if k > 0 {
      TouchPrefixMembership(action, k - 1, j);
      TouchTypesDistinct(j);
      TouchTypesDistinct(k - 1);
    }
  }

  /** The touch events come out in increasing enumeration order, each at most once. */
  lemma {:induction false} TouchPrefixIncreasing(action: nat, k: nat)
    requires k <= |TouchTypes|
    ensures forall i | 0 <= i < |TouchPrefix(action, k)| ::
              TouchPrefix(action, k)[i].TouchTap? && TouchOrdinal(TouchPrefix(action, k)[i].touch) < k
    ensures forall i, j | 0 <= i < j < |TouchPrefix(action, k)| ::
              TouchPrefix(action, k)[i].TouchTap? && TouchPrefix(action, k)[j].TouchTap? &&
              TouchOrdinal(TouchPrefix(action, k)[i].touch) < TouchOrdinal(TouchPrefix(action, k)[j].touch)
  {
    if k > 0 {
      TouchPrefixIncreasing(action, k - 1);
      TouchTypesDistinct(k - 1);
    }
  }

  /** The number of touch events for the first k types counts bits 15 - k .. 14 of action. */
  lemma {:induction false} TouchPrefixCount(action: nat, k: nat)
    requires k <= |TouchTypes|
    ensures |TouchPrefix(action, k)| == CountBits(action, 15 - k, 15)
  {
    if k > 0 {
      TouchPrefixCount(action, k - 1);
    }
  }

  /** Bit 15 of the action mask plays no part. */
  lemma {:induction false} TouchPrefixIgnoresBit15(action: nat, k: nat)
    requires k <= |TouchTypes|
    ensures TouchPrefix(action, k) == TouchPrefix(action % Pow2(15), k)
  {
    if k > 0 {
      TouchPrefixIgnoresBit15(action, k - 1);
      LowBitsKept(action, 15, 14 - (k - 1));
    }
  }

  /** One touch event per set bit among bits 0 .. 14 of the action mask. */
  lemma TouchCountIsPopCount(action: nat)
    ensures |TouchPrefix(action, |TouchTypes|)| == PopCount(action % Pow2(15))
  {
    TouchPrefixCount(action, 15);
    CountBitsIsPopCount(action, 15);
  }

  // ---------------------------------------------------------------------------
  // Gestures

  /** Raw codes 2 .. 7 name the gesture at index raw - 1; code 1 and codes from 8 up give Garbage. */
  lemma GestureMapping(raw: Byte)
    ensures 2 <= raw <= 7 ==> GestureOf(raw) == GestureTypes[raw - 1]
    ensures GestureOf(raw) == Garbage <==> !(2 <= raw <= 7)
  {
  }

  // ---------------------------------------------------------------------------
  // Air wheel

  /**
   * With d = counter - last computed exactly, the branch emits one event of
   * d * 360 / 32 degrees when d is nonzero and -16 < d < 16, nothing otherwise,
   * and always leaves the counter as the new lastRotation. The 32-bit wrap of
   * Kotlin's Int subtraction never changes the outcome.
   */
  lemma AirWheelExact(counter: Byte, last: Int32)
    ensures var r := AirWheelBranch(counter, last);
            var d := counter - last;
            r.lastRotation == counter &&
            (r.events == if d != 0 && -16 < d < 16 then [AirWheel((d * 360) as real / 32.0)] else [])
  {
    var d := counter - last;
    if d >= 0x8000_0000 {
      assert Wrap32(d) == d - 0x1_0000_0000;
    }
  }

  // ---------------------------------------------------------------------------
  // Whole frames

  predicate AllOfKind(s: seq<Event>, kind: EventKind)
  {
    forall i | 0 <= i < |s| :: KindOf(s[i]) == kind
  }

  /** Four blocks, each of a single kind, in the order move, touch, gesture, air wheel. */
  lemma {:induction false} FourBlocks(m: seq<Event>, t: seq<Event>, g: seq<Event>, a: seq<Event>, kind: EventKind)
    requires AllOfKind(m, MoveKind) && AllOfKind(t, TouchTapKind)
    requires AllOfKind(g, GestureKind) && AllOfKind(a, AirWheelKind)
    ensures OfKind(m + t + g + a, kind)
            == match kind
               case MoveKind => m
               case TouchTapKind => t
               case GestureKind => g
               case AirWheelKind => a
  {
    OfKindAppend(m + t + g, a, kind);
    OfKindAppend(m + t, g, kind);
    OfKindAppend(m, t, kind);
    OfKindUniform(m, MoveKind, kind);
    OfKindUniform(t, TouchTapKind, kind);
    OfKindUniform(g, GestureKind, kind);
    OfKindUniform(a, AirWheelKind, kind);
  }

  /** Every event kind sits in its own block: moves, then touches, then the gesture, then the air wheel. */
  lemma DecodeOrder(data: seq<Byte>, last: Int32)
    requires |data| == SensorFrameLength
    ensures var ev := DecodeFrame(data, last).events;
            ev == OfKind(ev, MoveKind) + OfKind(ev, TouchTapKind) + OfKind(ev, GestureKind) + OfKind(ev, AirWheelKind)
    ensures var ev := DecodeFrame(data, last).events;
            |OfKind(ev, MoveKind)| <= 1 && |OfKind(ev, GestureKind)| <= 1 && |OfKind(ev, AirWheelKind)| <= 1
  {
    var air := AirWheelPart(data, last);
    var m, t, g, a := MoveEvents(data), TouchEvents(data), GestureEvents(data), air.events;
    TouchPrefixAllTouch(TouchAction(data), |TouchTypes|);
    FourBlocks(m, t, g, a, MoveKind);
    FourBlocks(m, t, g, a, TouchTapKind);
    FourBlocks(m, t, g, a, GestureKind);
    FourBlocks(m, t, g, a, AirWheelKind);
  }

  /**
   * A move event is surfaced exactly when bit 4 of the config mask and bit 0 of
   * sys-info are set; its coordinates are the little-endian 16-bit fields at
   * bytes 20/21, 22/23 and 24/25.
   */
  lemma MoveDecoded(data: seq<Byte>, last: Int32)
    requires |data| == SensorFrameLength
    ensures var moves := OfKind(DecodeFrame(data, last).events, MoveKind);
            moves == if BitSet(data[4], 4) && BitSet(data[7], 0)
                     then [Move(data[21] as int * 256 + data[20], data[23] as int * 256 + data[22], data[25] as int * 256 + data[24])]
                     else []
    ensures var moves := OfKind(DecodeFrame(data, last).events, MoveKind);
            forall i | 0 <= i < |moves| :: moves[i].Move? &&
              0 <= moves[i].x < 0x1_0000 && 0 <= moves[i].y < 0x1_0000 && 0 <= moves[i].z < 0x1_0000
  {
    var moves := OfKind(DecodeFrame(data, last).events, MoveKind);
    assert moves == MoveEvents(data) by {
      TouchPrefixAllTouch(TouchAction(data), |TouchTypes|);
      FourBlocks(MoveEvents(data), TouchEvents(data), GestureEvents(data), AirWheelPart(data, last).events, MoveKind);
    }
    if HasPosition(data) {
      var x := LittleEndian16(data[PayloadX], data[PayloadX + 1]);
      var y := LittleEndian16(data[PayloadY], data[PayloadY + 1]);
      var z := LittleEndian16(data[PayloadZ], data[PayloadZ + 1]);
      assert moves == [Move(x, y, z)];
    }
  }

  /** The touch events of a frame are those of its touch block. */
  lemma TouchBlock(data: seq<Byte>, last: Int32)
    requires |data| == SensorFrameLength
    ensures OfKind(DecodeFrame(data, last).events, TouchTapKind) == TouchEvents(data)
  {
    TouchPrefixAllTouch(TouchAction(data), |TouchTypes|);
    FourBlocks(MoveEvents(data), TouchEvents(data), GestureEvents(data), AirWheelPart(data, last).events, TouchTapKind);
  }

  /**
   * With action = data[15] * 256 + data[14], touch type k is surfaced exactly
   * when bit 2 of the config mask and bit 14 - k of action are set.
   */
  lemma TouchDecoded(data: seq<Byte>, last: Int32, k: nat)
    requires |data| == SensorFrameLength && k < |TouchTypes|
    ensures var action := data[15] as int * 256 + data[14];
            (TouchTap(TouchTypes[k]) in DecodeFrame(data, last).events <==>
               BitSet(data[4], 2) && BitSet(action, 14 - k))
  {
    var e := TouchTap(TouchTypes[k]);
    var ev := DecodeFrame(data, last).events;
    TouchBlock(data, last);
    OfKindMembership(ev, TouchTapKind, e);
    assert e in ev <==> e in TouchEvents(data);
    if HasTouch(data) {
      TouchPrefixMembership(TouchAction(data), |TouchTypes|, k);
    }
  }

  /** One touch event per set bit among bits 0 .. 14 of the action mask, when bit 2 of the config mask is set. */
  lemma TouchCountDecoded(data: seq<Byte>, last: Int32)
    requires |data| == SensorFrameLength
    ensures var action := data[15] as int * 256 + data[14];
            |OfKind(DecodeFrame(data, last).events, TouchTapKind)|
              == if BitSet(data[4], 2) then PopCount(action % Pow2(15)) else 0
  {
    TouchBlock(data, last);
    TouchCountIsPopCount(TouchAction(data));
  }

  /** The touch events of a frame come out in increasing enumeration order. */
  lemma TouchOrderDecoded(data: seq<Byte>, last: Int32)
    requires |data| == SensorFrameLength
    ensures var touches := OfKind(DecodeFrame(data, last).events, TouchTapKind);
            forall i, j | 0 <= i < j < |touches| ::
              touches[i].TouchTap? && touches[j].TouchTap? &&
              TouchOrdinal(touches[i].touch) < TouchOrdinal(touches[j].touch)
  {
    TouchBlock(data, last);
    TouchPrefixIncreasing(TouchAction(data), |TouchTypes|);
  }

  /**
   * A gesture event is surfaced exactly when bit 1 of the config mask is set and
   * the raw gesture byte is nonzero; it carries GestureOf of that byte.
   */
  lemma GestureDecoded(data: seq<Byte>, last: Int32)
    requires |data| == SensorFrameLength
    ensures var gestures := OfKind(DecodeFrame(data, last).events, GestureKind);
            gestures == if BitSet(data[4], 1) && data[10] != 0 then [Gesture(GestureOf(data[10]))] else []
  {
    var air := AirWheelPart(data, last);
    TouchPrefixAllTouch(TouchAction(data), |TouchTypes|);
    FourBlocks(MoveEvents(data), TouchEvents(data), GestureEvents(data), air.events, GestureKind);
  }

  /**
   * With bit 3 of the config mask and bit 1 of sys-info set and d = data[18] -
   * last, one air-wheel event of d * 360 / 32 degrees is surfaced exactly when d
   * is nonzero and -16 < d < 16, and lastRotation becomes data[18]; otherwise
   * there is no air-wheel event and lastRotation is unchanged.
   */
  lemma AirWheelDecoded(data: seq<Byte>, last: Int32)
    requires |data| == SensorFrameLength
    ensures var r := DecodeFrame(data, last);
            var branch := BitSet(data[4], 3) && BitSet(data[7], 1);
            var d := data[18] - last;
            OfKind(r.events, AirWheelKind)
              == (if branch && d != 0 && -16 < d < 16 then [AirWheel((d * 360) as real / 32.0)] else []) &&
            r.lastRotation == if branch then data[18] else last
  {
    var air := AirWheelPart(data, last);
    assert OfKind(DecodeFrame(data, last).events, AirWheelKind) == air.events by {
      TouchPrefixAllTouch(TouchAction(data), |TouchTypes|);
      FourBlocks(MoveEvents(data), TouchEvents(data), GestureEvents(data), air.events, AirWheelKind);
    }
    if HasAirWheel(data) {
      AirWheelExact(data[PayloadAirWheel], last);
    }
  }

  /** Two frames that differ only in bit 15 of the touch action surface the same events. */
  lemma TouchIgnoresBit15(data: seq<Byte>, last: Int32)
    requires |data| == SensorFrameLength && data[15] >= 128
    ensures DecodeFrame(data, last) == DecodeFrame(data[15 := data[15] - 128], last)
  {
    var data' := data[15 := data[15] - 128];
    var a, a' := TouchAction(data), TouchAction(data');
    assert Pow2(15) == 0x8000;
    assert a == 0x8000 * 1 + a';
    DivModUnique(a, Pow2(15), 1, a');
    TouchPrefixIgnoresBit15(a, |TouchTypes|);
    assert TouchEvents(data) == TouchEvents(data');
    assert MoveEvents(data) == MoveEvents(data');
    assert GestureEvents(data) == GestureEvents(data');
    assert AirWheelPart(data, last) == AirWheelPart(data', last);
  }
}
