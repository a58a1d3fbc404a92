/**
 * The value types of the Sense3d controller: the two event enumerations, the
 * events handed to listeners, and the firmware identification record.
 */
module Sense3dTypes {
  import opened Bits

  /** Gesture codes reported by the MGC3130, in the enumeration's declaration order. */
  datatype GestureType =
    | Garbage
    | FlickWestToEast
    | FlickEastToWest
    | FlickSouthToNorth
    | FlickNorthToSouth
    | CircleClockwise
    | CircleCounterclockwise

  /** `GestureType.values()`: index 0 is Garbage. */
  const GestureTypes: seq<GestureType> := [
    Garbage, FlickWestToEast, FlickEastToWest, FlickSouthToNorth,
    FlickNorthToSouth, CircleClockwise, CircleCounterclockwise
  ]

  /** Touch and tap zones; the k-th one corresponds to bit 14 - k of the touch action mask. */
  datatype TouchType =
    | DoubleTapCenter | DoubleTapEast | DoubleTapNorth | DoubleTapWest | DoubleTapSouth
    | TapCenter | TapEast | TapNorth | TapWest | TapSouth
    | TouchCenter | TouchEast | TouchNorth | TouchWest | TouchSouth

  /** `TouchType.values()`. */
  const TouchTypes: seq<TouchType> := [
    DoubleTapCenter, DoubleTapEast, DoubleTapNorth, DoubleTapWest, DoubleTapSouth,
    TapCenter, TapEast, TapNorth, TapWest, TapSouth,
    TouchCenter, TouchEast, TouchNorth, TouchWest, TouchSouth
  ]

  /** The ordinal of a touch type, its position in TouchTypes. */
  function TouchOrdinal(t: TouchType): (k: nat)
    ensures k < |TouchTypes| && TouchTypes[k] == t
  {
    match t
    case DoubleTapCenter => 0
    case DoubleTapEast => 1
    case DoubleTapNorth => 2
    case DoubleTapWest => 3
    case DoubleTapSouth => 4
    case TapCenter => 5
    case TapEast => 6
    case TapNorth => 7
    case TapWest => 8
    case TapSouth => 9
    case TouchCenter => 10
    case TouchEast => 11
    case TouchNorth => 12
    case TouchWest => 13
    case TouchSouth => 14
  }

  /** The enumeration lists every touch type exactly once. */
  lemma TouchTypesDistinct(k: nat)
    requires k < |TouchTypes|
    ensures TouchOrdinal(TouchTypes[k]) == k
  {
    assert k == 0 || k == 1 || k == 2 || k == 3 || k == 4 || k == 5 || k == 6 || k == 7
        || k == 8 || k == 9 || k == 10 || k == 11 || k == 12 || k == 13 || k == 14;
  }

  /** What a listener receives: one value per listener callback. */
  datatype Event =
    | Move(x: int, y: int, z: int)
    | TouchTap(touch: TouchType)
    | Gesture(gesture: GestureType)
    | AirWheel(rotation: real)

  /** The four listener kinds, one slot each. */
  datatype EventKind = MoveKind | TouchTapKind | GestureKind | AirWheelKind

  function KindOf(e: Event): EventKind
  {
    match e
    case Move(_, _, _) => MoveKind
    case TouchTap(_) => TouchTapKind
    case Gesture(_) => GestureKind
    case AirWheel(_) => AirWheelKind
  }

  /** The firmware identification record returned by init. */
  datatype FirmwareInfo = FirmwareInfo(
    fwValid: Byte,
    hwRev: seq<Byte>,
    paramStartAddr: nat,
    libLoadedVer: seq<Byte>,
    libLoaderPlatform: Byte,
    fwStartAddr: nat,
    fwVersion: seq<Byte>,
    fwInfoReceived: bool)
}
