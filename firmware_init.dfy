/**
 * The firmware-information frame the MGC3130 sends after a reset, the check
 * init makes on it, and the two configuration commands init then writes.
 */
module FirmwareInit {
  import opened Bits
  import opened Wrappers
  import opened Sense3dTypes

  const FirmwareInfoLength := 132
  const FlagFirmwareInfo := 0x83
  const VersionOffset := 12

  /** Validity byte values that abort initialisation. */
  const NoLibrary := 0x00
  const CorruptLibrary := 0x0A

  /** The exceptions init can throw. */
  datatype InitError =
    | NotFirmwareInfo   // byte 3 is not the firmware-info marker
    | NoValidLibrary    // validity byte 0
    | InvalidLibrary    // validity byte 0x0A
    | IndexOutOfBounds  // the buffer is too short for a byte the code reads

  /** Output lock: report DSP status, gesture, touch, air-wheel and position data. */
  const OutputLock: seq<Byte> :=
    [0x10, 0x00, 0x00, 0xA2, 0xA1, 0x00, 0x00, 0x00, 0x1F, 0x00, 0x00, 0x00, 0xFF, 0xFF, 0xFF, 0xFF]

  /** Enable the auto-calibration triggers. */
  const AutoCalibration: seq<Byte> :=
    [0x10, 0x00, 0x00, 0xA2, 0x80, 0x00, 0x00, 0x00, 0x3F, 0x00, 0x00, 0x00, 0x3F, 0x00, 0x00, 0x00]

  /** The bytes of s before its first zero byte, or all of s when it has none. */
  function UntilZero(s: seq<Byte>): (r: seq<Byte>)
    ensures |r| <= |s|
  {
    if s == [] || s[0] == 0 then [] else [s[0]] + UntilZero(s[1..])
  }

  /** p is a zero-free prefix of s that is all of s or is followed by a zero byte. */
  predicate TerminatedPrefix(s: seq<Byte>, p: seq<Byte>)
  {
    |p| <= |s| && p == s[..|p|] && 0 !in p && (|p| < |s| ==> s[|p|] == 0)
  }

  /** UntilZero(s) is a terminated prefix of s. */
  lemma {:induction false} UntilZeroTerminated(s: seq<Byte>)
    ensures TerminatedPrefix(s, UntilZero(s))
  {
    if s != [] && s[0] != 0 {
      UntilZeroTerminated(s[1..]);
    }
  }

  /** ... and the only one. */
  lemma {:induction false} UntilZeroUnique(s: seq<Byte>, p: seq<Byte>)
    requires TerminatedPrefix(s, p)
    ensures p == UntilZero(s)
  {
    if p != [] {
      assert s[0] == p[0] != 0;
      assert TerminatedPrefix(s[1..], p[1..]);
      UntilZeroUnique(s[1..], p[1..]);
      assert p == [p[0]] + p[1..];
    }
  }

  /**
   * parseFirmwareInfo: fails when the validity byte is 0 or 0x0A, and
   * otherwise yields the record with both start addresses at byte * 128 and the
   * version taken from byte 12 up to the first zero byte.
   */
  function ParseFirmwareInfo(data: seq<Byte>): (r: Result<FirmwareInfo, InitError>)
    ensures r.Success? <==> |data| >= VersionOffset && data[4] != NoLibrary && data[4] != CorruptLibrary
    ensures |data| > 4 && data[4] == NoLibrary ==> r == Failure(NoValidLibrary)
    ensures |data| > 4 && data[4] == CorruptLibrary ==> r == Failure(InvalidLibrary)
    ensures r.Success? ==>
              var fw := r.value;
              fw.fwValid == data[4] && fw.fwInfoReceived &&
              fw.hwRev == data[5..7] && fw.libLoadedVer == data[8..10] && fw.libLoaderPlatform == data[10] &&
              fw.paramStartAddr == data[7] as int * 128 && fw.paramStartAddr <= 32640 &&
              fw.fwStartAddr == data[11] as int * 128 && fw.fwStartAddr <= 32640 &&
              TerminatedPrefix(data[VersionOffset..], fw.fwVersion)
  {
    if |data| <= 4 then Failure(IndexOutOfBounds)
    else if data[4] == NoLibrary then Failure(NoValidLibrary)
    else if data[4] == CorruptLibrary then Failure(InvalidLibrary)
    else if |data| < VersionOffset then Failure(IndexOutOfBounds)
    else
      var version := UntilZero(data[VersionOffset..]);
      UntilZeroTerminated(data[VersionOffset..]);
      Success(FirmwareInfo(data[4], [data[5], data[6]], data[7] as int * 128, [data[8], data[9]], data[10],
                           data[11] as int * 128, version, true))
  }

  /**
   * What init does with the 132-byte read: the type byte must be the
   * firmware-info marker, then the frame is parsed.
   */
  function CheckFirmwareFrame(data: seq<Byte>): (r: Result<FirmwareInfo, InitError>)
    ensures r.Success? <==>
              |data| >= VersionOffset && data[3] == FlagFirmwareInfo &&
              data[4] != NoLibrary && data[4] != CorruptLibrary
    ensures 3 < |data| && data[3] != FlagFirmwareInfo ==> r == Failure(NotFirmwareInfo)
    ensures r.Success? ==> r == ParseFirmwareInfo(data)
  {
    if |data| <= 3 then Failure(IndexOutOfBounds)
    else if data[3] != FlagFirmwareInfo then Failure(NotFirmwareInfo)
    else ParseFirmwareInfo(data)
  }

  /** A version region "v1.2", a zero terminator and garbage yields exactly "v1.2". */
  lemma VersionStopsAtTerminator()
    ensures UntilZero([0x76, 0x31, 0x2E, 0x32, 0x00, 0x67, 0x61, 0x72, 0x62, 0x61, 0x67, 0x65])
            == [0x76, 0x31, 0x2E, 0x32]
  {
  }
}
