/**
 * The read handshake over the transfer-status (TS) line, the zero-filled
 * buffers it returns when there is no frame, the trace of bus and pin
 * operations the controller performs, and how the poll loop classifies a
 * buffer before decoding it.
 */
module FrameReader {
  import opened Bits
  import SensorDecode

  const FlagSensorData := 0x91

  /** What the bus read returned: some bytes, or an IOException. */
  datatype BusRead = Bytes(data: seq<Byte>) | IoFailure

  /**
   * The environment of one readMsg call: the level of TS once the 5 ms wait is
   * over, whether TS then reads low when the driver checks it again, and what
   * the bus read returns if it is attempted.
   */
  datatype ReadEnv = ReadEnv(highAfterWait: bool, lowAtCheck: bool, bus: BusRead)

  /** The abstract outcome of readMsg. */
  datatype ReadOutcome =
    | HandshakeTimeout       // TS still high after the wait
    | NotLowAtCheck          // TS neither high nor low when checked again
    | IoFailed               // the bus read threw an IOException
    | Read(data: seq<Byte>)  // the bytes the bus returned

  function OutcomeOf(env: ReadEnv): ReadOutcome
  {
    if env.highAfterWait then HandshakeTimeout
    else if !env.lowAtCheck then NotLowAtCheck
    else match env.bus
      case Bytes(data) => Read(data)
      case IoFailure => IoFailed
  }

  function Zeros(n: nat): (r: seq<Byte>)
    ensures |r| == n && forall i | 0 <= i < n :: r[i] == 0
  {
    seq(n, _ => 0)
  }

  /** The buffer readMsg returns for an outcome: 4 zero bytes for a timeout, 9 for either failure. */
  function Buffer(o: ReadOutcome): seq<Byte>
  {
    match o
    case HandshakeTimeout => Zeros(4)
    case NotLowAtCheck => Zeros(9)
    case IoFailed => Zeros(9)
    case Read(data) => data
  }

  /** The operations on the bus and on the two GPIO lines, in the order performed. */
  datatype IoOp =
    | ResetLow | ResetHigh            // the reset line
    | TsOutputLow | TsInput           // the TS line driven low as an output, or released to input
    | BusReadN(length: nat) | BusWrite(bytes: seq<Byte>) | BusClose

  datatype PinMode = Input | Output

  /** The mode of TS after a trace of operations; it starts as an input. */
  function TsModeAfter(trace: seq<IoOp>): PinMode
  {
    if trace == [] then Input
    else match trace[|trace| - 1]
      case TsOutputLow => Output
      case TsInput => Input
      case _ => TsModeAfter(trace[..|trace| - 1])
  }

  /** The operations readMsg performs. */
  function HandshakeOps(env: ReadEnv, length: nat): seq<IoOp>
  {
    if OutcomeOf(env).IoFailed? || OutcomeOf(env).Read? then [TsOutputLow, BusReadN(length), TsInput] else []
  }

  /**
   * readMsg drives TS low only when it reads the bus, and every time it does,
   * it puts TS back to input before returning: TS is an input afterwards
   * whenever it was before.
   */
  lemma HandshakeReleasesPin(trace: seq<IoOp>, env: ReadEnv, length: nat)
    ensures var ops := HandshakeOps(env, length);
            (TsOutputLow in ops <==> OutcomeOf(env).IoFailed? || OutcomeOf(env).Read?) &&
            (TsOutputLow in ops ==> ops[|ops| - 1] == TsInput && BusReadN(length) in ops)
    ensures var ops := HandshakeOps(env, length);
            forall i | 0 <= i < |ops| && ops[i].BusReadN? :: TsModeAfter(trace + ops[..i]) == Output
    ensures TsModeAfter(trace) == Input ==> TsModeAfter(trace + HandshakeOps(env, length)) == Input
  {
    var ops := HandshakeOps(env, length);
    if ops != [] {
      assert trace + ops[..1] == trace + [TsOutputLow];
    }
    var t := trace + HandshakeOps(env, length);
    if HandshakeOps(env, length) == [] {
      assert t == trace;
    } else {
      assert t[|t| - 1] == TsInput;
    }
  }

  /** What the poll loop does with a buffer. */
  datatype FrameClass =
    | Ignored       // empty, or byte 0 is zero
    | WrongLength   // not 26 bytes
    | OtherMessage  // 26 bytes, but not a sensor-data message
    | SensorData    // handed to the decoder

  function Classify(buf: seq<Byte>): (c: FrameClass)
    ensures c == SensorData ==> |buf| == SensorDecode.SensorFrameLength
  {
    if |buf| == 0 || buf[0] == 0 then Ignored
    else if |buf| != SensorDecode.SensorFrameLength then WrongLength
    else if buf[3] == FlagSensorData then SensorData
    else OtherMessage
  }

  /**
   * Only a 26-byte buffer whose byte 0 is nonzero and whose byte 3 is 0x91
   * reaches the decoder; a buffer starting with a zero byte is dropped
   * whatever its length; any other buffer of the wrong length is skipped.
   */
  lemma ClassifyCases(buf: seq<Byte>)
    ensures Classify(buf) == SensorData <==> |buf| == 26 && buf[0] != 0 && buf[3] == FlagSensorData
    ensures Classify(buf) == Ignored <==> |buf| == 0 || buf[0] == 0
    ensures Classify(buf) == WrongLength <==> |buf| != 0 && buf[0] != 0 && |buf| != 26
  {
  }

  /** Both zero-filled buffers readMsg returns in place of a frame are ignored by the poll loop. */
  lemma SentinelsIgnored(env: ReadEnv)
    requires !OutcomeOf(env).Read?
    ensures Classify(Buffer(OutcomeOf(env))) == Ignored
    ensures |Buffer(OutcomeOf(env))| == if OutcomeOf(env).HandshakeTimeout? then 4 else 9
  {
  }
}
