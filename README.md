# Sense3d: a verified model of the MGC3130 controller core

Sense3d drives a Microchip MGC3130 3D-gesture sensor over I2C. It uses a reset line and a
transfer-status (TS) line. `Sense3dController` does the following:

- resets the chip, reads and checks its 132-byte firmware-information message, and writes two
  configuration commands (`init`);
- runs a polling loop that reads 26-byte messages and decodes every sensor-data frame (type byte
  0x91) into move, touch/tap, gesture and air-wheel events;
- hands each event to the listener registered for its kind.

This project models that core in Dafny:

| file | module | contents |
|---|---|---|
| `wrappers.dfy` | `Wrappers` | `Option`, `Result` and `Outcome`. |
| `bits.dfy` | `Bits` | Bytes and 32-bit Ints, single-bit mask tests, little-endian 16-bit fields, population count. |
| `sense3d_types.dfy` | `Sense3dTypes` | The `GestureType` and `TouchType` enumerations in declaration order, the decoded `Event`, and `FirmwareInfo`. |
| `sensor_decode.dfy` | `SensorDecode` | The sensor-frame decoder as a pure function `DecodeFrame` of the 26 frame bytes and `lastRotation`. It returns the events in the order they are surfaced and the new `lastRotation`. Around it are lemmas that characterise each of the four blocks of the frame. |
| `firmware_init.dfy` | `FirmwareInit` | `parseFirmwareInfo` and the message-type check of `init`. Every exception is an `InitError`. |
| `frame_reader.dfy` | `FrameReader` | What `readMsg` returns for a given TS/bus behaviour, the operations it performs on the pins and the bus, and the classification the poll loop applies to each buffer. |
| `dispatch.dfy` | `Dispatch` | The four listener slots and the dispatch of events to them. |
| `controller.dfy` | `Sense3d` | The class `Sense3dController` and the poll-loop specification `PollRun`. |

`Sense3dController` has the source's fields:

- `lastRotation`, `running`, and `alive` for the polling thread;
- the four listener slots;
- the TS pin mode;
- a `trace` of every pin and bus operation;
- a log `delivered` of every dispatch.

Its methods change that state step by step, as the Kotlin does, and are proved against the pure
specification functions. The touch loop walks a one-bit mask shifted right over the fifteen touch
types. The poll loop runs one iteration per buffer while `running` holds.

The hardware is turned into parameters:

- A `ReadEnv` says whether TS was still high after the wait, whether it was low at the check,
  and what the bus read returned (bytes or an `IOException`).
- Listeners are identifiers.
- A callback is an entry appended to `delivered`.

The Kotlin updates `lastRotation` only inside the air-wheel branch (line 256).
`AirWheelDecoded` states that `lastRotation` changes only when config-mask bit 3 and sys-info
bit 1 are both set.

## Model

| member | source | states |
|---|---|---|
| Bits.LittleEndian16 | src/main/kotlin/xyz/reitmaier/sense3d/Sense3dController.kt:228-230 | `hi shl 8 or lo` is below 0x1_0000 and gives back `lo` as its low byte and `hi` as its high byte. |
| Bits.Wrap32 | src/main/kotlin/xyz/reitmaier/sense3d/Sense3dController.kt:252 | Kotlin's Int subtraction wraps to 32 bits and is exact whenever the true difference fits. |
| Bits.CountBitsIsPopCount | src/main/kotlin/xyz/reitmaier/sense3d/Sense3dController.kt:236-242 | Counting set bits 0 .. n-1 of v one position at a time equals the population count of v mod 2^n. |
| Sense3dTypes.TouchOrdinal | src/main/kotlin/xyz/reitmaier/sense3d/Sense3dController.kt:49-65 | Every touch type has a position in `TouchType.values()`, and the value at that position is the type itself. |
| Sense3dTypes.TouchTypesDistinct | src/main/kotlin/xyz/reitmaier/sense3d/Sense3dController.kt:49-65 | The fifteen touch types are distinct: position k holds a type whose ordinal is k. |
| SensorDecode.OfKindMembership | src/main/kotlin/xyz/reitmaier/sense3d/Sense3dController.kt:222-258 | An event is among the events of one kind exactly when it was decoded and has that kind. |
| SensorDecode.TouchPrefixMembership | src/main/kotlin/xyz/reitmaier/sense3d/Sense3dController.kt:236-242 | After k steps of the touch loop, touch type j has fired iff j < k and bit 14 - j of the action word is set. |
| SensorDecode.TouchPrefixIncreasing | src/main/kotlin/xyz/reitmaier/sense3d/Sense3dController.kt:237-242 | The touch loop fires touch types in strictly increasing declaration order, so none fires twice. |
| SensorDecode.TouchPrefixCount | src/main/kotlin/xyz/reitmaier/sense3d/Sense3dController.kt:236-242 | After k steps, the number of touch events equals the number of set bits among positions 15 - k .. 14. |
| SensorDecode.TouchPrefixIgnoresBit15 | src/main/kotlin/xyz/reitmaier/sense3d/Sense3dController.kt:236-242 | The loop never tests bit 15 or above: the result depends only on the action word mod 2^15. |
| SensorDecode.TouchCountIsPopCount | src/main/kotlin/xyz/reitmaier/sense3d/Sense3dController.kt:235-242 | The full touch loop emits one event per set bit of the low 15 bits of the action word. |
| SensorDecode.GestureMapping | src/main/kotlin/xyz/reitmaier/sense3d/Sense3dController.kt:247 | Raw codes 2..7 name `GestureType.values()[raw - 1]`. The result is GARBAGE exactly when the code is outside 2..7 (code 1 included). |
| SensorDecode.AirWheelExact | src/main/kotlin/xyz/reitmaier/sense3d/Sense3dController.kt:250-257 | The floating-point test `delta != 0 && -0.5 < delta < 0.5` on `delta = d / 32.0` is the same as `d != 0 && -16 < d < 16`. The emitted value is d * 360 / 32, and lastRotation becomes the counter. |
| SensorDecode.DecodeOrder | src/main/kotlin/xyz/reitmaier/sense3d/Sense3dController.kt:222-258 | A frame's events come in the order move, touches, gesture, air wheel. There is at most one move, one gesture and one air-wheel event. |
| SensorDecode.MoveDecoded | src/main/kotlin/xyz/reitmaier/sense3d/Sense3dController.kt:226-232 | A move event is emitted exactly when config-mask bit 4 and sys-info bit 0 are set. Its coordinates are the little-endian words at bytes 20, 22 and 24, each below 0x1_0000. |
| SensorDecode.TouchBlock | src/main/kotlin/xyz/reitmaier/sense3d/Sense3dController.kt:233-243 | The touch events of a frame are exactly those of the touch block. |
| SensorDecode.TouchDecoded | src/main/kotlin/xyz/reitmaier/sense3d/Sense3dController.kt:233-243 | Touch type k is surfaced iff config-mask bit 2 is set and bit 14 - k of `data[15] * 256 + data[14]` is set. |
| SensorDecode.TouchCountDecoded | src/main/kotlin/xyz/reitmaier/sense3d/Sense3dController.kt:233-243 | The number of touch events is the population count of the low 15 bits of the action word when the touch block is enabled, and 0 otherwise. |
| SensorDecode.TouchOrderDecoded | src/main/kotlin/xyz/reitmaier/sense3d/Sense3dController.kt:237-242 | A frame's touch events are in strictly increasing `TouchType` order. |
| SensorDecode.GestureDecoded | src/main/kotlin/xyz/reitmaier/sense3d/Sense3dController.kt:244-249 | A gesture event is emitted exactly when config-mask bit 1 is set and byte 10 is nonzero, and it carries the gesture that byte names. |
| SensorDecode.AirWheelDecoded | src/main/kotlin/xyz/reitmaier/sense3d/Sense3dController.kt:250-257 | When config-mask bit 3 and sys-info bit 1 are set, an air-wheel event d * 360 / 32 is emitted if d = counter - lastRotation is nonzero and within (-16, 16), and lastRotation becomes the counter. Otherwise there is no event and lastRotation is unchanged. |
| SensorDecode.TouchIgnoresBit15 | src/main/kotlin/xyz/reitmaier/sense3d/Sense3dController.kt:233-243 | Clearing the top bit of byte 15 changes nothing about the decoded frame. |
| FirmwareInit.UntilZeroTerminated | src/main/kotlin/xyz/reitmaier/sense3d/Sense3dController.kt:279-282 | The version string is a prefix of the bytes after offset 12 with no zero byte in it, and it is followed by a zero byte or the end of the data. |
| FirmwareInit.UntilZeroUnique | src/main/kotlin/xyz/reitmaier/sense3d/Sense3dController.kt:279-282 | Only one prefix has that property, so `split('\0')[0]` is characterised by it. |
| FirmwareInit.ParseFirmwareInfo | src/main/kotlin/xyz/reitmaier/sense3d/Sense3dController.kt:266-285 | Parsing succeeds iff there are at least 12 bytes and fwValid (byte 4) is neither 0 (no library) nor 0x0A (invalid library). Those two values give their own errors. On success the fields are bytes 4 .. 11 with both addresses times 128, the version is the zero-terminated prefix after byte 12, and fwInfoReceived holds. |
| FirmwareInit.CheckFirmwareFrame | src/main/kotlin/xyz/reitmaier/sense3d/Sense3dController.kt:83-91 | The buffer is accepted only when its type byte 3 is 0x83 and it parses. Any other type byte is `NotFirmwareInfo`. |
| FirmwareInit.VersionStopsAtTerminator | src/main/kotlin/xyz/reitmaier/sense3d/Sense3dController.kt:279-282 | Garbage after the terminator does not reach the version string. |
| FrameReader.Zeros | src/main/kotlin/xyz/reitmaier/sense3d/Sense3dController.kt:195 | The sentinel buffers are all zero bytes of the requested length. |
| FrameReader.HandshakeReleasesPin | src/main/kotlin/xyz/reitmaier/sense3d/Sense3dController.kt:199-212 | When the bus is read, TS is driven low first and switched back to input last, whether the read returned or threw. Afterwards TS is an input again. |
| FrameReader.Classify | src/main/kotlin/xyz/reitmaier/sense3d/Sense3dController.kt:169-175 | Only a 26-byte buffer is ever decoded. |
| FrameReader.ClassifyCases | src/main/kotlin/xyz/reitmaier/sense3d/Sense3dController.kt:169-175 | A buffer is decoded iff it has 26 bytes, byte 0 nonzero and type 0x91. It is passed over iff it is empty or byte 0 is 0. It is logged as short iff byte 0 is nonzero and its length is not 26. |
| FrameReader.SentinelsIgnored | src/main/kotlin/xyz/reitmaier/sense3d/Sense3dController.kt:193-215 | The timeout, I/O-failure and neither-high-nor-low sentinels are 4, 9 and 9 zero bytes. The poll loop passes over all of them. |
| Dispatch.Deliver | src/main/kotlin/xyz/reitmaier/sense3d/Sense3dController.kt:231 | Each event makes exactly one dispatch. |
| Dispatch.DeliverAppend | src/main/kotlin/xyz/reitmaier/sense3d/Sense3dController.kt:222-258 | Dispatching two event runs one after the other dispatches their concatenation. |
| Dispatch.DeliverMembership | src/main/kotlin/xyz/reitmaier/sense3d/Sense3dController.kt:231 | Listener l is called with event e iff e was decoded and l occupies the slot of e's kind. |
| Dispatch.DeliverAllSlots | src/main/kotlin/xyz/reitmaier/sense3d/Sense3dController.kt:231 | With all four slots filled, every event reaches a listener, in decode order. |
| Dispatch.DeliverNoSlots | src/main/kotlin/xyz/reitmaier/sense3d/Sense3dController.kt:231 | With all four slots empty, no listener is called. |
| Sense3d.PollRunWithoutFrames | src/main/kotlin/xyz/reitmaier/sense3d/Sense3dController.kt:166-177 | A run of reads that all ended in sentinels surfaces nothing and leaves lastRotation unchanged. |
| Sense3d.PollStepRotation | src/main/kotlin/xyz/reitmaier/sense3d/Sense3dController.kt:166-177 | After an iteration, lastRotation is the frame's counter when the air-wheel branch ran, and unchanged otherwise. |
| Sense3d.PollReleasesPin | src/main/kotlin/xyz/reitmaier/sense3d/Sense3dController.kt:166-177 | However many iterations run, TS ends as an input. |
| Sense3d.PollRunAppend | src/main/kotlin/xyz/reitmaier/sense3d/Sense3dController.kt:166-177 | Polling over a and then over b surfaces the events of a followed by those of b, b starting from the lastRotation a left: the same as polling over a + b. |
| Sense3d.PollOpsAppend | src/main/kotlin/xyz/reitmaier/sense3d/Sense3dController.kt:166-177 | The pin and bus operations of polling over a + b are those of a followed by those of b. |
| Sense3d.Sense3dController.constructor | src/main/kotlin/xyz/reitmaier/sense3d/Sense3dController.kt:29-37 | A new controller is not running, has no thread, has no listeners and has lastRotation 0. |
| Sense3d.Sense3dController.ReadMsg | src/main/kotlin/xyz/reitmaier/sense3d/Sense3dController.kt:187-216 | Returns the buffer the TS/bus behaviour calls for: the read bytes, 4 zeros on timeout, or 9 zeros on an I/O failure or when TS is neither high nor low. It appends exactly the handshake operations and leaves TS an input. |
| Sense3d.Sense3dController.Surface | src/main/kotlin/xyz/reitmaier/sense3d/Sense3dController.kt:231 | `listener?.run { this(event) }`: one dispatch of the event, to the slot of its kind as it is at the call. |
| Sense3d.Sense3dController.ParseAndSurfaceSensorData | src/main/kotlin/xyz/reitmaier/sense3d/Sense3dController.kt:222-258 | Appends, in order, one dispatch per event of `DecodeFrame`, to the slot of its kind. It sets lastRotation as `DecodeFrame` says. |
| Sense3d.Sense3dController.SurfaceMove | src/main/kotlin/xyz/reitmaier/sense3d/Sense3dController.kt:226-232 | Dispatches the frame's move event, if any. |
| Sense3d.Sense3dController.SurfaceTouches | src/main/kotlin/xyz/reitmaier/sense3d/Sense3dController.kt:233-243 | The mask-shifting loop dispatches exactly the touch events of the frame, in order. |
| Sense3d.Sense3dController.SurfaceGesture | src/main/kotlin/xyz/reitmaier/sense3d/Sense3dController.kt:244-249 | Dispatches the frame's gesture event, if any. |
| Sense3d.Sense3dController.SurfaceAirWheel | src/main/kotlin/xyz/reitmaier/sense3d/Sense3dController.kt:250-257 | Dispatches the frame's air-wheel event, if any, and updates lastRotation as the branch does. |
| Sense3d.Sense3dController.Poll | src/main/kotlin/xyz/reitmaier/sense3d/Sense3dController.kt:163-181 | While running, each read is decoded and surfaced exactly as `PollRun` specifies, the trace is the handshakes of every read, and TS stays an input. When not running, nothing happens. |
| Sense3d.Sense3dController.PollIteration | src/main/kotlin/xyz/reitmaier/sense3d/Sense3dController.kt:167-175 | One iteration reads 26 bytes and surfaces the buffer only when it classifies as sensor data. |
| Sense3d.Sense3dController.Init | src/main/kotlin/xyz/reitmaier/sense3d/Sense3dController.kt:76-112 | The result is the firmware check of the 132-byte read. The trace is reset low, reset high, the handshake, and then the output-lock and auto-calibration writes exactly when the check succeeded. |
| Sense3d.Sense3dController.Start | src/main/kotlin/xyz/reitmaier/sense3d/Sense3dController.kt:118-129 | Refuses with AlreadyStarted while the thread is alive. Otherwise it sets running and starts the thread. |
| Sense3d.Sense3dController.Stop | src/main/kotlin/xyz/reitmaier/sense3d/Sense3dController.kt:135-144 | Clears running. After a completed join the thread is gone. An interrupted join leaves the thread as it was. |
| Sense3d.Sense3dController.PollThreadExits | src/main/kotlin/xyz/reitmaier/sense3d/Sense3dController.kt:163-181 | The polling thread ends on its own, either when its loop sees running cleared or when an exception reaches the catch at line 178. From then on the thread is not alive. |
| Sense3d.Sense3dController.Close | src/main/kotlin/xyz/reitmaier/sense3d/Sense3dController.kt:149-157 | Stops only if running, closes the bus once, and empties all four listener slots. |
| Sense3d.Sense3dController.AddOnMoveListener | src/main/kotlin/xyz/reitmaier/sense3d/Sense3dController.kt:291-293 | Replaces the move slot and leaves the others as they were. |
| Sense3d.Sense3dController.RemoveOnMoveListener | src/main/kotlin/xyz/reitmaier/sense3d/Sense3dController.kt:299-301 | Empties the move slot, whatever listener is passed, and leaves the others. |
| Sense3d.Sense3dController.AddOnAirWheelListener | src/main/kotlin/xyz/reitmaier/sense3d/Sense3dController.kt:307-309 | Replaces the air-wheel slot only. |
| Sense3d.Sense3dController.RemoveOnAirWheelListener | src/main/kotlin/xyz/reitmaier/sense3d/Sense3dController.kt:315-317 | Empties the air-wheel slot only, whatever is passed. |
| Sense3d.Sense3dController.AddOnTouchTapListener | src/main/kotlin/xyz/reitmaier/sense3d/Sense3dController.kt:322-324 | Replaces the touch/tap slot only. |
| Sense3d.Sense3dController.RemoveOnTouchTapListener | src/main/kotlin/xyz/reitmaier/sense3d/Sense3dController.kt:330-332 | Empties the touch/tap slot only, whatever is passed. |
| Sense3d.Sense3dController.AddOnGestureListener | src/main/kotlin/xyz/reitmaier/sense3d/Sense3dController.kt:338-340 | Replaces the gesture slot only. |
| Sense3d.Sense3dController.RemoveOnGestureListener | src/main/kotlin/xyz/reitmaier/sense3d/Sense3dController.kt:346-348 | Empties the gesture slot only, whatever is passed. |
| Sense3d.StartTwice | src/main/kotlin/xyz/reitmaier/sense3d/Sense3dController.kt:118-129 | On a fresh controller the first start succeeds and a second start is refused. |
| Sense3d.RestartAfterStop | src/main/kotlin/xyz/reitmaier/sense3d/Sense3dController.kt:118-144 | Start after a completed stop succeeds. After an interrupted join, start is refused while the thread is still alive and succeeds once it has exited. |
| Sense3d.RestartAfterCrash | src/main/kotlin/xyz/reitmaier/sense3d/Sense3dController.kt:118-129 | A thread that ended by an exception leaves running set, and start then succeeds. |
| Sense3d.CloseAfterStart | src/main/kotlin/xyz/reitmaier/sense3d/Sense3dController.kt:149-157 | After start and close, the controller is not running, the bus has been closed once, and no listener remains. |

## Left out

- Threads: the polling thread is the flag `alive`. A `stop` from another thread while `poll` runs is not modelled; `Poll` only runs while `running` holds, and `running` does not change during it.
- Poll termination: the loop is run over a finite sequence of reads, each iteration whole. An exception caught at line 178 ends it part-way through. Such an exception can come from a listener that throws, or from an `InterruptedException` in `Thread.sleep` at line 176 or 191. The events of that iteration after the exception are then not surfaced. The model does not capture such a partial iteration. It captures only the thread's end, as `PollThreadExits`.
- Time: the 5 ms wall-clock wait for TS (lines 189-192) is the `ReadEnv` flag `highAfterWait`. The TS level at line 199 is `lowAtCheck`. The `Thread.sleep` calls are left out.
- Exceptions other than I/O: exceptions thrown by `i2c.write`, `i2c.close` or the GPIO calls are not modelled.
- Logging and `printStackTrace` are left out. The timestamp byte read at line 224 is never used.
- Re-entrant callbacks: a callback is assumed never to call back into the controller. `ParseAndSurfaceSensorData` dispatches every event of a frame to the slots as they were at its start. In the source, the slot is re-read at lines 231, 239, 248 and 254. A listener that adds or removes a listener therefore changes where later events of the same frame go. A listener that writes the public `lastRotation` changes the delta at line 252. Neither effect is modelled.
- Listener callbacks are opaque functions. A listener is an identifier, and a call is an entry in `delivered`. An entry with no listener records an event dispatched to an empty slot, where the source calls nothing.
- FirmwareInit.ParseFirmwareInfo: the version string is kept as bytes. The mapping of each byte through `toByte().toChar()` is not modelled; it is the identity below 0x80 and sign-extends to U+FF80..U+FFFF above. Kotlin's `IndexOutOfBoundsException` on a short buffer is the error `IndexOutOfBounds`.
- Doubles: the air-wheel delta is computed in exact reals. `d / 32.0` and `delta * 360.0` are exact in IEEE double for every Int difference that passes the range test, so the emitted value is the same.
- `Main.kt`, the build file and the pi4j/slf4j libraries are not part of this model.
