# DHT22 acquisition driver in Dafny

This project models the interrupt-driven driver of the DHT22 (AM2302)
temperature and humidity sensor in `dht22.c` and proves properties of it.

An application calls `DHT22_Read` to start an acquisition. The driver pulls
the data line low and arms a compare interrupt one millisecond later. That
handler releases the line and arms input capture. From then on, the capture
handler measures the time between consecutive edges of the sensor's answer.
Each width is checked against a +/-25 microsecond window around what the
current phase expects:

- the two 80 microsecond acknowledge halves;
- the 50 microsecond gap before every bit;
- 27 microseconds for a 0 bit, 70 for a 1 bit.

The 40 bits are shifted into a 64-bit accumulator, most significant first.
The last byte is a checksum over the four data bytes. A frame that passes
it is converted into the cached reading and the phase becomes Ready. Any
width outside its window, or a checksum that does not match, sends the
machine back to Idle with the accumulator cleared. `DHT22_State` reports
Idle, Busy or Ready. The two accessors return the cached values and, as a
side effect, set the phase back to Idle.

The model has five modules:

- `Dht22Timing` (`timing.dfy`): the 16-bit tick, the interval between two
  edges, the window test and the classification of a data bit.
- `Dht22Frame` (`frame.dfy`): the 64-bit shift, the split of a 40-bit
  frame into humidity, temperature and checksum, the checksum and the
  conversion into a reading. Readings are kept in integer tenths of a
  degree and of a percent. The calibration offset of -2.0 degrees is -20
  tenths.
- `Dht22Machine` (`machine.dfy`): the driver state as a value `Ctx`, and
  each entry point as a pure transition from the old state to the new one.
  The invariant `Inv` holds between events: the bit counter is below 40
  and the accumulator holds no more bits than the counter says.
- `Dht22Driver` (`driver.dfy`): the class `Dht22`, whose fields are the
  module's globals, the two statics of the capture handler and the
  hardware settings the handlers change. Each entry point is a method that
  updates those fields in place. Each method is proved to perform exactly
  the transition of `Dht22Machine` and to keep the invariant. Each
  interrupt handler is one atomic call that receives the timer value at its
  event.
- `Dht22Traces` and `Dht22Scenarios` (`traces.dfy`, `scenarios.dfy`):
  whole sensor answers, given as the sequence of pulse widths between
  edges, fed to the machine one capture event at a time.

The model follows `dht22.c` as written, including three behaviours that a
reader of the protocol alone might expect to be otherwise:

- The interval is half the 16-bit wrapped difference of two ticks,
  rounded down. This takes `difftime_tk` to be unsigned subtraction modulo
  2^16, as recorded under "## Left out". The interval is therefore never
  negative and always lies in [0, 32767].
- The accessors set the phase to Idle without clearing the accumulator,
  the counter or the capture enable. "Idle implies an empty accumulator"
  therefore holds after every capture event but not after an accessor
  call. `ConsumeMidFrameKeepsBits` shows the partial frame surviving a
  new start request.
- In the data phase the two bit windows overlap. The code tests the 0
  window first, so widths from 45 to 52 microseconds are read as 0.

## Model

| member | source | states |
|---|---|---|
| Dht22Timing.Interval | dht22.c:118-120 | the measured width is at most 32767 and is the half of the 16-bit wrapped tick difference, rounded down |
| Dht22Timing.IntervalAfter | dht22.c:119 | an edge `w` microseconds after another (w <= 32767) is measured as exactly `w`, across timer wrap-around |
| Dht22Timing.ClassifyBit | dht22.c:172-190 | a data width in [2,52] is bit 0, one in (52,95] is bit 1 (the overlap goes to 0), and anything else is no bit, each as an if-and-only-if |
| Dht22Timing.InWindow | dht22.c:131-179 | the inclusive window of +/-25 around a nominal width; HandshakeWindows writes out each window it yields and ClassifyBit the two bit windows |
| Dht22Timing.HandshakeWindows | dht22.c:130-167 | the acknowledge window with tolerance 25 is [55,105], the gap window [25,75], and the two bit windows overlap exactly on [45,52] |
| Dht22Frame.ShiftLeft | dht22.c:171 | the 64-bit left shift doubles an accumulator below 2^63 and always leaves the low bit free for the next bit |
| Dht22Frame.Split | dht22.c:194-196 | the checksum is the low byte, the temperature the next 16 bits and the humidity the 16 bits above; SplitJoin and SplitOfJoin prove the split inverse to joining the fields |
| Dht22Frame.SplitJoin | dht22.c:194-196 | for a 40-bit frame, humidity, temperature and checksum fields recombine to the frame |
| Dht22Frame.SplitOfJoin | dht22.c:194-196 | splitting the frame built from three fields gives those fields back |
| Dht22Frame.Checksum | dht22.c:198-204 | the sum of the four data bytes truncated to 8 bits; DecodeIffEncoded proves a frame passes it exactly when it is the sensor's encoding of its fields, SplitEncode that every such encoding passes |
| Dht22Frame.Convert | dht22.c:211-217 | humidity is the 16-bit field; temperature is the magnitude plus the offset when bit 15 is clear, and minus the magnitude plus the offset when it is set |
| Dht22Frame.ConvertSignMagnitude | dht22.c:211-216 | converting the sign-and-magnitude code of any value in [-32767, 32767] gives that value plus the offset |
| Dht22Frame.Decode | dht22.c:198-219 | a reading is produced if and only if the checksum byte equals the truncated sum of the four data bytes, and it is the conversion of the fields |
| Dht22Frame.SplitEncode | dht22.c:194-204 | the frame a sensor sends for given humidity and temperature splits back into those fields and passes the checksum |
| Dht22Frame.DecodeIffEncoded | dht22.c:194-204 | a 40-bit frame passes the checksum if and only if it is the sensor's encoding of its own data fields |
| Dht22Frame.AccumulateBound | dht22.c:171-185 | shifting n bits into an empty accumulator leaves a value below 2^n |
| Dht22Frame.AccumulateBits | dht22.c:171-185 | shifting in the n bits of a value, most significant first, rebuilds the value |
| Dht22Machine.StatusOf | dht22.c:44-52 | Ready if and only if the phase is Ready, Idle if and only if it is Idle, Busy for every other phase |
| Dht22Machine.Request | dht22.c:54-73 | from Idle or Ready: Start, line an output driven low, compare armed; in any other phase nothing changes |
| Dht22Machine.CompareMatch | dht22.c:83-99 | in Start: WaitAck, line an input with pull-up, compare disarmed, capture armed on the falling edge, this tick recorded, frame and reading untouched; otherwise nothing changes |
| Dht22Machine.Consume | dht22.c:32-42 | the status becomes Idle; reading, accumulator, counter and capture enable are kept |
| Dht22Machine.Complete | dht22.c:192-231 | a full frame ends Ready with the decoded reading, an empty accumulator and capture off, or Idle with the reading kept exactly when the checksum fails |
| Dht22Machine.ShiftIn | dht22.c:169-190 | a data edge never touches the edge time, the line, the compare source or the reading |
| Dht22Machine.DataBit | dht22.c:169-232 | the reading changes only when the data edge ends in Ready |
| Dht22Machine.Dispatch | dht22.c:122-233 | the phase switch leaves Idle, Start and Ready untouched and changes the reading only from Data to Ready |
| Dht22Machine.Capture | dht22.c:105-244 | every capture records its tick; ending Idle always means an empty accumulator and capture off; Start and Ready change only the tick; the line and compare source never change; the reading changes only from Data to Ready |
| Dht22Machine.CaptureKeepsInv | dht22.c:105-244 | after every capture event the counter is below 40 and the accumulator is below 2^counter |
| Dht22Machine.DataKeepsInv | dht22.c:169-243 | the invariant survives every data edge: a counted bit, an abort or a completed frame |
| Dht22Machine.OtherEntriesKeepInv | dht22.c:32-99 | the start request, the compare handler and the accessors keep the invariant |
| Dht22Machine.InitialInv | dht22.c:26-30 | the power-up state satisfies the invariant and reports Idle |
| Dht22Machine.HandshakeStep | dht22.c:124-167 | WaitAck takes any width to Ack with the rising edge; Ack and WaitDataStart advance exactly on [55,105], WaitData exactly on [25,75], each toggling the edge; any other width aborts |
| Dht22Machine.DataStep | dht22.c:169-190 | before the last bit, [2,52] appends 0, (52,95] appends 1, both count the bit and return to WaitData with the rising edge; any other width aborts |
| Dht22Machine.DataStepBit | dht22.c:169-190 | a classified data width doubles the accumulator, adds the bit and counts it |
| Dht22Machine.DataStepAbort | dht22.c:187-190 | an unclassified data width aborts the acquisition |
| Dht22Machine.DataBitBefore | dht22.c:169-190 | the data branch before the last bit shifts first, then appends and counts the bit or goes Idle |
| Dht22Machine.LastBitStep | dht22.c:192-231 | the 40th bit ends Ready with the decoded frame, an empty accumulator and capture off, or Idle with everything cleared and the rising edge still selected when the checksum fails |
| Dht22Machine.OutOfWindowAborts | dht22.c:130-243 | a width outside the window of Ack, WaitDataStart, WaitData or Data leaves Idle with accumulator and counter zero, capture off and the reading kept |
| Dht22Machine.AbortMeansViolation | dht22.c:130-243 | conversely, a measuring phase falls to Idle only on an out-of-window width or a failed checksum on the 40th bit |
| Dht22Machine.ConsumeTwice | dht22.c:32-42 | a second accessor call returns the same reading and leaves the same state |
| Dht22Machine.RequestWhileBusy | dht22.c:54-73 | a start request while busy leaves the whole state unchanged |
| Dht22Machine.ConsumeMidFrameKeepsBits | dht22.c:32-42 | an accessor call mid-frame followed by a new start and its callback reaches WaitAck with the stale bits and counter still in place |
| Dht22Traces.StepWaitAck | dht22.c:124-128 | the first edge of an answer, of any width, moves WaitAck to Ack with the rising edge |
| Dht22Traces.StepAck | dht22.c:130-154 | an acknowledge half in its window advances one phase and toggles the edge |
| Dht22Traces.StepGap | dht22.c:156-167 | a gap in its window moves WaitData to Data with the falling edge |
| Dht22Traces.StepBit | dht22.c:169-190 | a data pulse before the last shifts its bit into the accumulator and returns to WaitData |
| Dht22Traces.StepLastBit | dht22.c:192-231 | the 40th data pulse completes the frame: Ready with the reading or Idle with the old one, accumulator cleared and capture off either way |
| Dht22Traces.HandshakeTrace | dht22.c:124-154 | the first three edges of a conforming answer bring WaitAck to WaitData with the rising edge and nothing else changed |
| Dht22Traces.BitTrace | dht22.c:156-190 | a gap and a pulse for bit b double the accumulator, add b and count it |
| Dht22Traces.DataTrace | dht22.c:156-190 | fewer than 40 conforming bits from an empty accumulator leave WaitData holding exactly those bits |
| Dht22Traces.AppendBit | dht22.c:156-190 | one more conforming bit extends the accumulated bits by that bit |
| Dht22Traces.LastBitTrace | dht22.c:156-231 | the last gap and pulse complete the frame with the checksum outcome |
| Dht22Traces.FrameOutcome | dht22.c:105-244 | a conforming answer for frame f, from WaitAck with an empty accumulator, ends Ready with the decoded reading or Idle with the old reading, accumulator cleared and capture off |
| Dht22Traces.DataOutcome | dht22.c:156-244 | the same for the 40 data bits, from WaitData |
| Dht22Traces.FrameValue | dht22.c:171-196 | the first 39 bits of a frame shifted once more, plus the last bit, give the frame |
| Dht22Scenarios.FeedKeepsLine | dht22.c:105-244 | capture events never change the line or the compare source |
| Dht22Scenarios.Acquisition | dht22.c:54-244 | start, callback and a conforming answer leave the line released, both sources disarmed and the accumulator empty; the status is Ready with the frame's reading, or Idle with the previous one on a bad checksum |
| Dht22Scenarios.ValidFrame | dht22.c:192-226 | an answer carrying the sensor's encoding of raw fields publishes their conversion |
| Dht22Scenarios.PositiveTemperature | dht22.c:211-217 | humidity 655 and temperature 231 read as 65.5 % and 21.1 degrees (23.1 plus the offset) |
| Dht22Scenarios.NegativeTemperature | dht22.c:211-217 | the sign bit with magnitude 158 reads as -17.8 degrees (-15.8 plus the offset) |
| Dht22Scenarios.NominalPositive | dht22.c:105-244 | the nominal waveform for that frame, after any wait, gives that reading |
| Dht22Scenarios.RecoverAfterViolation | dht22.c:130-243 | an out-of-window width makes the status Idle, and a following valid acquisition succeeds, so the accumulator and counter were fully reset |
| Dht22Scenarios.CorruptChecksumKeepsReading | dht22.c:198-207 | after a good acquisition, one with valid timings but a wrong checksum byte ends Idle and the accessors still return the first reading |
| Dht22Scenarios.BusyThroughout | dht22.c:122-190 | every prefix of a conforming answer short of its last edge leaves the status Busy |
| Dht22Scenarios.BusyInHandshake | dht22.c:124-154 | the first two edges leave the machine in a handshake phase |
| Dht22Scenarios.BusyInData | dht22.c:156-190 | any prefix of the data part short of its end leaves WaitData or Data |
| Dht22Scenarios.StartMidFrame | dht22.c:54-73 | a start request in the middle of an answer changes nothing: the answer ends exactly as without it |
| Dht22Driver.Dht22.constructor | dht22.c:26-30 | the power-up state: Idle, zero globals, both sources off; the invariant holds |
| Dht22Driver.Dht22.State | dht22.c:44-52 | returns Busy exactly in the phases other than Idle and Ready |
| Dht22Driver.Dht22.Read | dht22.c:54-73 | updates the fields as the start request does and keeps the invariant |
| Dht22Driver.Dht22.OnCompareMatch | dht22.c:78-100 | updates the fields as the compare handler does and keeps the invariant |
| Dht22Driver.Dht22.OnCapture | dht22.c:105-244 | updates the fields in place as the capture handler does and keeps the invariant |
| Dht22Driver.Dht22.Switch | dht22.c:122-233 | the phase switch in place |
| Dht22Driver.Dht22.ReceiveBit | dht22.c:169-232 | the data branch in place, including the frame check |
| Dht22Driver.Dht22.ShiftBit | dht22.c:169-190 | the shift and bit classification in place |
| Dht22Driver.Dht22.ReadTemperature | dht22.c:32-36 | returns the cached temperature, sets the phase to Idle and changes nothing else |
| Dht22Driver.Dht22.ReadHumidity | dht22.c:38-42 | returns the cached humidity, sets the phase to Idle and changes nothing else |

## Left out

- Dht22Frame.Convert: readings are integer tenths. The firmware's
  floating-point division by ten and its rounding are not modelled.
- Register bits on DDRB, PORTB, TIMSK1 and TCCR1B are modelled as five
  booleans: line direction, line level, compare enable, capture enable and
  capture edge. Clearing the pending flags in TIFR1 (dht22.c:69, 93, 226)
  is not modelled, because the model has no pending interrupts.
- The enables are recorded but do not gate the calls. Any entry point may
  be called at any time, so every property holds for arbitrary call
  orders.
- The scheduling of the compare interrupt one millisecond ahead
  (`OCR1B = clock() + ms2tk(1.0)`) is not modelled. The compare event is a
  separate call that receives its tick.
- timer1.h is not part of this model. `difftime_tk` is taken to be
  subtraction modulo 2^16. `clock()` and the `TCNT1` read at dht22.c:118
  are the tick parameter of each handler. The model makes no claim about
  when the hardware latches that value.
- Interrupt preemption and `volatile` semantics: each handler is one
  atomic call.
- The debug-pin blocks under `DHT22_PIN_DEBUG` and the unused globals
  `t1`, `t2` and `t3` are left out.
- lph7366.h, fifo.h and utils.h are not part of this model.
- There is no timeout or retry logic, because the code has none.
