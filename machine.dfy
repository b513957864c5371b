/** The DHT22 acquisition state machine as pure transition functions.

    `Ctx` is everything the driver keeps between events: the phase, the tick
    of the previous edge, the bit accumulator and its counter, the cached
    reading, and the state of the line and of the two interrupt sources. Each
    entry point of the driver is one function from the old context to the new
    one; the class in Dht22Driver performs the same updates in place.
 */
module Dht22Machine {
  import opened Dht22Timing
  import opened Dht22Frame

  datatype Phase = Idle | Start | WaitAck | Ack | WaitDataStart | WaitData | Data | Ready

  /** What the application can observe of the phase. */
  datatype Status = DhtIdle | DhtBusy | DhtReady

  type Counter = i: int | 0 <= i < 0x100

  datatype Ctx = Ctx(
    phase: Phase,
    prevTick: Tick,        // tick of the previous edge
    rx: Quad,              // bit accumulator
    idx: Counter,          // bits accumulated so far
    info: Reading,         // last reading that passed its checksum
    lineIsOutput: bool,    // the data line is driven by the microcontroller
    lineHigh: bool,        // output level, or pull-up when an input
    compareEnabled: bool,  // the delayed-callback source is armed
    captureEnabled: bool,  // the edge-capture source is armed
    risingEdge: bool       // capture polarity
  )

  /** The state at reset: idle, everything zero, both sources disabled, the
      line an input without pull-up and the falling edge selected. */
  const Initial: Ctx := Ctx(Idle, 0, 0, 0, Reading(0, 0), false, false, false, false, false)

  /** The accumulator never holds more bits than its counter says, and the
      counter never rests at a full frame; so the accumulator holds at most 39
      bits and shifting it left cannot overflow 64 bits. */
  ghost predicate Inv(c: Ctx)
  {
    c.idx < FrameBits && c.rx < Pow2(c.idx) && c.rx < 0x80_0000_0000
  }

  /** The explicit bound of the invariant follows from the other two. */
  lemma {:induction false} InvFromCounter(c: Ctx)
    requires c.idx < FrameBits && c.rx < Pow2(c.idx)
    ensures Inv(c)
  {
    Pow2Monotone(c.idx, 39);
    Pow2Forty();
  }

  /** The status reported to the application for a phase. */
  function StatusOf(p: Phase): (s: Status)
    ensures s == DhtReady <==> p == Ready
    ensures s == DhtIdle <==> p == Idle
    ensures s == DhtBusy <==> p !in {Idle, Ready}
  {
    if p == Ready then DhtReady
    else if p == Idle then DhtIdle
    else DhtBusy
  }

  /** Start request: from idle or ready, drive the line low and arm the
      delayed callback; in any other phase do nothing. */
  function Request(c: Ctx): (r: Ctx)
    ensures c.phase in {Idle, Ready} ==>
      r == c.(phase := Start, lineIsOutput := true, lineHigh := false, compareEnabled := true)
    ensures c.phase !in {Idle, Ready} ==> r == c
  {
    if c.phase == Idle || c.phase == Ready then
      c.(phase := Start, lineIsOutput := true, lineHigh := false, compareEnabled := true)
    else
      c
  }

  /** The delayed callback, one millisecond after a start request: release
      the line with pull-up, disarm itself, arm capture on the falling edge
      and take `tick` as the first edge time. Outside Start it does nothing. */
  function CompareMatch(c: Ctx, tick: Tick): (r: Ctx)
    ensures c.phase == Start ==>
      r.phase == WaitAck && !r.lineIsOutput && r.lineHigh && !r.compareEnabled &&
      r.captureEnabled && !r.risingEdge && r.prevTick == tick &&
      r.rx == c.rx && r.idx == c.idx && r.info == c.info
    ensures c.phase != Start ==> r == c
  {
    if c.phase == Start then
      c.(phase := WaitAck, lineIsOutput := false, lineHigh := true, compareEnabled := false,
         captureEnabled := true, risingEdge := false, prevTick := tick)
    else
      c
  }

  /** ReadTemperature and ReadHumidity: the phase becomes Idle and nothing
      else changes; the accumulator and capture source are left as they are. */
  function Consume(c: Ctx): (r: Ctx)
    ensures StatusOf(r.phase) == DhtIdle
    ensures r.info == c.info && r.rx == c.rx && r.idx == c.idx && r.captureEnabled == c.captureEnabled
  {
    c.(phase := Idle)
  }

  /** The phases in which a capture event checks a width. */
  predicate Measuring(p: Phase)
  {
    p in {Ack, WaitDataStart, WaitData, Data}
  }

  /** The widths each measuring phase accepts, written out in microseconds. */
  predicate Conforms(p: Phase, cap: nat)
  {
    match p
    case Ack => 55 <= cap <= 105
    case WaitDataStart => 55 <= cap <= 105
    case WaitData => 25 <= cap <= 75
    case Data => 2 <= cap <= 95
    case _ => true
  }

  /** A capture event leaves the edge time, the line and the compare source alone. */
  predicate Unaffected(c: Ctx, r: Ctx)
  {
    r.prevTick == c.prevTick && r.lineIsOutput == c.lineIsOutput &&
    r.lineHigh == c.lineHigh && r.compareEnabled == c.compareEnabled
  }

  /** The frame is complete: validate it and either publish the reading and
      become Ready or fall back to Idle keeping the old reading. */
  function Complete(c: Ctx): (r: Ctx)
    ensures r.phase in {Idle, Ready} && Unaffected(c, r)
    ensures r.phase == Ready ==> Decode(Split(c.rx)) == Some(r.info) && r.rx == 0 && r.idx == 0 && !r.captureEnabled
    ensures r.phase == Idle ==> Decode(Split(c.rx)) == None && r.info == c.info
  {
    match Decode(Split(c.rx))
    case None => c.(phase := Idle)
    case Some(reading) =>
      c.(info := reading, phase := Ready, rx := 0, idx := 0, captureEnabled := false)
  }

  /** One data bit, before the frame check: shift the accumulator, then
      append the bit the width encodes and count it, or abort. */
  function ShiftIn(c: Ctx, cap: nat): (r: Ctx)
    ensures Unaffected(c, r) && r.info == c.info
  {
    var shifted := ShiftLeft(c.rx);
    match ClassifyBit(cap)
    case Some(b) =>
      c.(phase := WaitData, risingEdge := true, rx := shifted + b, idx := (c.idx + 1) % 0x100)
    case None =>
      c.(phase := Idle, rx := shifted)
  }

  /** One data bit; the 40th completes the frame. */
  function DataBit(c: Ctx, cap: nat): (r: Ctx)
    ensures Unaffected(c, r)
    ensures r.info != c.info ==> r.phase == Ready
  {
    var d := ShiftIn(c, cap);
    if d.idx == FrameBits then Complete(d) else d
  }

  /** The switch of the capture handler on the phase, for the measured width. */
  function Dispatch(c: Ctx, cap: nat): (r: Ctx)
    ensures Unaffected(c, r)
    ensures r.info != c.info ==> c.phase == Data && r.phase == Ready
    ensures c.phase in {Idle, Start, Ready} ==> r == c
  {
    match c.phase
    case WaitAck => c.(phase := Ack, risingEdge := true)
    case Ack =>
      if InWindow(cap, AckUs) then c.(phase := WaitDataStart, risingEdge := false) else c.(phase := Idle)
    case WaitDataStart =>
      if InWindow(cap, AckUs) then c.(phase := WaitData, risingEdge := true) else c.(phase := Idle)
    case WaitData =>
      if InWindow(cap, DataStartUs) then c.(phase := Data, risingEdge := false) else c.(phase := Idle)
    case Data => DataBit(c, cap)
    case _ => c
  }

  /** The capture handler: measure the width since the previous edge, take
      this edge as the new previous one, run the phase switch, and if the
      machine ended Idle clear the accumulator and disarm capture. */
  function Capture(c: Ctx, tick: Tick): (r: Ctx)
    ensures r.prevTick == tick
    ensures r.phase == Idle ==> r.rx == 0 && r.idx == 0 && !r.captureEnabled
    ensures r.info != c.info ==> c.phase == Data && r.phase == Ready
    ensures r.lineIsOutput == c.lineIsOutput && r.lineHigh == c.lineHigh && r.compareEnabled == c.compareEnabled
    ensures c.phase in {Start, Ready} ==> r == c.(prevTick := tick)
  {
    var d := Dispatch(c.(prevTick := tick), Interval(tick, c.prevTick));
    if d.phase == Idle then d.(idx := 0, rx := 0, captureEnabled := false) else d
  }

  /** The context after a capture event that aborted the acquisition. */
  function Aborted(c: Ctx, tick: Tick): Ctx
  {
    c.(phase := Idle, prevTick := tick, rx := 0, idx := 0, captureEnabled := false)
  }

  /** Every entry point keeps the invariant: the counter stays below 40 and
      the accumulator within its counter. */
  lemma {:induction false} CaptureKeepsInv(c: Ctx, tick: Tick)
    requires Inv(c)
    ensures Inv(Capture(c, tick))
  {
    if c.phase == Data {
      DataKeepsInv(c, tick);
    } else if c.phase in {WaitAck, Ack, WaitDataStart, WaitData} {
      HandshakeStep(c, tick);
    }
  }

  lemma {:induction false} DataKeepsInv(c: Ctx, tick: Tick)
    requires Inv(c) && c.phase == Data
    ensures Inv(Capture(c, tick))
  {
    var cap := Interval(tick, c.prevTick);
    match ClassifyBit(cap)
    case None =>
      OutOfWindowAborts(c, tick);
    case Some(b) =>
      if c.idx < FrameBits - 1 {
        DataStep(c, tick);
        var r := Capture(c, tick);
        assert Pow2(r.idx) == 2 * Pow2(c.idx);
        InvFromCounter(r);
      } else {
        LastBitStep(c, tick, b);
      }
  }

  lemma {:induction false} OtherEntriesKeepInv(c: Ctx, tick: Tick)
    requires Inv(c)
    ensures Inv(Request(c)) && Inv(CompareMatch(c, tick)) && Inv(Consume(c))
  {
  }

  lemma InitialInv()
    ensures Inv(Initial) && StatusOf(Initial.phase) == DhtIdle
  {
  }

  /** The handshake: WaitAck takes any width and selects the rising edge;
      Ack and WaitDataStart take [55,105], WaitData takes [25,75], each
      toggling the edge; any other width aborts. */
  lemma {:induction false} HandshakeStep(c: Ctx, tick: Tick)
    requires c.phase in {WaitAck, Ack, WaitDataStart, WaitData}
    ensures var cap, r := Interval(tick, c.prevTick), Capture(c, tick);
      && (c.phase == WaitAck ==> r == c.(phase := Ack, risingEdge := true, prevTick := tick))
      && (c.phase == Ack ==>
            r == if 55 <= cap <= 105 then c.(phase := WaitDataStart, risingEdge := false, prevTick := tick)
                 else Aborted(c, tick))
      && (c.phase == WaitDataStart ==>
            r == if 55 <= cap <= 105 then c.(phase := WaitData, risingEdge := true, prevTick := tick)
                 else Aborted(c, tick))
      && (c.phase == WaitData ==>
            r == if 25 <= cap <= 75 then c.(phase := Data, risingEdge := false, prevTick := tick)
                 else Aborted(c, tick))
  {
    HandshakeWindows(Interval(tick, c.prevTick));
  }

  /** A data bit before the last: the accumulator is shifted, a width in
      [2,52] appends 0, one in (52,95] appends 1 (the overlap with the "1"
      window goes to 0), and the counter grows by one; any other width aborts. */
  lemma {:induction false} DataStep(c: Ctx, tick: Tick)
    requires c.phase == Data && Inv(c) && c.idx < FrameBits - 1
    ensures var cap, r := Interval(tick, c.prevTick), Capture(c, tick);
      && (2 <= cap <= 52 ==>
            r == c.(phase := WaitData, risingEdge := true, rx := 2 * c.rx, idx := c.idx + 1, prevTick := tick))
      && (52 < cap <= 95 ==>
            r == c.(phase := WaitData, risingEdge := true, rx := 2 * c.rx + 1, idx := c.idx + 1, prevTick := tick))
      && (cap < 2 || 95 < cap ==> r == Aborted(c, tick))
  {
    match ClassifyBit(Interval(tick, c.prevTick))
    case Some(b) => DataStepBit(c, tick, b);
    case None => DataStepAbort(c, tick);
  }

  lemma {:induction false} DataStepBit(c: Ctx, tick: Tick, b: Bit)
    requires c.phase == Data && Inv(c) && c.idx < FrameBits - 1
    requires ClassifyBit(Interval(tick, c.prevTick)) == Some(b)
    ensures Capture(c, tick) ==
      c.(phase := WaitData, risingEdge := true, rx := 2 * c.rx + b, idx := c.idx + 1, prevTick := tick)
  {
    var cap := Interval(tick, c.prevTick);
    var c' := c.(prevTick := tick);
    assert Dispatch(c', cap) == DataBit(c', cap);
    DataBitBefore(c', cap);
  }

  lemma {:induction false} DataStepAbort(c: Ctx, tick: Tick)
    requires c.phase == Data && Inv(c) && c.idx < FrameBits - 1
    requires ClassifyBit(Interval(tick, c.prevTick)) == None
    ensures Capture(c, tick) == Aborted(c, tick)
  {
    var cap := Interval(tick, c.prevTick);
    var c' := c.(prevTick := tick);
    assert Dispatch(c', cap) == DataBit(c', cap);
    DataBitBefore(c', cap);
  }

  /** The data branch for a bit before the last, on the width alone. */
  lemma {:induction false} DataBitBefore(c: Ctx, cap: nat)
    requires c.phase == Data && Inv(c) && c.idx < FrameBits - 1
    ensures 2 <= cap <= 52 ==>
      DataBit(c, cap) == c.(phase := WaitData, risingEdge := true, rx := 2 * c.rx, idx := c.idx + 1)
    ensures 52 < cap <= 95 ==>
      DataBit(c, cap) == c.(phase := WaitData, risingEdge := true, rx := 2 * c.rx + 1, idx := c.idx + 1)
    ensures cap < 2 || 95 < cap ==> DataBit(c, cap) == c.(phase := Idle, rx := 2 * c.rx)
  {
    assert ShiftLeft(c.rx) == 2 * c.rx;
    var s := ShiftIn(c, cap);
    match ClassifyBit(cap)
    case Some(b) =>
      assert s == c.(phase := WaitData, risingEdge := true, rx := 2 * c.rx + b, idx := c.idx + 1);
    case None =>
      assert s == c.(phase := Idle, rx := 2 * c.rx);
  }

  /** The 40th bit: the completed accumulator is split into humidity,
      temperature and checksum; a valid frame publishes its reading and
      leaves the machine Ready with the accumulator cleared and capture
      disarmed, an invalid one aborts and keeps the previous reading. */
  lemma {:induction false} LastBitStep(c: Ctx, tick: Tick, b: Bit)
    requires c.phase == Data && Inv(c) && c.idx == FrameBits - 1
    requires ClassifyBit(Interval(tick, c.prevTick)) == Some(b)
    ensures var r := Capture(c, tick);
      match Decode(Split(2 * c.rx + b))
      case Some(reading) =>
        r == c.(phase := Ready, info := reading, rx := 0, idx := 0, captureEnabled := false,
                risingEdge := true, prevTick := tick)
      case None => r == Aborted(c, tick).(risingEdge := true)
  {
    var cap := Interval(tick, c.prevTick);
    var c' := c.(prevTick := tick);
    assert Dispatch(c', cap) == DataBit(c', cap);
    assert c.rx < 0x80_0000_0000;
    assert ShiftLeft(c.rx) == 2 * c.rx;
    var d := c'.(phase := WaitData, risingEdge := true, rx := 2 * c.rx + b, idx := FrameBits);
    assert d == c'.(phase := WaitData, risingEdge := true, rx := ShiftLeft(c'.rx) + b, idx := (c'.idx + 1) % 0x100);
    assert DataBit(c', cap) == Complete(d);
    match Decode(Split(d.rx))
    case Some(reading) =>
      assert Complete(d) == d.(info := reading, phase := Ready, rx := 0, idx := 0, captureEnabled := false);
    case None =>
      assert Complete(d) == d.(phase := Idle);
  }

  /** A width outside the window of a measuring phase aborts the acquisition:
      the machine is Idle, the accumulator and counter are cleared, capture is
      disarmed and the reading is kept. */
  lemma {:induction false} OutOfWindowAborts(c: Ctx, tick: Tick)
    requires Measuring(c.phase) && Inv(c)
    requires !Conforms(c.phase, Interval(tick, c.prevTick))
    ensures Capture(c, tick) == Aborted(c, tick)
    ensures StatusOf(Capture(c, tick).phase) == DhtIdle
  {
    if c.phase == Data {
      if c.idx < FrameBits - 1 {
        DataStep(c, tick);
      }
    } else {
      HandshakeStep(c, tick);
    }
  }

  /** Whenever a capture event leaves a measuring phase for Idle, the width
      was out of window or the frame failed its checksum. */
  lemma {:induction false} AbortMeansViolation(c: Ctx, tick: Tick)
    requires Measuring(c.phase) && Inv(c)
    requires Capture(c, tick).phase == Idle
    ensures var cap := Interval(tick, c.prevTick);
      !Conforms(c.phase, cap) ||
      (c.phase == Data && c.idx == FrameBits - 1 && Decode(Split(2 * c.rx + ClassifyBit(cap).value)) == None)
  {
    var cap := Interval(tick, c.prevTick);
    if Conforms(c.phase, cap) {
      if c.phase == Data {
        if c.idx < FrameBits - 1 {
          DataStep(c, tick);
        } else {
          LastBitStep(c, tick, ClassifyBit(cap).value);
        }
      } else {
        HandshakeStep(c, tick);
      }
    }
  }

  /** The accessors: the reading they return is the cached one, and a second
      call returns the same value and leaves the same state. */
  lemma {:induction false} ConsumeTwice(c: Ctx)
    ensures Consume(Consume(c)) == Consume(c) && Consume(c).info == c.info
  {
  }

  /** A start request while busy leaves the context exactly as it was. */
  lemma {:induction false} RequestWhileBusy(c: Ctx)
    requires StatusOf(c.phase) == DhtBusy
    ensures Request(c) == c
  {
  }

  /** Reading a value in the middle of a frame makes the machine Idle but
      keeps the partial frame: a new start request and its callback then
      begin the handshake with those stale bits still counted. */
  lemma {:induction false} ConsumeMidFrameKeepsBits(c: Ctx, tick: Tick)
    requires c.phase in {WaitData, Data}
    ensures var d := CompareMatch(Request(Consume(c)), tick);
      d.phase == WaitAck && d.rx == c.rx && d.idx == c.idx
  {
  }
}
