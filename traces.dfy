/** Whole acquisitions: sequences of capture events fed to the machine.

    A trace is given as the widths, in microseconds, of the pulses between
    consecutive edges; each width becomes the tick at which the next edge is
    captured. A conforming trace for a 40-bit frame is the sensor's answer:
    the edge that ends its 20-40 microsecond wait (any width), the two
    80 microsecond acknowledge halves, then for each bit a 50 microsecond gap
    and a high pulse whose width encodes the bit.
 */
module Dht22Traces {
  import opened Dht22Timing
  import opened Dht22Frame
  import opened Dht22Machine

  /** One capture event `width` microseconds after the previous edge. */
  function Step(c: Ctx, width: nat): Ctx
  {
    Capture(c, TickAfter(c.prevTick, width))
  }

  /** Capture events for each width in turn. */
  function Feed(c: Ctx, widths: seq<nat>): Ctx
    decreases |widths|
  {
    if widths == [] then c else Feed(Step(c, widths[0]), widths[1..])
  }

  lemma {:induction false} FeedAppend(c: Ctx, a: seq<nat>, b: seq<nat>)
    ensures Feed(c, a + b) == Feed(Feed(c, a), b)
    decreases |a|
  {
    if a == [] {
      assert a + b == b;
    } else {
      assert (a + b)[0] == a[0] && (a + b)[1..] == a[1..] + b;
      FeedAppend(Step(c, a[0]), a[1..], b);
    }
  }

  lemma FeedPair(c: Ctx, g: nat, w: nat)
    ensures Feed(c, [g, w]) == Step(Step(c, g), w)
  {
    assert [g, w][0] == g && [g, w][1..] == [w];
    assert Feed(c, [g, w]) == Feed(Step(c, g), [w]);
    assert [w][0] == w && [w][1..] == [];
    assert Feed(Step(c, g), [w]) == Feed(Step(Step(c, g), w), []);
  }

  /** The data part of a trace: each bit is a gap in the 50 microsecond
      window followed by a pulse that classifies as that bit. */
  predicate BitsConform(widths: seq<nat>, bits: seq<Bit>)
  {
    |widths| == 2 * |bits| &&
    forall k :: 0 <= k < |bits| ==>
      InWindow(widths[2 * k], DataStartUs) && ClassifyBit(widths[2 * k + 1]) == Some(bits[k])
  }

  /** A trace carrying the 40-bit frame `f`. */
  predicate FrameConforms(widths: seq<nat>, f: nat)
  {
    |widths| == 3 + 2 * FrameBits &&
    InWindow(widths[1], AckUs) && InWindow(widths[2], AckUs) &&
    BitsConform(widths[3..], Bits(f, FrameBits))
  }

  /** The widths of the nominal waveform for a sequence of bits. */
  function NominalBits(bits: seq<Bit>): (widths: seq<nat>)
    ensures BitsConform(widths, bits)
  {
    if bits == [] then []
    else
      var prefix := NominalBits(bits[..|bits| - 1]);
      var widths := prefix + [DataStartUs, if bits[|bits| - 1] == 0 then ZeroUs else OneUs];
      assert forall k :: 0 <= k < |bits| - 1 ==> bits[k] == bits[..|bits| - 1][k];
      widths
  }

  /** The nominal answer of a sensor for frame `f`, after a wait of `wait`. */
  function NominalTrace(wait: nat, f: nat): (widths: seq<nat>)
    ensures FrameConforms(widths, f)
  {
    var widths := [wait, AckUs, AckUs] + NominalBits(Bits(f, FrameBits));
    assert widths[3..] == NominalBits(Bits(f, FrameBits));
    widths
  }

  lemma FeedCons(c: Ctx, widths: seq<nat>)
    requires widths != []
    ensures Feed(c, widths) == Feed(Step(c, widths[0]), widths[1..])
  {
  }

  /** The first edge of the sensor's answer, whatever its width, selects the rising edge. */
  lemma StepWaitAck(c: Ctx, w: nat)
    requires c.phase == WaitAck
    ensures Step(c, w) == c.(phase := Ack, risingEdge := true, prevTick := TickAfter(c.prevTick, w))
  {
    HandshakeStep(c, TickAfter(c.prevTick, w));
  }

  /** An acknowledge half in its window advances one phase and toggles the edge. */
  lemma StepAck(c: Ctx, w: nat)
    requires c.phase in {Ack, WaitDataStart} && InWindow(w, AckUs)
    ensures Step(c, w) == c.(phase := if c.phase == Ack then WaitDataStart else WaitData,
                             risingEdge := c.phase == WaitDataStart, prevTick := TickAfter(c.prevTick, w))
  {
    var t := TickAfter(c.prevTick, w);
    IntervalAfter(c.prevTick, w);
    HandshakeStep(c, t);
  }

  /** The gap before a bit in its window moves to Data and selects the falling edge. */
  lemma StepGap(c: Ctx, g: nat)
    requires c.phase == WaitData && InWindow(g, DataStartUs)
    ensures Step(c, g) == c.(phase := Data, risingEdge := false, prevTick := TickAfter(c.prevTick, g))
  {
    var t := TickAfter(c.prevTick, g);
    IntervalAfter(c.prevTick, g);
    HandshakeStep(c, t);
  }

  /** A data bit before the last, classified as `b`, is shifted into the
      accumulator and brings the machine back to WaitData. */
  lemma StepBit(c: Ctx, w: nat, b: Bit)
    requires c.phase == Data && Inv(c) && c.idx < FrameBits - 1 && ClassifyBit(w) == Some(b)
    ensures Step(c, w) == c.(phase := WaitData, risingEdge := true, rx := 2 * c.rx + b, idx := c.idx + 1,
                             prevTick := TickAfter(c.prevTick, w))
  {
    var t := TickAfter(c.prevTick, w);
    IntervalAfter(c.prevTick, w);
    DataStep(c, t);
  }

  /** The last data bit completes the frame. */
  lemma StepLastBit(c: Ctx, w: nat, b: Bit)
    requires c.phase == Data && Inv(c) && c.idx == FrameBits - 1 && ClassifyBit(w) == Some(b)
    ensures var r := Step(c, w);
      && r.rx == 0 && r.idx == 0 && !r.captureEnabled
      && match Decode(Split(2 * c.rx + b))
         case Some(reading) => r.phase == Ready && r.info == reading
         case None => r.phase == Idle && r.info == c.info
  {
    var t := TickAfter(c.prevTick, w);
    IntervalAfter(c.prevTick, w);
    LastBitStep(c, t, b);
  }

  /** The acknowledge: from WaitAck, the first three conforming events bring
      the machine to WaitData with the rising edge selected, nothing else
      changed but the edge time. */
  lemma {:induction false} HandshakeTrace(c: Ctx, widths: seq<nat>) returns (d: Ctx)
    requires c.phase == WaitAck && |widths| >= 3
    requires InWindow(widths[1], AckUs) && InWindow(widths[2], AckUs)
    ensures Feed(c, widths) == Feed(d, widths[3..])
    ensures d == c.(phase := WaitData, risingEdge := true, prevTick := d.prevTick)
  {
    var c1 := Step(c, widths[0]);
    StepWaitAck(c, widths[0]);
    FeedCons(c, widths);
    var c2 := Step(c1, widths[1]);
    StepAck(c1, widths[1]);
    assert widths[1..][0] == widths[1] && widths[1..][1..] == widths[2..];
    FeedCons(c1, widths[1..]);
    d := Step(c2, widths[2]);
    StepAck(c2, widths[2]);
    assert widths[2..][0] == widths[2] && widths[2..][1..] == widths[3..];
    FeedCons(c2, widths[2..]);
  }

  /** One gap and one bit, from WaitData before the last bit. */
  lemma {:induction false} BitTrace(c: Ctx, g: nat, w: nat, b: Bit)
    requires c.phase == WaitData && Inv(c) && c.idx < FrameBits - 1
    requires InWindow(g, DataStartUs) && ClassifyBit(w) == Some(b)
    ensures var d := Feed(c, [g, w]);
      d == c.(rx := 2 * c.rx + b, idx := c.idx + 1, risingEdge := true, prevTick := d.prevTick)
  {
    FeedPair(c, g, w);
    var c1 := Step(c, g);
    StepGap(c, g);
    StepBit(c1, w, b);
  }

  lemma BitsConformPrefix(widths: seq<nat>, bits: seq<Bit>, n: nat)
    requires BitsConform(widths, bits) && n <= |bits|
    ensures BitsConform(widths[..2 * n], bits[..n])
  {
    forall k | 0 <= k < n
      ensures InWindow(widths[..2 * n][2 * k], DataStartUs) && ClassifyBit(widths[..2 * n][2 * k + 1]) == Some(bits[..n][k])
    {
      assert bits[k] == bits[..n][k];
    }
  }

  /** The data bits before the last: from WaitData with an empty
      accumulator, a conforming trace of fewer than 40 bits leaves the
      machine in WaitData holding exactly those bits. */
  lemma {:induction false} DataTrace(c: Ctx, widths: seq<nat>, bits: seq<Bit>)
    requires c.phase == WaitData && c.risingEdge && c.idx == 0 && c.rx == 0
    requires |bits| < FrameBits && BitsConform(widths, bits)
    ensures var d := Feed(c, widths);
      d.rx == Accumulate(bits) && d == c.(rx := d.rx, idx := |bits|, prevTick := d.prevTick)
    decreases |bits|
  {
    if bits != [] {
      var n := |bits|;
      var front, frontWidths := bits[..n - 1], widths[..2 * n - 2];
      BitsConformPrefix(widths, bits, n - 1);
      DataTrace(c, frontWidths, front);
      assert widths == frontWidths + [widths[2 * n - 2], widths[2 * n - 1]];
      assert bits == front + [bits[n - 1]];
      AppendBit(c, frontWidths, front, widths[2 * n - 2], widths[2 * n - 1], bits[n - 1]);
    }
  }

  /** One more gap and bit after a trace that holds `front`. */
  lemma {:induction false} AppendBit(c: Ctx, widths: seq<nat>, front: seq<Bit>, g: nat, w: nat, b: Bit)
    requires c.phase == WaitData && |front| < FrameBits - 1
    requires var d := Feed(c, widths); d.rx == Accumulate(front) && d == c.(rx := d.rx, idx := |front|, prevTick := d.prevTick)
    requires InWindow(g, DataStartUs) && ClassifyBit(w) == Some(b)
    ensures var e := Feed(c, widths + [g, w]);
      e.rx == Accumulate(front + [b]) && e == c.(rx := e.rx, idx := |front| + 1, risingEdge := true, prevTick := e.prevTick)
  {
    var d := Feed(c, widths);
    FeedAppend(c, widths, [g, w]);
    AccumulateBound(front);
    InvFromCounter(d);
    BitTrace(d, g, w, b);
    assert (front + [b])[..|front|] == front;
  }

  /** The gap and the 40th bit, from WaitData holding 39 bits. */
  lemma {:induction false} LastBitTrace(c: Ctx, g: nat, w: nat, b: Bit)
    requires c.phase == WaitData && Inv(c) && c.idx == FrameBits - 1
    requires InWindow(g, DataStartUs) && ClassifyBit(w) == Some(b)
    ensures var r := Feed(c, [g, w]);
      && r.rx == 0 && r.idx == 0 && !r.captureEnabled
      && match Decode(Split(2 * c.rx + b))
         case Some(reading) => r.phase == Ready && r.info == reading
         case None => r.phase == Idle && r.info == c.info
  {
    FeedPair(c, g, w);
    var c1 := Step(c, g);
    StepGap(c, g);
    assert c1.rx == c.rx && c1.idx == c.idx && c1.info == c.info && c1.phase == Data;
    StepLastBit(c1, w, b);
  }

  /** End to end from WaitAck: a conforming trace for a 40-bit frame leaves
      the accumulator empty and capture disarmed, and the machine Ready with
      the frame's reading when the checksum holds, Idle with the previous
      reading when it does not. */
  lemma {:induction false} FrameOutcome(c: Ctx, widths: seq<nat>, f: nat)
    requires c.phase == WaitAck && c.idx == 0 && c.rx == 0
    requires f < 0x100_0000_0000 && FrameConforms(widths, f)
    ensures var r := Feed(c, widths);
      && r.rx == 0 && r.idx == 0 && !r.captureEnabled
      && match Decode(Split(f))
         case Some(reading) => r.phase == Ready && r.info == reading
         case None => r.phase == Idle && r.info == c.info
  {
    var c3 := HandshakeTrace(c, widths);
    DataOutcome(c3, widths[3..], f);
  }

  /** The 40 data bits, from WaitData with an empty accumulator. */
  lemma {:induction false} DataOutcome(c: Ctx, data: seq<nat>, f: nat)
    requires c.phase == WaitData && c.risingEdge && c.idx == 0 && c.rx == 0
    requires f < 0x100_0000_0000 && BitsConform(data, Bits(f, FrameBits))
    ensures var r := Feed(c, data);
      && r.rx == 0 && r.idx == 0 && !r.captureEnabled
      && match Decode(Split(f))
         case Some(reading) => r.phase == Ready && r.info == reading
         case None => r.phase == Idle && r.info == c.info
  {
    var bits := Bits(f, FrameBits);
    var front, frontWidths := bits[..FrameBits - 1], data[..2 * FrameBits - 2];
    BitsConformPrefix(data, bits, FrameBits - 1);
    DataTrace(c, frontWidths, front);
    var c4 := Feed(c, frontWidths);
    var g, w := data[2 * FrameBits - 2], data[2 * FrameBits - 1];
    assert data == frontWidths + [g, w];
    FeedAppend(c, frontWidths, [g, w]);
    AccumulateBound(front);
    InvFromCounter(c4);
    LastBitTrace(c4, g, w, bits[FrameBits - 1]);
    FrameValue(f);
  }

  /** The first 39 bits of a frame, shifted once more, with the last bit
      appended, give the frame. */
  lemma {:induction false} FrameValue(f: nat)
    requires f < 0x100_0000_0000
    ensures var bits := Bits(f, FrameBits);
      2 * Accumulate(bits[..FrameBits - 1]) + bits[FrameBits - 1] == f
  {
    Pow2Forty();
    AccumulateBits(f, FrameBits);
  }
}
