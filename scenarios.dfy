/** Whole acquisitions as the application sees them: a start request, the
    delayed callback, then the sensor's answer, and what the status and the
    cached reading are afterwards. */
module Dht22Scenarios {
  import opened Dht22Timing
  import opened Dht22Frame
  import opened Dht22Machine
  import opened Dht22Traces

  /** Capture events never touch the line or the compare source. */
  lemma {:induction false} FeedKeepsLine(c: Ctx, widths: seq<nat>)
    ensures var r := Feed(c, widths);
      r.lineIsOutput == c.lineIsOutput && r.lineHigh == c.lineHigh && r.compareEnabled == c.compareEnabled
    decreases |widths|
  {
    if widths != [] {
      FeedKeepsLine(Step(c, widths[0]), widths[1..]);
    }
  }

  /** One acquisition: from Idle or Ready with an empty accumulator, a start
      request, its callback at `t0` and a conforming answer carrying frame
      `f` leave the line released with pull-up, both sources disarmed and the
      accumulator empty; the status is Ready with the frame's reading when
      its checksum holds, Idle with the previous reading when it does not. */
  lemma {:induction false} Acquisition(c: Ctx, t0: Tick, widths: seq<nat>, f: nat)
    requires c.phase in {Idle, Ready} && c.idx == 0 && c.rx == 0
    requires f < 0x100_0000_0000 && FrameConforms(widths, f)
    ensures var r := Feed(CompareMatch(Request(c), t0), widths);
      && !r.lineIsOutput && r.lineHigh && !r.compareEnabled && !r.captureEnabled
      && r.rx == 0 && r.idx == 0
      && match Decode(Split(f))
         case Some(reading) => StatusOf(r.phase) == DhtReady && r.info == reading
         case None => StatusOf(r.phase) == DhtIdle && r.info == c.info
  {
    var w := CompareMatch(Request(c), t0);
    FrameOutcome(w, widths, f);
    FeedKeepsLine(w, widths);
  }

  /** A conforming answer for the raw fields `humidity` and `temperature`,
      with the checksum the sensor computes, publishes their conversion. */
  lemma {:induction false} ValidFrame(c: Ctx, t0: Tick, widths: seq<nat>, humidity: Word, temperature: Word)
    requires c.phase in {Idle, Ready} && c.idx == 0 && c.rx == 0
    requires FrameConforms(widths, Encode(humidity, temperature))
    ensures var r := Feed(CompareMatch(Request(c), t0), widths);
      StatusOf(r.phase) == DhtReady && r.info == Convert(Fields(humidity, temperature, Checksum(humidity, temperature)))
  {
    SplitEncode(humidity, temperature);
    Acquisition(c, t0, widths, Encode(humidity, temperature));
  }

  /** Humidity 65.5 % and temperature 23.1 degrees: the reading is 65.5 %
      and 23.1 - 2.0 = 21.1 degrees, in tenths. */
  lemma PositiveTemperature(c: Ctx, t0: Tick, widths: seq<nat>)
    requires c.phase in {Idle, Ready} && c.idx == 0 && c.rx == 0
    requires FrameConforms(widths, Encode(655, 231))
    ensures var r := Feed(CompareMatch(Request(c), t0), widths);
      r.phase == Ready && r.info == Reading(211, 655)
  {
    ValidFrame(c, t0, widths, 655, 231);
  }

  /** The same humidity with the sign bit set and magnitude 158: the reading
      is -15.8 - 2.0 = -17.8 degrees, in tenths. */
  lemma NegativeTemperature(c: Ctx, t0: Tick, widths: seq<nat>)
    requires c.phase in {Idle, Ready} && c.idx == 0 && c.rx == 0
    requires FrameConforms(widths, Encode(655, 0x8000 + 158))
    ensures var r := Feed(CompareMatch(Request(c), t0), widths);
      r.phase == Ready && r.info == Reading(-178, 655)
  {
    ValidFrame(c, t0, widths, 655, 0x8000 + 158);
  }

  /** The nominal waveform is one such answer. */
  lemma NominalPositive(c: Ctx, t0: Tick, wait: nat)
    requires c.phase in {Idle, Ready} && c.idx == 0 && c.rx == 0
    ensures var r := Feed(CompareMatch(Request(c), t0), NominalTrace(wait, Encode(655, 231)));
      r.phase == Ready && r.info == Reading(211, 655)
  {
    PositiveTemperature(c, t0, NominalTrace(wait, Encode(655, 231)));
  }

  /** An out-of-window width in any measuring phase makes the status Idle,
      and the reset is complete: a following acquisition with a valid frame
      succeeds. */
  lemma {:induction false} RecoverAfterViolation(c: Ctx, tick: Tick, t0: Tick, widths: seq<nat>, f: nat)
    requires Measuring(c.phase) && Inv(c) && !Conforms(c.phase, Interval(tick, c.prevTick))
    requires f < 0x100_0000_0000 && FrameConforms(widths, f) && Decode(Split(f)).Some?
    ensures StatusOf(Capture(c, tick).phase) == DhtIdle
    ensures var r := Feed(CompareMatch(Request(Capture(c, tick)), t0), widths);
      r.phase == Ready && r.info == Decode(Split(f)).value
  {
    OutOfWindowAborts(c, tick);
    Acquisition(Capture(c, tick), t0, widths, f);
  }

  /** A successful acquisition followed by one whose timings are all valid
      but whose checksum byte is wrong: the status is Idle and both
      accessors still return the first reading. */
  lemma {:induction false} CorruptChecksumKeepsReading(c: Ctx, t0: Tick, t1: Tick, good: seq<nat>, bad: seq<nat>,
                                                       humidity: Word, temperature: Word, corrupt: Fields)
    requires c.phase in {Idle, Ready} && c.idx == 0 && c.rx == 0
    requires FrameConforms(good, Encode(humidity, temperature))
    requires corrupt.crc != Checksum(corrupt.humidity, corrupt.temperature)
    requires FrameConforms(bad, Join(corrupt))
    ensures var first := Feed(CompareMatch(Request(c), t0), good);
      var second := Feed(CompareMatch(Request(first), t1), bad);
      && StatusOf(second.phase) == DhtIdle
      && Consume(second).info == first.info
      && first.info == Convert(Fields(humidity, temperature, Checksum(humidity, temperature)))
  {
    var first := Feed(CompareMatch(Request(c), t0), good);
    SplitEncode(humidity, temperature);
    Acquisition(c, t0, good, Encode(humidity, temperature));
    SplitOfJoin(corrupt);
    Acquisition(first, t1, bad, Join(corrupt));
  }

  /** Every event of a conforming answer but the last leaves the machine busy. */
  lemma {:induction false} BusyThroughout(c: Ctx, widths: seq<nat>, f: nat, k: nat)
    requires c.phase == WaitAck && c.idx == 0 && c.rx == 0
    requires FrameConforms(widths, f) && k < |widths|
    ensures StatusOf(Feed(c, widths[..k]).phase) == DhtBusy
  {
    if k < 3 {
      BusyInHandshake(c, widths, k);
    } else {
      var prefix := widths[..k];
      var d := HandshakeTrace(c, prefix);
      assert prefix[3..] == widths[3..][..k - 3];
      BusyInData(d, widths[3..], Bits(f, FrameBits), k - 3);
    }
  }

  lemma {:induction false} BusyInHandshake(c: Ctx, widths: seq<nat>, k: nat)
    requires c.phase == WaitAck && |widths| >= 2 && InWindow(widths[1], AckUs) && k < 3
    ensures Feed(c, widths[..k]).phase in {WaitAck, Ack, WaitDataStart}
  {
    if k == 0 {
      assert widths[..0] == [];
    } else if k == 1 {
      assert widths[..1] == [widths[0]];
      FeedCons(c, [widths[0]]);
      StepWaitAck(c, widths[0]);
    } else {
      assert widths[..2] == [widths[0], widths[1]];
      FeedPair(c, widths[0], widths[1]);
      StepWaitAck(c, widths[0]);
      StepAck(Step(c, widths[0]), widths[1]);
    }
  }

  lemma {:induction false} BusyInData(d: Ctx, data: seq<nat>, bits: seq<Bit>, m: nat)
    requires d.phase == WaitData && d.risingEdge && d.idx == 0 && d.rx == 0
    requires |bits| == FrameBits && BitsConform(data, bits) && m < |data|
    ensures Feed(d, data[..m]).phase in {WaitData, Data}
  {
    var j := m / 2;
    BitsConformPrefix(data, bits, j);
    DataTrace(d, data[..2 * j], bits[..j]);
    if m == 2 * j + 1 {
      var e := Feed(d, data[..2 * j]);
      assert data[..m] == data[..2 * j] + [data[2 * j]];
      FeedAppend(d, data[..2 * j], [data[2 * j]]);
      FeedCons(e, [data[2 * j]]);
      StepGap(e, data[2 * j]);
    }
  }

  /** A start request in the middle of an answer changes nothing: the rest
      of the answer ends exactly where it would have without it. */
  lemma {:induction false} StartMidFrame(c: Ctx, widths: seq<nat>, f: nat, k: nat)
    requires c.phase == WaitAck && c.idx == 0 && c.rx == 0
    requires FrameConforms(widths, f) && k < |widths|
    ensures Feed(Request(Feed(c, widths[..k])), widths[k..]) == Feed(c, widths)
  {
    BusyThroughout(c, widths, f, k);
    RequestWhileBusy(Feed(c, widths[..k]));
    assert widths == widths[..k] + widths[k..];
    FeedAppend(c, widths[..k], widths[k..]);
  }
}
