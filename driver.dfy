/** The DHT22 driver as the firmware keeps it: one object whose fields are
    the module's globals (the phase, the previous capture tick, the cached
    reading), the two statics of the capture handler (the accumulator and its
    counter) and the hardware settings the handlers change (line direction
    and level, the two interrupt enables, the capture edge).

    Each entry point is a method; each interrupt handler is one atomic call
    that receives the timer value at its event. Every method is specified by
    the pure transition of Dht22Machine that it performs in place.
 */
module Dht22Driver {
  import opened Dht22Timing
  import opened Dht22Frame
  import opened Dht22Machine

  class Dht22 {
    var phase: Phase
    var prevTick: Tick
    var info: Reading
    var rxdata: Quad
    var idx: Counter
    var lineIsOutput: bool
    var lineHigh: bool
    var compareEnabled: bool
    var captureEnabled: bool
    var risingEdge: bool

    /** The driver's state as a value. */
    function Snapshot(): Ctx
      reads this
    {
      Ctx(phase, prevTick, rxdata, idx, info, lineIsOutput, lineHigh, compareEnabled, captureEnabled, risingEdge)
    }

    ghost predicate Valid()
      reads this
    {
      Inv(Snapshot())
    }

    /** The state at power-up: zeroed globals and registers. */
    constructor ()
      ensures Valid() && Snapshot() == Initial
    {
      phase, prevTick, info, rxdata, idx := Idle, 0, Reading(0, 0), 0, 0;
      lineIsOutput, lineHigh, compareEnabled, captureEnabled, risingEdge := false, false, false, false, false;
    }

    /** DHT22_State: Ready, Idle, or Busy for every phase in between. */
    method State() returns (s: Status)
      ensures s == StatusOf(phase)
      ensures s == DhtBusy <==> phase !in {Idle, Ready}
    {
      if phase == Ready {
        s := DhtReady;
      } else if phase == Idle {
        s := DhtIdle;
      } else {
        s := DhtBusy;
      }
    }

    /** DHT22_Read: start an acquisition, from Idle or Ready only. */
    method Read()
      requires Valid()
      modifies this
      ensures Valid()
      ensures Snapshot() == Request(old(Snapshot()))
    {
      if phase == Idle || phase == Ready {
        phase := Start;
        lineIsOutput, lineHigh := true, false;
        compareEnabled := true;
      }
    }

    /** The compare-match handler, at the end of the start pulse. */
    method OnCompareMatch(tick: Tick)
      requires Valid()
      modifies this
      ensures Valid()
      ensures Snapshot() == CompareMatch(old(Snapshot()), tick)
    {
      if phase == Start {
        phase := WaitAck;
        lineIsOutput, lineHigh := false, true;
        compareEnabled := false;
        captureEnabled := true;
        risingEdge := false;
        prevTick := tick;
      }
    }

    /** The capture handler: one edge of the sensor's answer at `tick`. The
        width since the previous edge is measured, this edge becomes the
        previous one, the phase switch runs, and an acquisition that ended
        Idle has its accumulator cleared and capture disarmed. */
    method OnCapture(tick: Tick)
      requires Valid()
      modifies this
      ensures Valid()
      ensures Snapshot() == Capture(old(Snapshot()), tick)
    {
      ghost var c := Snapshot();
      var cap := Interval(tick, prevTick);
      prevTick := tick;
      Switch(cap);
      if phase == Idle {
        idx, rxdata := 0, 0;
        captureEnabled := false;
      }
      CaptureKeepsInv(c, tick);
    }

    /** The phase switch of the capture handler, for a pulse `cap` wide. */
    method Switch(cap: nat)
      modifies this
      ensures Snapshot() == Dispatch(old(Snapshot()), cap)
    {
      match phase {
        case WaitAck =>
          phase := Ack;
          risingEdge := true;
        case Ack =>
          if InWindow(cap, AckUs) {
            phase := WaitDataStart;
            risingEdge := false;
          } else {
            phase := Idle;
          }
        case WaitDataStart =>
          if InWindow(cap, AckUs) {
            phase := WaitData;
            risingEdge := true;
          } else {
            phase := Idle;
          }
        case WaitData =>
          if InWindow(cap, DataStartUs) {
            phase := Data;
            risingEdge := false;
          } else {
            phase := Idle;
          }
        case Data =>
          ReceiveBit(cap);
        case _ =>
      }
    }

    /** The data branch of the switch; after the 40th bit the frame is
        checked and converted. */
    method ReceiveBit(cap: nat)
      modifies this
      ensures Snapshot() == DataBit(old(Snapshot()), cap)
    {
      ShiftBit(cap);
      if idx == FrameBits {
        match Decode(Split(rxdata)) {
          case None =>
            phase := Idle;
          case Some(reading) =>
            info := reading;
            phase := Ready;
            rxdata, idx := 0, 0;
            captureEnabled := false;
        }
      }
    }

    /** Shifts the accumulator, then appends the bit the width encodes and
        counts it, or aborts. */
    method ShiftBit(cap: nat)
      modifies this
      ensures Snapshot() == ShiftIn(old(Snapshot()), cap)
    {
      rxdata := ShiftLeft(rxdata);
      if InWindow(cap, ZeroUs) {
        phase := WaitData;
        risingEdge := true;
        idx := (idx + 1) % 0x100;
      } else if InWindow(cap, OneUs) {
        phase := WaitData;
        risingEdge := true;
        rxdata := rxdata + 1;
        idx := (idx + 1) % 0x100;
      } else {
        phase := Idle;
      }
    }

    /** DHT22_ReadTemperature: the cached temperature; the phase becomes Idle. */
    method ReadTemperature() returns (t: int)
      requires Valid()
      modifies this
      ensures Valid()
      ensures t == old(info).temperature
      ensures Snapshot() == Consume(old(Snapshot()))
    {
      phase := Idle;
      t := info.temperature;
    }

    /** DHT22_ReadHumidity: the cached humidity; the phase becomes Idle. */
    method ReadHumidity() returns (h: int)
      requires Valid()
      modifies this
      ensures Valid()
      ensures h == old(info).humidity
      ensures Snapshot() == Consume(old(Snapshot()))
    {
      phase := Idle;
      h := info.humidity;
    }
  }
}
