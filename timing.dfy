/** The timing classifier of the DHT22 (AM2302) single-wire protocol.

    Every capture event delivers the 16-bit tick at which an edge was seen.
    The width of the pulse that just ended is half the wrapped difference
    from the previous tick (the timer counts two ticks per microsecond), and
    that width is compared against a +/-25 microsecond window around the
    nominal width the current phase expects.
 */
module Dht22Timing {

  /** A value of the free-running 16-bit timer. */
  type Tick = t: int | 0 <= t < 0x1_0000

  /** Tolerance of every window, in microseconds. */
  const Tolerance: nat := 25

  /** Nominal widths, in microseconds, of the pulses the sensor sends. */
  const AckUs: nat := 80        // acknowledge low and high halves
  const DataStartUs: nat := 50  // low gap before every data bit
  const ZeroUs: nat := 27       // high half of a "0" bit
  const OneUs: nat := 70        // high half of a "1" bit

  /** The largest width one capture event can report. */
  const MaxWidth: nat := 32767

  /** Half the 16-bit wrap-around difference between two ticks: the width,
      in microseconds, of the pulse between two consecutive edges. */
  function Interval(curr: Tick, prev: Tick): (cap: nat)
    ensures cap <= MaxWidth
    ensures (prev + 2 * cap) % 0x1_0000 == curr || (prev + 2 * cap + 1) % 0x1_0000 == curr
  {
    ((curr - prev) % 0x1_0000) / 2
  }

  /** The tick at which an edge arrives `width` microseconds after `prev`. */
  function TickAfter(prev: Tick, width: nat): (t: Tick)
    ensures Interval(t, prev) == width % 0x8000
  {
    var t := (prev + 2 * width) % 0x1_0000;
    assert (t - prev) % 0x1_0000 == (2 * width) % 0x1_0000;
    assert (2 * width) % 0x1_0000 == 2 * (width % 0x8000);
    t
  }

  /** An edge `width` microseconds after another is measured as exactly
      `width`, for every width a capture event can report. */
  lemma {:induction false} IntervalAfter(prev: Tick, width: nat)
    requires width <= MaxWidth
    ensures Interval(TickAfter(prev, width), prev) == width
  {
    assert width % 0x8000 == width;
  }

  /** Inclusive tolerance window around a nominal width. */
  predicate InWindow(cap: nat, nominal: nat)
  {
    nominal - Tolerance <= cap <= nominal + Tolerance
  }

  /** A one-bit value. */
  type Bit = b: nat | b < 2

  /** Classifies the high half of a data bit: the "0" window is tried first,
      then the "1" window; anything else is no bit at all. */
  function ClassifyBit(cap: nat): (r: Option<Bit>)
    ensures r == Some(0) <==> 2 <= cap <= 52
    ensures r == Some(1) <==> 52 < cap <= 95
    ensures r == None <==> cap < 2 || 95 < cap
  {
    if InWindow(cap, ZeroUs) then Some(0)
    else if InWindow(cap, OneUs) then Some(1)
    else None
  }

  /** The windows that the handshake and data phases accept, written out. */
  lemma {:induction false} HandshakeWindows(cap: nat)
    ensures InWindow(cap, AckUs) <==> 55 <= cap <= 105
    ensures InWindow(cap, DataStartUs) <==> 25 <= cap <= 75
    ensures InWindow(cap, ZeroUs) && InWindow(cap, OneUs) <==> 45 <= cap <= 52
  {
  }

  datatype Option<+T> = None | Some(value: T)
}
