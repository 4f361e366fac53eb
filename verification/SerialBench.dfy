/** The UART interface bench that `fallback_tb_source` emits: its `send_byte` and `recv_byte`
    tasks, joined by a line. Time is counted in clock edges. */
module SerialBench {
  import opened Basics

  // ----- The level of a line over time

  function Repeat(level: bool, n: nat): seq<bool> {
    seq(n, _ => level)
  }

  /** Each level held for `baud` clocks. */
  function Cells(levels: seq<bool>, baud: nat): seq<bool> {
    if levels == [] then [] else Cells(levels[..|levels| - 1], baud) + Repeat(levels[|levels| - 1], baud)
  }

  /** A low start bit, the bits of the value from the lowest, a high stop bit. */
  function FrameLevels(value: seq<bool>): seq<bool> {
    [false] + value + [true]
  }

  function Frame(value: seq<bool>, baud: nat): seq<bool> {
    Cells(FrameLevels(value), baud)
  }

  /** Frames, each after an idle time of its own: the latency of the line before the first one,
      whatever the device waits before the others. */
  function Signal(gaps: seq<nat>, values: seq<seq<bool>>, baud: nat): seq<bool>
    requires |gaps| == |values|
  {
    if values == [] then []
    else Repeat(true, gaps[0]) + Frame(values[0], baud) + Signal(gaps[1..], values[1..], baud)
  }

  /** The level between edge `t` and the next; the line idles high before and after the signal. */
  function Level(wave: seq<bool>, t: int): bool {
    if 0 <= t < |wave| then wave[t] else true
  }

  /** What the receiver reads at edge `t`: where `first` holds it runs before the driver of the
      line at that edge, and still sees the level from before the edge. */
  function Sample(wave: seq<bool>, first: nat -> bool, t: nat): bool {
    Level(wave, if first(t) then t - 1 else t)
  }

  // ----- The sending side

  class Sender {
    var level: bool
    var wave: seq<bool>
    const baud: nat

    constructor (baud: nat)
      ensures level && wave == [] && this.baud == baud
    {
      level, wave := true, [];
      this.baud := baud;
    }

    /** `repeat (BAUD_DIV) @(posedge clk)` */
    method Hold()
      modifies this
      ensures level == old(level) && wave == old(wave) + Repeat(level, baud)
    {
      for i := 0 to baud
        invariant level == old(level) && wave == old(wave) + Repeat(level, i)
      {
        wave := wave + [level];
      }
    }

    method SendByte(value: seq<bool>)
      modifies this
      ensures level && wave == old(wave) + Frame(value, baud)
    {
      hide Cells, Repeat, Frame;
      level := false;
      Hold();
      FrameCells(value, baud);
      assert [false] + value[..0] == [false];
      for b := 0 to |value|
        invariant wave == old(wave) + Cells([false] + value[..b], baud)
      {
        level := value[b];
        Hold();
        CellsGrow([false] + value[..b], value[b], baud);
        assert [false] + value[..b + 1] == [false] + value[..b] + [value[b]];
      }
      level := true;
      Hold();
      CellsGrow([false] + value, true, baud);
      assert value[..|value|] == value;
      assert old(wave) + Cells([false] + value, baud) + Repeat(true, baud)
          == old(wave) + (Cells([false] + value, baud) + Repeat(true, baud));
    }

    /** The sending half of the fork: no idle time between the bytes. */
    method SendAll(stimulus: seq<seq<bool>>)
      modifies this
      ensures wave == old(wave) + Signal(seq(|stimulus|, _ => 0), stimulus, baud)
    {
      hide Frame;
      for i := 0 to |stimulus|
        invariant wave == old(wave) + Signal(seq(i, _ => 0), stimulus[..i], baud)
      {
        SendByte(stimulus[i]);
        SignalGrows(stimulus[..i], stimulus[i], baud);
        assert stimulus[..i + 1] == stimulus[..i] + [stimulus[i]];
      }
      assert stimulus[..|stimulus|] == stimulus;
    }
  }

  /** The first cell of a frame, and all of them. */
  lemma FrameCells(value: seq<bool>, baud: nat)
    ensures Cells([false], baud) == Repeat(false, baud)
    ensures Frame(value, baud) == Cells([false] + value + [true], baud)
  {
    assert Cells([false][..0], baud) + Repeat(false, baud) == Repeat(false, baud);
  }

  lemma CellsGrow(levels: seq<bool>, level: bool, baud: nat)
    ensures Cells(levels + [level], baud) == Cells(levels, baud) + Repeat(level, baud)
  {
    assert (levels + [level])[..|levels|] == levels;
  }

  lemma {:induction false} SignalGrows(values: seq<seq<bool>>, value: seq<bool>, baud: nat)
    ensures Signal(seq(|values| + 1, _ => 0), values + [value], baud)
              == Signal(seq(|values|, _ => 0), values, baud) + Frame(value, baud)
  {
    var gaps, more := seq(|values|, _ => 0), seq(|values| + 1, _ => 0);
    if values == [] {
      assert ([] + [value])[1..] == [] && more[1..] == [];
      assert Repeat(true, 0) + Frame(value, baud) + [] == Frame(value, baud);
    } else {
      assert (values + [value])[1..] == values[1..] + [value];
      assert more[1..] == seq(|values[1..]| + 1, _ => 0) && gaps[1..] == seq(|values[1..]|, _ => 0);
      SignalGrows(values[1..], value, baud);
    }
  }

  // ----- The receiving side

  /** The first edge from `t` on at which the receiver reads a low line; None when the bench's
      timeout ends the simulation before. */
  function Detect(wave: seq<bool>, first: nat -> bool, t: nat, limit: nat): Option<nat>
    decreases limit + 1 - t
  {
    if t > limit then None else if !Sample(wave, first, t) then Some(t) else Detect(wave, first, t + 1, limit)
  }

  /** The edge at which bit `b` is sampled when the start bit is noticed at edge `d`; the edge a
      receive ends at when `b` is the width. */
  function SampleTime(d: nat, baud: nat, b: nat): nat {
    d + baud / 2 + baud + b * baud
  }

  function Bits(wave: seq<bool>, first: nat -> bool, d: nat, baud: nat, width: nat): seq<bool> {
    seq(width, b requires 0 <= b < width => Sample(wave, first, SampleTime(d, baud, b)))
  }

  /** The value a receive started at edge `t` returns, and the edge it ends at. */
  function Receive(wave: seq<bool>, first: nat -> bool, t: nat, baud: nat, width: nat, limit: nat)
    : Option<(seq<bool>, nat)>
  {
    match Detect(wave, first, t, limit)
    case None => None
    case Some(d) =>
      var end := SampleTime(d, baud, width);
      if end > limit then None else Some((Bits(wave, first, d, baud, width), end))
  }

  /** What the capture loop has stored after `n` receives, or when the timeout strikes. */
  function Capture(wave: seq<bool>, first: nat -> bool, t: nat, baud: nat, width: nat, limit: nat, n: nat)
    : seq<seq<bool>>
    decreases n
  {
    if n == 0 then []
    else
      match Receive(wave, first, t, baud, width, limit)
      case None => []
      case Some((value, end)) => [value] + Capture(wave, first, end, baud, width, limit, n - 1)
  }

  method RecvByte(wave: seq<bool>, first: nat -> bool, start: nat, baud: nat, width: nat, limit: nat)
    returns (r: Option<(seq<bool>, nat)>)
    ensures r == Receive(wave, first, start, baud, width, limit)
  {
    var t := start;
    while t <= limit && Sample(wave, first, t)
      invariant Detect(wave, first, start, limit) == Detect(wave, first, t, limit)
      decreases limit + 1 - t
    {
      t := t + 1;
    }
    if t > limit {
      return None;
    }
    ghost var d := t;
    for i := 0 to baud / 2 + baud
      invariant t == d + i
    {
      t := t + 1;
    }
    var value: seq<bool> := [];
    for b := 0 to width
      invariant t == SampleTime(d, baud, b)
      invariant value == Bits(wave, first, d, baud, b)
    {
      value := value + [Sample(wave, first, t)];
      t := t + baud;
      assert (b + 1) * baud == b * baud + baud;
    }
    r := if t > limit then None else Some((value, t));
  }

  method CaptureAll(wave: seq<bool>, first: nat -> bool, baud: nat, width: nat, limit: nat, expected: nat)
    returns (captured: seq<seq<bool>>)
    ensures captured == Capture(wave, first, 0, baud, width, limit, expected)
  {
    captured := [];
    var t := 0;
    while |captured| < expected
      invariant |captured| <= expected
      invariant Capture(wave, first, 0, baud, width, limit, expected)
                == captured + Capture(wave, first, t, baud, width, limit, expected - |captured|)
    {
      var r := RecvByte(wave, first, t, baud, width, limit);
      if r.None? {
        return;
      }
      captured := captured + [r.value.0];
      t := r.value.1;
    }
  }

  // ----- Timing

  lemma {:induction false} CellsLength(levels: seq<bool>, baud: nat)
    ensures |Cells(levels, baud)| == |levels| * baud
  {
    if levels != [] {
      CellsLength(levels[..|levels| - 1], baud);
      assert (|levels| - 1) * baud + baud == |levels| * baud;
    }
  }

  lemma {:induction false} CellAt(levels: seq<bool>, baud: nat, c: nat, k: nat)
    requires c < |levels| && c * baud <= k < c * baud + baud
    ensures k < |Cells(levels, baud)| && Cells(levels, baud)[k] == levels[c]
  {
    var front := levels[..|levels| - 1];
    CellsLength(front, baud);
    if c < |front| {
      CellAt(front, baud, c, k);
    }
  }

  /** The receiver is at edge `e`, past every frame of `prefix`, and the line is idle until `prefix` ends. */
  ghost predicate Waiting(prefix: seq<bool>, e: nat) {
    e <= |prefix| && forall k :: e - 1 <= k < |prefix| ==> Level(prefix, k)
  }

  /** A frame that starts at edge `s` puts level `c` of its frame on the line for clocks
      s + c*baud .. s + (c+1)*baud - 1. */
  lemma FrameOnLine(before: seq<bool>, value: seq<bool>, after: seq<bool>, baud: nat, c: nat, k: nat)
    requires c < |value| + 2 && c * baud <= k < c * baud + baud
    ensures Level(before + Frame(value, baud) + after, |before| + k) == FrameLevels(value)[c]
  {
    CellAt(FrameLevels(value), baud, c, k);
  }

  /** A frame on the line, clock by clock: low for a bit time, each bit from the lowest for a bit
      time, then high for a bit time. */
  lemma FrameIs(value: seq<bool>, baud: nat, b: nat, k: nat)
    requires b < |value| && k < baud
    ensures var frame := Frame(value, baud); var n := |value|;
            && |frame| == baud + n * baud + baud
            && !Level(frame, k) && Level(frame, baud + b * baud + k) == value[b] && Level(frame, baud + n * baud + k)
  {
    hide Frame, Level;
    var n := |value|;
    FrameLength(value, baud);
    assert [] + Frame(value, baud) + [] == Frame(value, baud);
    FrameOnLine([], value, [], baud, 0, k);
    Times(b, baud);
    FrameOnLine([], value, [], baud, b + 1, baud + b * baud + k);
    Times(n, baud);
    FrameOnLine([], value, [], baud, n + 1, baud + n * baud + k);
  }

  lemma FrameLength(value: seq<bool>, baud: nat)
    ensures |Frame(value, baud)| == baud + |value| * baud + baud
  {
    CellsLength(FrameLevels(value), baud);
  }

  lemma Times(b: nat, baud: nat)
    ensures (b + 1) * baud == baud + b * baud
  {
  }

  /** Each bit is sampled in the middle of its cell, up to one clock. */
  lemma SampledMidBit(s: nat, d: nat, baud: nat, b: nat)
    requires d == s || d == s + 1
    ensures var into := SampleTime(d, baud, b) - (s + (b + 1) * baud); -1 <= 2 * into - baud <= 2
  {
    Times(b, baud);
  }

  /** The start bit is noticed at its first edge or the one after, whoever runs first. */
  lemma {:induction false} DetectStart(wave: seq<bool>, first: nat -> bool, e: nat, s: nat, limit: nat)
    requires e <= s && forall k :: e - 1 <= k < s ==> Level(wave, k)
    requires !Level(wave, s) && !Level(wave, s + 1)
    ensures var d := if first(s) then s + 1 else s;
            Detect(wave, first, e, limit) == if d <= limit then Some(d) else None
    decreases s - e
  {
    if e < s && e <= limit {
      DetectStart(wave, first, e + 1, s, limit);
    }
  }

  /** With at least three clocks per bit, every sample and the clock before it lie in the cell
      of their bit, and the receive ends inside the stop bit. */
  lemma SamplesInCells(s: nat, d: nat, baud: nat, b: nat)
    requires baud >= 3 && (d == s || d == s + 1)
    ensures var t := SampleTime(d, baud, b);
            s + (b + 1) * baud <= t - 1 && t < s + (b + 1) * baud + baud
  {
  }

  lemma ReceiveFrame(before: seq<bool>, value: seq<bool>, after: seq<bool>, first: nat -> bool, e: nat,
                     baud: nat, limit: nat)
    requires baud >= 3 && Waiting(before, e)
    ensures var wave := before + Frame(value, baud) + after;
            var end := SampleTime(if first(|before|) then |before| + 1 else |before|, baud, |value|);
            && Receive(wave, first, e, baud, |value|, limit) == (if end <= limit then Some((value, end)) else None)
            && Waiting(before + Frame(value, baud), end)
  {
    hide Frame, Level, Waiting, Bits, Detect, SampleTime, Sample;
    var d := if first(|before|) then |before| + 1 else |before|;
    StartIsNoticed(before, value, after, first, e, baud, limit);
    BitsAreRead(before, value, after, first, d, baud);
    EndsInStopBit(before, value, d, baud);
    EndsLater(d, baud, |value|);
  }

  lemma EndsLater(d: nat, baud: nat, width: nat)
    ensures SampleTime(d, baud, width) >= d
  {
  }

  lemma StartIsNoticed(before: seq<bool>, value: seq<bool>, after: seq<bool>, first: nat -> bool, e: nat,
                       baud: nat, limit: nat)
    requires baud >= 3 && Waiting(before, e)
    ensures var d := if first(|before|) then |before| + 1 else |before|;
            Detect(before + Frame(value, baud) + after, first, e, limit) == if d <= limit then Some(d) else None
  {
    hide Frame;
    var wave := before + Frame(value, baud) + after;
    FrameOnLine(before, value, after, baud, 0, 0);
    FrameOnLine(before, value, after, baud, 0, 1);
    forall k | e - 1 <= k < |before| ensures Level(wave, k) {
      assert Level(before, k);
    }
    DetectStart(wave, first, e, |before|, limit);
  }

  lemma BitsAreRead(before: seq<bool>, value: seq<bool>, after: seq<bool>, first: nat -> bool, d: nat, baud: nat)
    requires baud >= 3 && (d == |before| || d == |before| + 1)
    ensures Bits(before + Frame(value, baud) + after, first, d, baud, |value|) == value
  {
    hide Frame, Sample, SampleTime;
    forall b | 0 <= b < |value|
      ensures Sample(before + Frame(value, baud) + after, first, SampleTime(d, baud, b)) == value[b]
    {
      SampleBit(before, value, after, first, d, baud, b);
    }
  }

  lemma SampleBit(before: seq<bool>, value: seq<bool>, after: seq<bool>, first: nat -> bool, d: nat, baud: nat, b: nat)
    requires baud >= 3 && (d == |before| || d == |before| + 1) && b < |value|
    ensures Sample(before + Frame(value, baud) + after, first, SampleTime(d, baud, b)) == value[b]
  {
    hide Frame, Level, SampleTime;
    var t := SampleTime(d, baud, b);
    SamplesInCells(|before|, d, baud, b);
    FrameOnLine(before, value, after, baud, b + 1, t - 1 - |before|);
    FrameOnLine(before, value, after, baud, b + 1, t - |before|);
  }

  lemma EndsInStopBit(before: seq<bool>, value: seq<bool>, d: nat, baud: nat)
    requires baud >= 3 && (d == |before| || d == |before| + 1)
    ensures Waiting(before + Frame(value, baud), SampleTime(d, baud, |value|))
  {
    var end := SampleTime(d, baud, |value|);
    var line := before + Frame(value, baud);
    CellsLength(FrameLevels(value), baud);
    SamplesInCells(|before|, d, baud, |value|);
    assert (|value| + 2) * baud == (|value| + 1) * baud + baud;
    forall k | end - 1 <= k < |line| ensures Level(line, k) {
      FrameOnLine(before, value, [], baud, |value| + 1, k - |before|);
      assert line + [] == line;
    }
  }

  // ----- The two tasks are inverse

  ghost predicate AllOfWidth(values: seq<seq<bool>>, width: nat) {
    forall i :: 0 <= i < |values| ==> |values[i]| == width
  }

  lemma WaitingThroughGap(prefix: seq<bool>, e: nat, gap: nat)
    requires Waiting(prefix, e)
    ensures Waiting(prefix + Repeat(true, gap), e)
  {
    forall k | e - 1 <= k < |prefix| + gap ensures Level(prefix + Repeat(true, gap), k) {
      assert k < |prefix| ==> Level(prefix, k);
    }
  }

  lemma {:induction false} NothingToDetect(prefix: seq<bool>, first: nat -> bool, e: nat, t: nat, limit: nat)
    requires Waiting(prefix, e) && e <= t
    ensures Detect(prefix, first, t, limit) == None
    decreases limit + 1 - t
  {
    if t <= limit {
      assert t - 1 < |prefix| ==> Level(prefix, t - 1);
      assert t < |prefix| ==> Level(prefix, t);
      NothingToDetect(prefix, first, e, t + 1, limit);
    }
  }

  /** From any edge at which the receiver is waiting, it stores the coming values in order: never
      anything else, and all it was asked for unless the timeout strikes before the signal ends. */
  lemma {:induction false} CaptureAfter(prefix: seq<bool>, e: nat, gaps: seq<nat>, values: seq<seq<bool>>,
                                        first: nat -> bool, baud: nat, width: nat, limit: nat, n: nat)
    requires baud >= 3 && |gaps| == |values| && AllOfWidth(values, width) && Waiting(prefix, e)
    ensures var wave := prefix + Signal(gaps, values, baud);
            var got := Capture(wave, first, e, baud, width, limit, n);
            && got <= values && |got| <= n
            && (limit >= |wave| ==> |got| == if n <= |values| then n else |values|)
    decreases |values|
  {
    hide Frame, Level, Bits, SampleTime, Sample;
    if n == 0 {
    } else if values == [] {
      assert prefix + [] == prefix;
      NothingToDetect(prefix, first, e, e, limit);
    } else {
      var before := prefix + Repeat(true, gaps[0]);
      var sent := before + Frame(values[0], baud);
      var rest := Signal(gaps[1..], values[1..], baud);
      var wave := sent + rest;
      assert prefix + Signal(gaps, values, baud) == wave;
      WaitingThroughGap(prefix, e, gaps[0]);
      ReceiveFrame(before, values[0], rest, first, e, baud, limit);
      var r := Receive(wave, first, e, baud, width, limit);
      if r.Some? {
        CaptureAfter(sent, r.value.1, gaps[1..], values[1..], first, baud, width, limit, n - 1);
        assert values == [values[0]] + values[1..];
      }
    }
  }

  /** A signal of any values with any idle times, read whoever runs first at each edge, gives the values back. */
  ghost predicate RoundTrip(gaps: seq<nat>, values: seq<seq<bool>>, first: nat -> bool, baud: nat, width: nat,
                            limit: nat)
    requires |gaps| == |values|
  {
    Capture(Signal(gaps, values, baud), first, 0, baud, width, limit, |values|) == values
  }

  ghost predicate AlwaysRoundTrips(baud: nat, width: nat) {
    forall gaps, values, first, limit: nat ::
      |gaps| == |values| && AllOfWidth(values, width) && limit >= |Signal(gaps, values, baud)| ==>
        RoundTrip(gaps, values, first, baud, width, limit)
  }

  lemma RoundTripHolds(gaps: seq<nat>, values: seq<seq<bool>>, first: nat -> bool, baud: nat, width: nat, limit: nat)
    requires baud >= 3 && |gaps| == |values| && AllOfWidth(values, width) && limit >= |Signal(gaps, values, baud)|
    ensures RoundTrip(gaps, values, first, baud, width, limit)
  {
    var signal := Signal(gaps, values, baud);
    CaptureAfter([], 0, gaps, values, first, baud, width, limit, |values|);
    assert [] + signal == signal;
  }

  lemma OneFrame(value: seq<bool>, baud: nat)
    ensures Signal([0], [value], baud) == [] + Frame(value, baud) + []
  {
    var gaps: seq<nat>, values := [0], [value];
    assert |values[1..]| == 0;
    assert Signal(gaps[1..], values[1..], baud) == [];
    assert Signal(gaps, values, baud)
        == Repeat(true, gaps[0]) + Frame(values[0], baud) + Signal(gaps[1..], values[1..], baud);
  }

  /** With one or two clocks per bit and the receiver first at the start edge, the last sample
      is taken from the stop bit: a byte of zeros comes back with its last bit set. */
  lemma TooFastFails(baud: nat, width: nat)
    requires 1 <= baud <= 2 && width >= 1
    ensures var value := Repeat(false, width);
            var limit := 4 * (width + 2) * baud;
            !RoundTrip([0], [value], (t: nat) => t == 0, baud, width, limit) && |Signal([0], [value], baud)| <= limit
  {
    hide Signal, Repeat;
    var value, first := Repeat(false, width), (t: nat) => t == 0;
    var limit := 4 * (width + 2) * baud;
    var wave := Signal([0], [value], baud);
    ZerosOnLine(baud, width);
    assert !Sample(wave, first, 1) && Sample(wave, first, 0);
    assert Detect(wave, first, 0, limit) == Detect(wave, first, 1, limit) == Some(1);
    var t := SampleTime(1, baud, width - 1);
    assert t == (width + 1) * baud;
    var bits := Bits(wave, first, 1, baud, width);
    assert bits[width - 1] == Sample(wave, first, t);
    assert value[width - 1] != bits[width - 1];
    assert Capture(wave, first, 0, baud, width, limit, 1) == [bits];
  }

  /** The line while a byte of zeros is sent at one or two clocks per bit. */
  lemma ZerosOnLine(baud: nat, width: nat)
    requires 1 <= baud <= 2 && width >= 1
    ensures var wave := Signal([0], [Repeat(false, width)], baud);
            && |wave| == (width + 2) * baud
            && !Level(wave, 0) && !Level(wave, 1) && Level(wave, (width + 1) * baud)
    ensures |Repeat(false, width)| == width && !Repeat(false, width)[width - 1]
  {
    var value := Repeat(false, width);
    OneFrame(value, baud);
    CellsLength(FrameLevels(value), baud);
    FrameOnLine([], value, [], baud, 0, 0);
    FrameOnLine([], value, [], baud, if baud == 1 then 1 else 0, 1);
    FrameOnLine([], value, [], baud, width + 1, (width + 1) * baud);
  }

  /** The bench works for every signal and every order of the two processes exactly from three
      clocks per bit on. */
  lemma RoundTripsIff(baud: nat, width: nat)
    requires baud >= 1 && width >= 1
    ensures AlwaysRoundTrips(baud, width) <==> baud >= 3
  {
    if baud >= 3 {
      forall gaps, values, first, limit: nat |
        |gaps| == |values| && AllOfWidth(values, width) && limit >= |Signal(gaps, values, baud)|
        ensures RoundTrip(gaps, values, first, baud, width, limit)
      {
        RoundTripHolds(gaps, values, first, baud, width, limit);
      }
    } else {
      TooFastFails(baud, width);
      assert |Repeat(false, width)| == width;
      assert AllOfWidth([Repeat(false, width)], width);
    }
  }

  lemma {:induction false} DelayedSignal(latency: nat, values: seq<seq<bool>>, baud: nat)
    requires values != []
    ensures Repeat(true, latency) + Signal(seq(|values|, _ => 0), values, baud)
              == Signal(LatencyFirst(latency, |values|), values, baud)
  {
    var zeros, gaps := seq(|values|, _ => 0), LatencyFirst(latency, |values|);
    assert zeros[1..] == gaps[1..];
    assert Signal(zeros, values, baud) == Frame(values[0], baud) + Signal(zeros[1..], values[1..], baud);
  }

  function LatencyFirst(latency: nat, n: nat): seq<nat> {
    seq(n, i => if i == 0 then latency else 0)
  }

  /** The fork and join of the bench around a device that passes its input on after `latency`
      clocks: the bytes that were sent are captured, whichever process runs first at each edge. */
  method LoopBack(stimulus: seq<seq<bool>>, baud: nat, width: nat, latency: nat, first: nat -> bool, limit: nat)
    returns (captured: seq<seq<bool>>)
    requires baud >= 3 && AllOfWidth(stimulus, width)
    requires limit >= latency + |Signal(seq(|stimulus|, _ => 0), stimulus, baud)|
    ensures captured == stimulus
  {
    hide Signal;
    var sender := new Sender(baud);
    sender.SendAll(stimulus);
    var dataOut := Repeat(true, latency) + sender.wave;
    captured := CaptureAll(dataOut, first, baud, width, limit, |stimulus|);
    if stimulus != [] {
      DelayedSignal(latency, stimulus, baud);
      assert dataOut == Signal(LatencyFirst(latency, |stimulus|), stimulus, baud);
      RoundTripHolds(LatencyFirst(latency, |stimulus|), stimulus, first, baud, width, limit);
    }
  }
}
