/**
 * Every frame sent by a transmitter that is up to an eighth too slow is received exactly, and how long a frame the
 * receiver can take.
 */
module ClockTolerance {
  import opened Bits
  import opened Manchester
  import opened Driver
  import opened Receiver

  /** Each half bit lasts four or five samples, and mid-bit transitions are at most nine samples apart. */
  ghost predicate SlowTiming(data: seq<bool>, dur: seq<nat>) {
    && |dur| == 2 * |data| + 2
    && (forall j | 0 <= j < |dur| :: 4 <= dur[j] <= 5)
    && (forall k | 0 <= k < |data| :: MidSpacing(dur, k) <= 9)
  }

  function MidSpacing(dur: seq<nat>, k: nat): nat
    requires 2 * k + 2 < |dur|
  {
    dur[2 * k + 1] + dur[2 * k + 2]
  }

  function BitsSent(data: seq<bool>): (bits: seq<bool>)
    ensures |bits| == |data| + 1 && bits[0]
  {
    [true] + data
  }

  function Signal(data: seq<bool>, dur: seq<nat>): (w: seq<bool>)
    requires |dur| == 2 * |data| + 2
    ensures |w| == Start(dur, |dur|)
  {
    Wave(HalfBits(BitsSent(data)), dur)
  }

  /** Samples up to and including the last low one of the frame: a final one ends with a high half bit. */
  function LastLow(data: seq<bool>, dur: seq<nat>): (r: nat)
    requires |dur| == 2 * |data| + 2
  {
    Start(dur, if BitsSent(data)[|data|] then 2 * |data| + 1 else 2 * |data| + 2)
  }

  lemma {:induction false} StartSteps(dur: seq<nat>, j: nat, k: nat)
    requires j <= k <= |dur| && forall i | 0 <= i < |dur| :: 4 <= dur[i] <= 5
    ensures 4 * (k - j) <= Start(dur, k) - Start(dur, j) <= 5 * (k - j)
    decreases k - j
  {
    if j < k { StartSteps(dur, j, k - 1); }
  }

  lemma SignalAt(data: seq<bool>, dur: seq<nat>, j: nat, i: nat)
    requires SlowTiming(data, dur) && j < |dur| && Start(dur, j) <= i < Start(dur, j + 1)
    ensures i < |Signal(data, dur)| && Signal(data, dur)[i] == !HalfBits(BitsSent(data))[j]
  {
    WaveAt(HalfBits(BitsSent(data)), dur, j, i);
  }

  /** Which half bit sample `i - 1` belongs to. */
  lemma {:induction false} Locate(dur: seq<nat>, i: nat, n: nat) returns (j: nat)
    requires n <= |dur| && 0 < i <= Start(dur, n)
    ensures j < n && Start(dur, j) < i <= Start(dur, j + 1)
    decreases n
  {
    if Start(dur, n - 1) < i {
      j := n - 1;
    } else {
      j := Locate(dur, i, n - 1);
    }
  }

  /** The bus is never high for twelve samples inside a frame. */
  lemma NeverHighForLong(data: seq<bool>, dur: seq<nat>, i: nat)
    requires SlowTiming(data, dur) && 0 < i <= |Signal(data, dur)|
    ensures HighRun(Signal(data, dur)[..i]) < 12
  {
    hide Wave, HighRun, HalfBits, Start;
    var hb := HalfBits(BitsSent(data));
    var w := Signal(data, dur);
    var j := Locate(dur, i, |dur|);
    StartSteps(dur, j, j + 1);
    HalfBitsAt(BitsSent(data), 0);
    if hb[j] {
      SignalAt(data, dur, j, i - 1);
      HighRunBound(w, i, i - 1);
    } else if hb[j - 1] {
      StartSteps(dur, j - 1, j);
      SignalAt(data, dur, j - 1, Start(dur, j) - 1);
      HighRunBound(w, i, Start(dur, j) - 1);
    } else {
      LevelChanges(BitsSent(data), j - 2, true);
      StartSteps(dur, j - 1, j);
      StartSteps(dur, j - 2, j - 1);
      SignalAt(data, dur, j - 2, Start(dur, j - 1) - 1);
      HighRunBound(w, i, Start(dur, j - 1) - 1);
    }
  }

  lemma CoreIsBusy(data: seq<bool>, dur: seq<nat>)
    requires SlowTiming(data, dur)
    ensures LastLow(data, dur) <= |Signal(data, dur)| <= LastLow(data, dur) + 5
    ensures Busy(Signal(data, dur)[..LastLow(data, dur)])
    ensures forall i | LastLow(data, dur) <= i < |Signal(data, dur)| :: Signal(data, dur)[i]
  {
    hide Wave, HighRun, HalfBits, Start;
    var w := Signal(data, dur);
    var r := LastLow(data, dur);
    var n := |data|;
    StartSteps(dur, 0, 1);
    StartSteps(dur, 0, 2 * n + 1);
    StartSteps(dur, 2 * n + 1, 2 * n + 2);
    assert Start(dur, 0) == 0 by { StartZero(dur); }
    HalfBitsAt(BitsSent(data), 0);
    HalfBitsAt(BitsSent(data), n);
    SignalAt(data, dur, 0, 0);
    StartSteps(dur, 2 * n, 2 * n + 1);
    if BitsSent(data)[n] {
      SignalAt(data, dur, 2 * n, r - 1);
      forall i | r <= i < |w| ensures w[i] { SignalAt(data, dur, 2 * n + 1, i); }
    } else {
      SignalAt(data, dur, 2 * n + 1, r - 1);
    }
    var core := w[..r];
    forall i | 0 < i <= |core| ensures HighRun(core[..i]) < STOP_SAMPLES {
      assert core[..i] == w[..i];
      NeverHighForLong(data, dur, i);
    }
  }

  lemma StartZero(dur: seq<nat>)
    ensures Start(dur, 0) == 0
  {
  }

  function Mids(data: seq<bool>, dur: seq<nat>): (mid: seq<nat>)
    requires |dur| == 2 * |data| + 2
    ensures |mid| == |data| + 1
  {
    seq(|data| + 1, k requires 0 <= k <= |data| => Start(dur, 2 * k + 1))
  }

  /** `e` continues the signal with a high bus. */
  ghost predicate Sampled(e: seq<bool>, data: seq<bool>, dur: seq<nat>)
    requires |dur| == 2 * |data| + 2
  {
    && LastLow(data, dur) + 17 <= |e|
    && forall i | 0 <= i < LastLow(data, dur) + 17 ::
         e[i] == (i < |Signal(data, dur)| ==> Signal(data, dur)[i])
  }

  lemma SampledAt(e: seq<bool>, data: seq<bool>, dur: seq<nat>, j: nat, i: nat)
    requires SlowTiming(data, dur) && Sampled(e, data, dur) && j < |dur| && Start(dur, j) <= i < Start(dur, j + 1)
    ensures i < |e| && e[i] == !HalfBits(BitsSent(data))[j]
  {
    hide Wave, Start, HalfBits, LastLow;
    CoreIsBusy(data, dur);
    SignalAt(data, dur, j, i);
  }

  lemma SampledBit(e: seq<bool>, data: seq<bool>, dur: seq<nat>, k: nat)
    requires SlowTiming(data, dur) && Sampled(e, data, dur) && k <= |data|
    ensures BitAround(e, Start(dur, 2 * k + 1), BitsSent(data)[k])
  {
    hide Wave, Start, HalfBits, Sampled;
    var m := Start(dur, 2 * k + 1);
    StartSteps(dur, 2 * k, 2 * k + 1);
    StartSteps(dur, 2 * k + 1, 2 * k + 2);
    HalfBitsAt(BitsSent(data), k);
    SampledAt(e, data, dur, 2 * k, m - 1);
    SampledAt(e, data, dur, 2 * k, m - 2);
    SampledAt(e, data, dur, 2 * k, m - 3);
    SampledAt(e, data, dur, 2 * k, m - 4);
    SampledAt(e, data, dur, 2 * k + 1, m);
    SampledAt(e, data, dur, 2 * k + 1, m + 1);
    SampledAt(e, data, dur, 2 * k + 1, m + 2);
    SampledAt(e, data, dur, 2 * k + 1, m + 3);
  }

  lemma SampledCarries(e: seq<bool>, data: seq<bool>, dur: seq<nat>)
    requires SlowTiming(data, dur) && Sampled(e, data, dur)
    ensures Carries(e, BitsSent(data), Mids(data, dur))
  {
    hide Wave, HalfBits, BitAround;
    var mid := Mids(data, dur);
    forall k | 0 <= k < |mid| ensures BitAround(e, mid[k], BitsSent(data)[k]) {
      SampledBit(e, data, dur, k);
    }
    MidsSpaced(data, dur);
    CoreIsBusy(data, dur);
    StartSteps(dur, 2 * |data| + 1, 2 * |data| + 2);
  }

  /** A driver holding the samples of such a frame decodes it exactly, if the sample count fits its byte. */
  lemma HeldFrameDecodes(t: State, data: seq<bool>, dur: seq<nat>)
    requires SlowTiming(data, dur) && LastLow(data, dur) + STOP_SAMPLES < 248
    requires LastLow(data, dur) <= |Signal(data, dur)| && Holds(t, Signal(data, dur)[..LastLow(data, dur)])
    ensures ReceivedFrame(t) == Decoded(BitsSent(data), false)
  {
    hide Wave, HalfBits, DecodeFrom, Unpack, Start;
    var e := Unpack(t.rxdata);
    var r := LastLow(data, dur);
    CoreIsBusy(data, dur);
    assert Sampled(e, data, dur);
    SampledCarries(e, data, dur);
    assert Mids(data, dur)[|data|] == Start(dur, 2 * |data| + 1);
    StartSteps(dur, 2 * |data| + 1, 2 * |data| + 2);
    DecodesExactly(e, BitsSent(data), Mids(data, dur), 8 * t.rxpos);
  }

  /** An idle driver that samples a frame and then a quiet bus is left holding the frame. */
  lemma SignalIsHeld(s: State, data: seq<bool>, dur: seq<nat>, quiet: nat)
    requires Inv(s) && s.busstate == Idle && SlowTiming(data, dur)
    requires LastLow(data, dur) + STOP_SAMPLES <= MAX_SAMPLES && quiet >= STOP_SAMPLES
    ensures LastLow(data, dur) <= |Signal(data, dur)|
    ensures Holds(Run(s, Signal(data, dur) + seq(quiet, _ => true)), Signal(data, dur)[..LastLow(data, dur)])
  {
    hide Wave, HalfBits, Run, Inv;
    CoreIsBusy(data, dur);
    var w := Signal(data, dur);
    var r := LastLow(data, dur);
    SamplerHolds(s, w[..r], quiet + |w| - r);
    assert w + seq(quiet, _ => true) == w[..r] + seq(quiet + |w| - r, _ => true);
  }

  /**
   * Clock tolerance: up to 24 data bits sent 0 to 12.5 % slow come out of the receiver as they went in.
   * Shorter frames than three bits are recognised by the decoder but reported as undecodable.
   */
  lemma SlowFrameReceived(s: State, data: seq<bool>, dur: seq<nat>, quiet: nat)
    requires Inv(s) && s.busstate == Idle && 1 <= |data| <= 24 && SlowTiming(data, dur) && quiet >= STOP_SAMPLES
    ensures var t := Run(s, Signal(data, dur) + seq(quiet, _ => true));
            && t.busstate == Idle && t.rxstate == Completed
            && ReceivedFrame(t) == Decoded(BitsSent(data), false)
            && RxResult(t) == if |data| < 3 then 2 else |data|
  {
    hide Wave, HalfBits, Run, Decode;
    MidsBound(data, dur);
    SignalIsHeld(s, data, dur, quiet);
    HeldFrameDecodes(Run(s, Signal(data, dur) + seq(quiet, _ => true)), data, dur);
  }

  /** A wrapped sample count leaves room for a handful of bits only. */
  lemma ShortCount(t: State)
    requires Inv(t) && t.rxstate == Completed && SampleCount(t) <= 64
    ensures RxResult(t) < 25
  {
  }

  lemma DecodedIsReported(t: State, data: seq<bool>)
    requires Inv(t) && t.rxstate == Completed && ReceivedFrame(t) == Decoded(BitsSent(data), false) && |data| >= 3
    ensures RxResult(t) == |data|
  {
    hide Decode;
  }

  /** A frame that is too long leaves a wrapped sample count. */
  lemma LongFrameWraps(s: State, data: seq<bool>, dur: seq<nat>, quiet: nat)
    requires Inv(s) && s.busstate == Idle && SlowTiming(data, dur) && quiet >= STOP_SAMPLES
    requires LastLow(data, dur) + STOP_SAMPLES >= 248
    ensures var t := Run(s, Signal(data, dur) + seq(quiet, _ => true));
            t.busstate == Idle && t.rxstate == Completed && RxResult(t) < 25
  {
    hide Wave, HalfBits, Run, Decode, Start, Inv, RxResult, LastLow;
    var w, r := Signal(data, dur), LastLow(data, dur);
    CoreIsBusy(data, dur);
    FrameCompletes(s, w[..r], quiet + |w| - r);
    assert w + seq(quiet, _ => true) == w[..r] + seq(quiet + |w| - r, _ => true);
    ShortCount(Run(s, w + seq(quiet, _ => true)));
  }

  /** What `rx` will make of a completed frame depends on the reception alone. */
  lemma SameResult(s: State, t: State)
    requires Inv(s) && Inv(t) && SameReception(s, t)
    ensures ReceivedFrame(t) == ReceivedFrame(s) && RxResult(t) == RxResult(s)
  {
    hide Decode, Unpack;
  }

  /** The same whatever is called between the first sample of the frame and the one that completes it. */
  lemma SlowFrameAmidCalls(trace: seq<State>, events: seq<Event>, data: seq<bool>, dur: seq<nat>)
    requires Steps(trace, events) && Inv(trace[0]) && trace[0].busstate == Idle
    requires 1 <= |data| <= 24 && SlowTiming(data, dur)
    requires events != [] && events[0].Ticked? && events[|events| - 1].Ticked?
    requires LastLow(data, dur) <= |Signal(data, dur)|
    requires Levels(events) == Signal(data, dur)[..LastLow(data, dur)] + seq(STOP_SAMPLES, _ => true)
    ensures var t := trace[|events|];
            && Inv(t) && t.busstate == Idle && t.rxstate == Completed
            && ReceivedFrame(t) == Decoded(BitsSent(data), false)
            && RxResult(t) == if |data| < 3 then 2 else |data|
  {
    assert |trace| == |events| + 1;
    hide Wave, HalfBits, Run, Decode, Start, Inv, LastLow, Busy, Steps, Levels;
    var r := LastLow(data, dur);
    var core := Signal(data, dur)[..r];
    CoreIsBusy(data, dur);
    MidsBound(data, dur);
    FrameAmidCalls(trace, events, core);
    SamplerHolds(trace[0], core, STOP_SAMPLES);
    var u := Run(trace[0], core + seq(STOP_SAMPLES, _ => true));
    HeldFrameDecodes(u, data, dur);
    SameResult(u, trace[|events|]);
  }

  /**
   * How long a slow frame may be: the receiver counts samples in eight bits, so a frame of at least three bits is
   * reported with its length, and then with its bits, exactly if its last low sample and the stop condition come before
   * that count wraps.
   */
  lemma SlowFrameLimit(s: State, data: seq<bool>, dur: seq<nat>, quiet: nat)
    requires Inv(s) && s.busstate == Idle && |data| >= 3 && SlowTiming(data, dur) && quiet >= STOP_SAMPLES
    ensures var t := Run(s, Signal(data, dur) + seq(quiet, _ => true));
            && t.busstate == Idle && t.rxstate == Completed
            && (RxResult(t) == |data| <==> LastLow(data, dur) + STOP_SAMPLES < 248)
            && (RxResult(t) == |data| ==> ReceivedFrame(t) == Decoded(BitsSent(data), false))
  {
    hide Wave, HalfBits, Run, Decode, Start, Inv, RxResult, LastLow;
    if LastLow(data, dur) + STOP_SAMPLES < 248 {
      SignalIsHeld(s, data, dur, quiet);
      HeldFrameDecodes(Run(s, Signal(data, dur) + seq(quiet, _ => true)), data, dur);
      DecodedIsReported(Run(s, Signal(data, dur) + seq(quiet, _ => true)), data);
    } else {
      MidsBound(data, dur);
      LongFrameWraps(s, data, dur, quiet);
    }
  }

  /** The last mid-bit transition comes at most nine samples a bit after the start bit's. */
  lemma MidsBound(data: seq<bool>, dur: seq<nat>)
    requires SlowTiming(data, dur)
    ensures LastLow(data, dur) <= 9 * |data| + 10
  {
    MidBound(data, dur, |data|);
    StartSteps(dur, 2 * |data| + 1, 2 * |data| + 2);
  }

  lemma {:induction false} MidBound(data: seq<bool>, dur: seq<nat>, k: nat)
    requires SlowTiming(data, dur) && k <= |data|
    ensures Start(dur, 2 * k + 1) <= 9 * k + 5
    decreases k
  {
    if k == 0 {
      StartSteps(dur, 0, 1);
      StartZero(dur);
    } else {
      MidBound(data, dur, k - 1);
      assert MidSpacing(dur, k - 1) <= 9;
      assert Start(dur, 2 * k + 1) == Start(dur, 2 * k) + dur[2 * k] == Start(dur, 2 * k - 1) + dur[2 * k - 1] + dur[2 * k];
    }
  }

  // ------------------------------------------------------------------ frames that are cut off

  /** The first `c` samples of a frame, and then a low bus. */
  function Cut(data: seq<bool>, dur: seq<nat>, c: nat, low: nat): (w: seq<bool>)
    requires |dur| == 2 * |data| + 2 && c <= |Signal(data, dur)|
    ensures |w| == c + low
  {
    Signal(data, dur)[..c] + seq(low, _ => false)
  }

  lemma CutIsBusy(data: seq<bool>, dur: seq<nat>, c: nat, low: nat)
    requires SlowTiming(data, dur) && c <= |Signal(data, dur)| && low > 0
    ensures Busy(Cut(data, dur, c, low))
  {
    hide Wave, HighRun, HalfBits, Start;
    var w, core := Signal(data, dur), Cut(data, dur, c, low);
    if c > 0 { StartsLow(data, dur); }
    forall i | 0 < i <= |core| ensures HighRun(core[..i]) < STOP_SAMPLES {
      if i <= c {
        assert core[..i] == w[..i];
        NeverHighForLong(data, dur, i);
      } else {
        HighRunBound(core, i, i - 1);
      }
    }
  }

  lemma StartsLow(data: seq<bool>, dur: seq<nat>)
    requires SlowTiming(data, dur)
    ensures |Signal(data, dur)| > 0 && !Signal(data, dur)[0]
  {
    hide Wave, HalfBits, Start;
    StartZero(dur);
    StartSteps(dur, 0, 1);
    HalfBitsAt(BitsSent(data), 0);
    SignalAt(data, dur, 0, 0);
  }

  lemma CutBitUpTo(e: seq<bool>, data: seq<bool>, dur: seq<nat>, c: nat, k: nat)
    requires SlowTiming(data, dur) && c <= |Signal(data, dur)| && c <= |e| && k <= |data|
    requires forall i | 0 <= i < c :: e[i] == Signal(data, dur)[i]
    ensures BitUpTo(e, Start(dur, 2 * k + 1), BitsSent(data)[k], c)
  {
    hide Wave, Start, HalfBits;
    var m := Start(dur, 2 * k + 1);
    StartSteps(dur, 2 * k, 2 * k + 1);
    StartSteps(dur, 2 * k + 1, 2 * k + 2);
    HalfBitsAt(BitsSent(data), k);
    forall i: nat | m - 4 <= i < m + 4 && i < c && i < |e|
      ensures e[i] == if i < m then !BitsSent(data)[k] else BitsSent(data)[k]
    {
      SignalAt(data, dur, if i < m then 2 * k else 2 * k + 1, i);
    }
  }

  lemma SampledIsCut(e: seq<bool>, data: seq<bool>, dur: seq<nat>, c: nat)
    requires SlowTiming(data, dur) && c <= |Signal(data, dur)| && c + JAMMED <= |e|
    requires forall i | 0 <= i < c :: e[i] == Signal(data, dur)[i]
    requires forall i | c <= i < c + JAMMED :: !e[i]
    ensures CutAt(e, BitsSent(data), Mids(data, dur), c)
  {
    hide Wave, HalfBits, BitUpTo;
    var mid := Mids(data, dur);
    forall k | 0 <= k < |mid| ensures BitUpTo(e, mid[k], BitsSent(data)[k], c) {
      CutBitUpTo(e, data, dur, c, k);
    }
    MidsSpaced(data, dur);
  }

  lemma MidsSpaced(data: seq<bool>, dur: seq<nat>)
    requires SlowTiming(data, dur)
    ensures var mid := Mids(data, dur);
            Spaced(mid) && 4 <= mid[0] <= 5 && |Signal(data, dur)| <= mid[|data|] + 5
  {
    hide Wave, HalfBits;
    var mid := Mids(data, dur);
    forall k | 0 < k < |mid| ensures mid[k - 1] + 8 <= mid[k] <= mid[k - 1] + 9 {
      assert MidSpacing(dur, k - 1) <= 9;
      assert mid[k] == Start(dur, 2 * k) + dur[2 * k] == Start(dur, 2 * k - 1) + dur[2 * k - 1] + dur[2 * k];
    }
    assert mid[0] == dur[0] by { StartZero(dur); }
    StartSteps(dur, 2 * |data| + 1, 2 * |data| + 2);
  }

  lemma HeldIsCut(t: State, data: seq<bool>, dur: seq<nat>, c: nat, low: nat)
    requires SlowTiming(data, dur) && c <= |Signal(data, dur)| && low >= JAMMED
    requires Holds(t, Cut(data, dur, c, low))
    ensures Inv(t) && |t.rxdata| == RX_BUF_SIZE && t.rxstate == Completed
    ensures SampleCount(t) == ((c + low + STOP_SAMPLES) / 8 + 1) * 8 % 256
    ensures CutAt(Unpack(t.rxdata), BitsSent(data), Mids(data, dur), c)
  {
    hide Wave, HalfBits, Unpack, Signal, BitUpTo, CutAt;
    assert c + JAMMED <= 8 * t.rxpos;
    SampledIsCut(Unpack(t.rxdata), data, dur, c);
  }

  lemma CutIsNothing(t: State, data: seq<bool>, dur: seq<nat>, c: nat, low: nat)
    requires SlowTiming(data, dur) && c <= |Signal(data, dur)| && low >= JAMMED
    requires Holds(t, Cut(data, dur, c, low)) && c + low + STOP_SAMPLES < 280
    ensures RxResult(t) == 2
  {
    hide Wave, HalfBits, DecodeFrom, Unpack, Signal, Holds, Mids, CutAt, Inv, Start;
    HeldIsCut(t, data, dur, c, low);
    CutDecodes(Unpack(t.rxdata), BitsSent(data), Mids(data, dur), c, SampleCount(t), 0, 1);
  }

  lemma WrappedIsTaken(t: State, data: seq<bool>, dur: seq<nat>, c: nat, low: nat)
    requires SlowTiming(data, dur) && 73 <= c <= |Signal(data, dur)| && low >= JAMMED
    requires Holds(t, Cut(data, dur, c, low)) && 280 <= c + low + STOP_SAMPLES <= MAX_SAMPLES
    ensures RxResult(t) >= 3
  {
    hide Wave, HalfBits, DecodeFrom, Unpack, Signal, Holds, Mids, CutAt, Inv, Start;
    HeldIsCut(t, data, dur, c, low);
    UncutDecodes(Unpack(t.rxdata), BitsSent(data), Mids(data, dur), c, SampleCount(t), 0, 1);
  }

  /**
   * A frame that is cut off: wherever in the frame the bus goes low for as long as a driver jams it, nothing is received,
   * as long as the sample count wraps by less than 32. From then on some leading bits are taken for a frame.
   */
  lemma CutFrameIsRefused(s: State, data: seq<bool>, dur: seq<nat>, c: nat, low: nat, quiet: nat)
    requires Inv(s) && s.busstate == Idle && SlowTiming(data, dur) && c <= |Signal(data, dur)|
    requires low >= JAMMED && quiet >= STOP_SAMPLES && c + low + STOP_SAMPLES <= MAX_SAMPLES
    ensures var t := Run(s, Cut(data, dur, c, low) + seq(quiet, _ => true));
            && t.busstate == Idle && t.rxstate == Completed
            && (c + low + STOP_SAMPLES < 280 ==> RxResult(t) == 2)
            && (c + low + STOP_SAMPLES >= 280 && c >= 73 ==> RxResult(t) >= 3)
  {
    hide Wave, HalfBits, Run, Inv, RxResult, Signal, Cut, Busy;
    CutIsBusy(data, dur, c, low);
    SamplerHolds(s, Cut(data, dur, c, low), quiet);
    var t := Run(s, Cut(data, dur, c, low) + seq(quiet, _ => true));
    if c + low + STOP_SAMPLES < 280 {
      CutIsNothing(t, data, dur, c, low);
    } else if c >= 73 {
      WrappedIsTaken(t, data, dur, c, low);
    }
  }
}
