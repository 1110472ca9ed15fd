/**
 * From bus levels to a received frame: what the sampler stores, and that every frame whose half bits are four or
 * five samples long is decoded exactly.
 */
module Receiver {
  import opened Bits
  import opened Driver

  /** How many samples the bus has been high, counted back from the end. */
  function HighRun(w: seq<bool>): (n: nat)
    ensures n <= |w|
    decreases |w|
  {
    if w == [] || !w[|w| - 1] then 0 else 1 + HighRun(w[..|w| - 1])
  }

  lemma {:induction false} HighRunBound(w: seq<bool>, i: nat, low: nat)
    requires low < i <= |w| && !w[low]
    ensures HighRun(w[..i]) < i - low
    decreases i
  {
    if w[..i][i - 1] {
      assert w[..i][..i - 1] == w[..i - 1];
      HighRunBound(w, i - 1, low);
    }
  }

  // ------------------------------------------------------------------ the sampler

  const MAX_SAMPLES: nat := 304

  /** `s` is receiving and has stored exactly the samples `w`. */
  ghost predicate Collected(s: State, w: seq<bool>) {
    && Inv(s) && s.busstate == Rx && 0 < |w| <= MAX_SAMPLES
    && s.rxpos == |w| / 8 && s.rxbitcnt == |w| % 8 && s.rxidle == HighRun(w)
    && StoredPrefix(s.rxdata, w, |w| / 8)
    && PartialByte(s.rxbyte, w)
  }

  /** The low end of `byte` holds the samples of `w` that do not fill a byte yet. */
  ghost predicate PartialByte(byte: bv8, w: seq<bool>) {
    forall b | 8 - |w| % 8 <= b < 8 :: Bit(byte, b) == w[|w| - 8 + b]
  }

  /** The first `n` bytes of `data` hold the first `8 * n` samples of `w`. */
  ghost predicate StoredPrefix(data: seq<bv8>, w: seq<bool>, n: nat)
    requires 8 * n <= |w| && n <= |data|
  {
    forall j, b | 0 <= j < n && 0 <= b < 8 :: Bit(data[j], b) == w[8 * j + b]
  }

  lemma CollectFirst(s: State)
    requires Inv(s) && s.busstate == Idle
    ensures Collected(Tick(s, false), [false])
  {
    ShiftInBit(s.rxbyte, false, 7);
  }

  lemma StoredPrefixKept(data: seq<bv8>, w: seq<bool>, high: bool, n: nat)
    requires 8 * n <= |w| && n <= |data| && StoredPrefix(data, w, n)
    ensures StoredPrefix(data, w + [high], n)
  {
  }

  lemma StoredPrefixGrows(data: seq<bv8>, v: seq<bool>, n: nat, byte: bv8)
    requires 8 * n + 8 <= |v| && n < |data| && StoredPrefix(data, v, n)
    requires forall b | 0 <= b < 8 :: Bit(byte, b) == v[8 * n + b]
    ensures StoredPrefix(data[n := byte], v, n + 1)
  {
  }

  lemma StoreSampleIs(s: State, high: bool)
    requires |s.rxdata| == RX_BUF_SIZE && s.rxpos < RX_BUF_SIZE - 1 && s.rxbitcnt < 8
    ensures StoreSample(s, high) ==
            if s.rxbitcnt == 7
            then s.(rxbyte := ShiftIn(s.rxbyte, high), rxdata := s.rxdata[s.rxpos := ShiftIn(s.rxbyte, high)],
                    rxpos := s.rxpos + 1, rxbitcnt := 0)
            else s.(rxbyte := ShiftIn(s.rxbyte, high), rxbitcnt := s.rxbitcnt + 1)
  {
  }

  lemma PartialByteShifts(byte: bv8, w: seq<bool>, high: bool)
    requires PartialByte(byte, w)
    ensures forall b | 7 - |w| % 8 <= b < 8 :: Bit(ShiftIn(byte, high), b) == (w + [high])[|w| - 7 + b]
    ensures PartialByte(ShiftIn(byte, high), w + [high])
  {
    hide Bit, ShiftIn;
    forall b | 7 - |w| % 8 <= b < 8 ensures Bit(ShiftIn(byte, high), b) == (w + [high])[|w| - 7 + b] {
      ShiftInBit(byte, high, b);
    }
  }

  lemma NextPlace(n: nat)
    ensures (n + 1) / 8 == if n % 8 == 7 then n / 8 + 1 else n / 8
    ensures (n + 1) % 8 == if n % 8 == 7 then 0 else n % 8 + 1
  {
  }

  /** One more sample goes into the byte being filled, or completes it. */
  lemma PackOne(s: State, w: seq<bool>, high: bool)
    requires Collected(s, w) && |w| < MAX_SAMPLES
    ensures var t := StoreSample(s, high);
            var v := w + [high];
            && t == s.(rxbyte := t.rxbyte, rxdata := t.rxdata, rxpos := |v| / 8, rxbitcnt := |v| % 8)
            && |t.rxdata| == RX_BUF_SIZE
            && StoredPrefix(t.rxdata, v, |v| / 8)
            && PartialByte(t.rxbyte, v)
  {
    hide Bit, StoredPrefix, ShiftIn, StoreSample, PartialByte, HighRun;
    StoreSampleIs(s, high);
    NextPlace(|w|);
    PartialByteShifts(s.rxbyte, w, high);
    StoredPrefixKept(s.rxdata, w, high, |w| / 8);
    if |w| % 8 == 7 {
      StoredPrefixGrows(s.rxdata, w + [high], |w| / 8, ShiftIn(s.rxbyte, high));
    }
  }

  lemma CollectOne(s: State, w: seq<bool>, high: bool)
    requires Collected(s, w) && |w| < MAX_SAMPLES && HighRun(w + [high]) < STOP_SAMPLES
    ensures Collected(Tick(s, high), w + [high])
  {
    hide StoreSample, PartialByte, StoredPrefix;
    assert (w + [high])[..|w|] == w;
    PackOne(s, w, high);
  }

  /** The sixteenth high sample in a row ends the frame. */
  lemma CollectLast(s: State, w: seq<bool>)
    requires Collected(s, w) && |w| < MAX_SAMPLES && HighRun(w) == 15
    ensures var t := Tick(s, true);
            && t.busstate == Idle && t.rxstate == Completed && t.rxpos == (|w| + 1) / 8 + 1
            && |t.rxdata| == RX_BUF_SIZE
            && StoredPrefix(t.rxdata, w + [true], (|w| + 1) / 8)
            && t.rxdata[(|w| + 1) / 8] == 0xFF
  {
    hide StoreSample, PartialByte, Bit;
    PackOne(s, w, true);
  }

  /** After `inputs[..n]` the driver has collected just that, as long as the bus was never high for long. */
  lemma {:induction false} CollectAll(s: State, inputs: seq<bool>, n: nat)
    requires Inv(s) && s.busstate == Idle && 0 < n <= |inputs| && n <= MAX_SAMPLES && !inputs[0]
    requires forall i | 0 < i <= n :: HighRun(inputs[..i]) < STOP_SAMPLES
    ensures Collected(Run(s, inputs[..n]), inputs[..n])
    decreases n
  {
    hide Tick, Collected, Inv, HighRun;
    if n == 1 {
      assert inputs[..1] == [false] && inputs[..1][..0] == [];
      CollectFirst(s);
    } else {
      CollectAll(s, inputs, n - 1);
      assert inputs[..n] == inputs[..n - 1] + [inputs[n - 1]];
      assert inputs[..n][..n - 1] == inputs[..n - 1];
      CollectOne(Run(s, inputs[..n - 1]), inputs[..n - 1], inputs[n - 1]);
    }
  }

  /** How far a driver is that has been receiving for `|w|` samples; the last place of the buffer is never left. */
  ghost predicate Counted(s: State, w: seq<bool>) {
    && Inv(s) && s.busstate == Rx && |w| > 0
    && s.rxpos == (if |w| / 8 < RX_BUF_SIZE then |w| / 8 else RX_BUF_SIZE - 1)
    && s.rxbitcnt == |w| % 8 && s.rxidle == HighRun(w)
  }

  lemma CountStored(s: State, high: bool)
    requires |s.rxdata| == RX_BUF_SIZE && s.rxpos < RX_BUF_SIZE && s.rxbitcnt < 8
    ensures var t := StoreSample(s, high);
            && t.rxbitcnt == (if s.rxbitcnt == 7 then 0 else s.rxbitcnt + 1)
            && t.rxpos == if s.rxbitcnt == 7 && s.rxpos < RX_BUF_SIZE - 1 then s.rxpos + 1 else s.rxpos
  {
    hide ShiftIn;
  }

  lemma CountOne(s: State, w: seq<bool>, high: bool)
    requires Counted(s, w)
    ensures HighRun(w + [high]) == if high then HighRun(w) + 1 else 0
    ensures HighRun(w + [high]) < STOP_SAMPLES ==> Counted(Tick(s, high), w + [high])
    ensures HighRun(w + [high]) == STOP_SAMPLES ==>
              var t := Tick(s, high);
              && t.busstate == Idle && t.rxstate == Completed && t.idlecnt == 0
              && t.rxpos == 1 + if (|w| + 1) / 8 < RX_BUF_SIZE then (|w| + 1) / 8 else RX_BUF_SIZE - 1
  {
    hide StoreSample;
    assert (w + [high])[..|w|] == w;
    NextPlace(|w|);
    CountStored(s, high);
  }

  /** Whatever was sampled before, `inputs[..n]` has been counted, as long as the bus was never high for long. */
  lemma {:induction false} CountAll(s: State, inputs: seq<bool>, n: nat)
    requires Inv(s) && s.busstate == Idle && 0 < n <= |inputs| && !inputs[0]
    requires forall i | 0 < i <= n :: HighRun(inputs[..i]) < STOP_SAMPLES
    ensures Counted(Run(s, inputs[..n]), inputs[..n])
    decreases n
  {
    hide Tick, Counted, Inv, HighRun;
    if n == 1 {
      assert inputs[..1] == [false] && inputs[..1][..0] == [];
      CountFirst(s);
    } else {
      CountAll(s, inputs, n - 1);
      assert inputs[..n] == inputs[..n - 1] + [inputs[n - 1]];
      assert inputs[..n][..n - 1] == inputs[..n - 1];
      CountOne(Run(s, inputs[..n - 1]), inputs[..n - 1], inputs[n - 1]);
    }
  }

  lemma CountFirst(s: State)
    requires Inv(s) && s.busstate == Idle
    ensures Counted(Tick(s, false), [false])
  {
    hide ShiftIn;
  }

  /** A quiet bus leaves an idle driver as it is, apart from the counter of idle samples, which stops at 255. */
  lemma {:induction false} QuietBus(s: State, n: nat)
    requires Inv(s) && s.busstate == Idle
    ensures Run(s, seq(n, _ => true)) == s.(idlecnt := if s.idlecnt + n > 255 then 255 else s.idlecnt + n)
    decreases n
  {
    if n > 0 {
      QuietBus(s, n - 1);
      assert seq(n, _ => true)[..n - 1] == seq(n - 1, _ => true);
    }
  }

  /** `core` ends with its last low sample and never stays high for sixteen samples. */
  ghost predicate Busy(core: seq<bool>) {
    && 0 < |core| && !core[0] && !core[|core| - 1]
    && forall i | 0 < i <= |core| :: HighRun(core[..i]) < STOP_SAMPLES
  }

  lemma {:induction false} HighTail(core: seq<bool>, n: nat)
    requires Busy(core)
    ensures HighRun(core + seq(n, _ => true)) == n
    decreases n
  {
    var v := core + seq(n, _ => true);
    if n == 0 {
      assert v == core;
    } else {
      assert v[..|v| - 1] == core + seq(n - 1, _ => true);
      HighTail(core, n - 1);
    }
  }

  /** What is left in the driver after the samples `core` and at least sixteen high ones. */
  ghost predicate Holds(t: State, core: seq<bool>) {
    && Inv(t) && t.busstate == Idle && t.rxstate == Completed
    && |core| + STOP_SAMPLES <= MAX_SAMPLES && t.rxpos == (|core| + STOP_SAMPLES) / 8 + 1
    && forall i | 0 <= i < 8 * t.rxpos :: Unpack(t.rxdata)[i] == (i < |core| ==> core[i])
  }

  lemma StoredMeansUnpacked(t: State, core: seq<bool>)
    requires Inv(t) && t.busstate == Idle && t.rxstate == Completed
    requires |core| + STOP_SAMPLES <= MAX_SAMPLES && t.rxpos == (|core| + STOP_SAMPLES) / 8 + 1
    requires StoredPrefix(t.rxdata, core + seq(STOP_SAMPLES, _ => true), (|core| + STOP_SAMPLES) / 8)
    requires t.rxdata[(|core| + STOP_SAMPLES) / 8] == 0xFF
    ensures Holds(t, core)
  {
    hide Bit;
    var w := core + seq(STOP_SAMPLES, _ => true);
    forall i | 0 <= i < 8 * t.rxpos ensures Unpack(t.rxdata)[i] == (i < |core| ==> core[i]) {
      UnpackAt(t.rxdata, i);
      if i / 8 < |w| / 8 {
        assert Bit(t.rxdata[i / 8], i % 8) == w[8 * (i / 8) + i % 8];
      } else {
        AllOnes(i % 8);
      }
    }
  }

  /** Up to one sample before the stop condition the bus was never high for that long. */
  lemma MostIsBusy(core: seq<bool>, most: seq<bool>)
    requires Busy(core) && most == core + seq(STOP_SAMPLES - 1, _ => true)
    ensures forall i | 0 < i <= |most| :: HighRun(most[..i]) < STOP_SAMPLES
    ensures HighRun(most) == STOP_SAMPLES - 1 && !most[0] && |core| > 0
  {
    hide HighRun;
    forall i | 0 < i <= |most| ensures HighRun(most[..i]) < STOP_SAMPLES {
      if i <= |core| {
        assert most[..i] == core[..i];
      } else {
        assert most[..i] == core + seq(i - |core|, _ => true);
        HighTail(core, i - |core|);
      }
    }
    HighTail(core, STOP_SAMPLES - 1);
  }

  /** The sixteenth high sample after a frame leaves the driver holding it. */
  lemma StopHolds(s: State, core: seq<bool>)
    requires Inv(s) && s.busstate == Idle && Busy(core) && |core| + STOP_SAMPLES <= MAX_SAMPLES
    ensures Holds(Run(s, core + seq(STOP_SAMPLES, _ => true)), core)
  {
    hide Tick, Inv, HighRun, Holds, Busy, Collected, StoredPrefix;
    var most, full := core + seq(STOP_SAMPLES - 1, _ => true), core + seq(STOP_SAMPLES, _ => true);
    MostIsBusy(core, most);
    CollectAll(s, most, |most|);
    assert most[..|most|] == most;
    var t := Run(s, most);
    CollectLast(t, most);
    assert full == most + [true] && full[..|full| - 1] == most;
    assert Run(s, full) == Tick(t, true);
    StoredMeansUnpacked(Run(s, full), core);
  }

  /** An idle driver fed a frame and a quiet bus ends up idle again, holding the samples of the frame. */
  lemma SamplerHolds(s: State, core: seq<bool>, quiet: nat)
    requires Inv(s) && s.busstate == Idle && Busy(core)
    requires |core| + STOP_SAMPLES <= MAX_SAMPLES && quiet >= STOP_SAMPLES
    ensures Holds(Run(s, core + seq(quiet, _ => true)), core)
  {
    hide Tick, Inv, HighRun, Holds, Busy, Run;
    var full, rest := core + seq(STOP_SAMPLES, _ => true), seq(quiet - STOP_SAMPLES, _ => true);
    StopHolds(s, core);
    assert core + seq(quiet, _ => true) == full + rest;
    RunAppend(s, full, rest);
    QuietHolds(Run(s, full), core, quiet - STOP_SAMPLES);
  }

  /** However long the frame is, it is completed; the buffer is then full up to the place that was reached. */
  lemma FrameCompletes(s: State, core: seq<bool>, quiet: nat)
    requires Inv(s) && s.busstate == Idle && Busy(core) && quiet >= STOP_SAMPLES
    ensures var t := Run(s, core + seq(quiet, _ => true));
            var n := |core| + STOP_SAMPLES;
            && t.busstate == Idle && t.rxstate == Completed
            && t.rxpos == 1 + (if n / 8 < 40 then n / 8 else 39)
            && t.idlecnt == if quiet - STOP_SAMPLES > 255 then 255 else quiet - STOP_SAMPLES
  {
    hide Tick, Inv, HighRun, Busy, Counted;
    var most, full := core + seq(STOP_SAMPLES - 1, _ => true), core + seq(STOP_SAMPLES, _ => true);
    var rest := seq(quiet - STOP_SAMPLES, _ => true);
    MostIsBusy(core, most);
    CountAll(s, most, |most|);
    assert most[..|most|] == most;
    assert full == most + [true] && full[..|full| - 1] == most;
    CountOne(Run(s, most), most, true);
    assert core + seq(quiet, _ => true) == full + rest;
    RunAppend(s, full, rest);
    QuietBus(Run(s, full), quiet - STOP_SAMPLES);
  }

  lemma QuietHolds(u: State, core: seq<bool>, n: nat)
    requires Holds(u, core)
    ensures Holds(Run(u, seq(n, _ => true)), core)
  {
    hide Tick, HighRun, Run;
    QuietBus(u, n);
    StillHolds(u, Run(u, seq(n, _ => true)), core);
  }

  lemma StillHolds(u: State, v: State, core: seq<bool>)
    requires Holds(u, core) && Inv(v) && v == u.(idlecnt := v.idlecnt)
    ensures Holds(v, core)
  {
  }

  /**
   * A frame received amid calls of `tx`, `rx` and `tx_state` between its first sample and the one that completes it is
   * received as if there had been none.
   */
  lemma FrameAmidCalls(trace: seq<State>, events: seq<Event>, core: seq<bool>)
    requires Steps(trace, events) && Inv(trace[0]) && trace[0].busstate == Idle && Busy(core)
    requires events != [] && events[0].Ticked? && events[|events| - 1].Ticked?
    requires Levels(events) == core + seq(STOP_SAMPLES, _ => true)
    ensures Inv(trace[|events|])
    ensures SameReception(Run(trace[0], core + seq(STOP_SAMPLES, _ => true)), trace[|events|])
  {
    assert |trace| == |events| + 1;
    hide Tick, Inv, HighRun, Busy, Counted, Run, Steps;
    var most, all := core + seq(STOP_SAMPLES - 1, _ => true), core + seq(STOP_SAMPLES, _ => true);
    MostIsBusy(core, most);
    assert events[..|events|] == events;
    forall j | 0 < j < |events| ensures Run(trace[0], Levels(events[..j])).busstate == Rx {
      LevelsGrow(events, j);
      var n := |Levels(events[..j])|;
      assert Levels(events[..j]) == all[..n] == most[..n];
      CountAll(trace[0], most, n);
      CountedIsReceiving(Run(trace[0], most[..n]), most[..n]);
    }
    ReceptionAmidCalls(trace, events, |events|);
  }

  lemma CountedIsReceiving(s: State, w: seq<bool>)
    requires Counted(s, w)
    ensures s.busstate == Rx && RxResult(s) == 1
  {
  }

  /** Until the frame is completed, `rx` reports that one is being received. */
  lemma ReportsReceiving(s: State, core: seq<bool>, n: nat)
    requires Inv(s) && s.busstate == Idle && Busy(core) && 0 < n < |core| + STOP_SAMPLES
    ensures RxResult(Run(s, (core + seq(STOP_SAMPLES, _ => true))[..n])) == 1
  {
    hide Tick, Inv, HighRun, Busy, Counted, Run, RxResult;
    var most := core + seq(STOP_SAMPLES - 1, _ => true);
    MostIsBusy(core, most);
    assert (core + seq(STOP_SAMPLES, _ => true))[..n] == most[..n];
    CountAll(s, most, n);
    CountedIsReceiving(Run(s, most[..n]), most[..n]);
  }
}
