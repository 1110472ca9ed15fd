/** One driver transmits, another listens: the frame arrives, unless it is too long for the receiver's sample count. */
module RoundTrip {
  import opened Bits
  import opened Manchester
  import opened Driver
  import opened Receiver
  import opened ClockTolerance
  import opened Transmitter

  /** The levels on the bus in the first `n` ticks of a transmission. */
  function Line(hb: seq<bool>, n: nat): (w: seq<bool>)
    ensures |w| == n
  {
    seq(n, i requires 0 <= i < n => OutAt(hb, i))
  }

  /** The sender after `n` ticks: still sending, or idle again without having seen a collision. */
  ghost predicate Sent(a: State, hb: seq<bool>, n: nat) {
    if n <= LastTick(hb) then Sending(a, hb, n) else Inv(a) && a.busstate == Idle && a.txcollision == 0
  }

  lemma SentLevel(a: State, hb: seq<bool>, n: nat)
    requires |hb| > 0 && !hb[|hb| - 1] && Sent(a, hb, n)
    ensures a.outHigh == OutAt(hb, n)
  {
  }

  lemma SentStep(a: State, hb: seq<bool>, n: nat)
    requires |hb| > 0 && Sent(a, hb, n) && Inv(a)
    ensures n > LastTick(hb) ==> a.outHigh
    ensures Sent(Tick(a, a.outHigh), hb, n + 1)
  {
    hide Bit, HandlesCollisions, Transmit;
    if n < LastTick(hb) {
      KeepsSending(a, hb, n, a.outHigh);
    } else if n == LastTick(hb) {
      DoneSending(a, hb, a.outHigh);
    } else {
      StaysQuiet(a);
    }
  }

  /** The sender is undisturbed and the listener samples just the sender's levels. */
  lemma {:induction false} SenderAndListener(a: State, b: State, hb: seq<bool>, n: nat)
    requires |hb| > 0 && !hb[|hb| - 1] && Sending(a, hb, 0) && Listening(b)
    ensures var p := LockRun(a, b, n);
            && Sent(p.0, hb, n)
            && Listening(p.1) && p.1 == Run(b, Line(hb, n))
    decreases n
  {
    hide Tick, OutAt, Inv;
    if n > 0 {
      hide Sent, Sending;
      SenderAndListener(a, b, hb, n - 1);
      var p := LockRun(a, b, n - 1);
      SentLevel(p.0, hb, n - 1);
      KeepsListening(p.1, Bus(p.0, p.1));
      assert Line(hb, n)[..n - 1] == Line(hb, n - 1);
      SentStep(p.0, hb, n - 1);
    }
  }

  lemma StaysQuiet(a: State)
    requires Inv(a) && a.busstate == Idle
    ensures var t := Tick(a, true); t == a.(idlecnt := t.idlecnt)
  {
  }

  function Fours(n: nat): (dur: seq<nat>)
    ensures |dur| == n
  {
    seq(n, _ => 4)
  }

  lemma {:induction false} FoursStart(n: nat, k: nat)
    requires k <= n
    ensures Start(Fours(n), k) == 4 * k
    decreases k
  {
    if k > 0 { FoursStart(n, k - 1); }
  }

  /** On the bus, a frame is one idle level, its signal at four samples a half bit, and then a quiet bus. */
  lemma LineIsSignal(data: seq<bool>, quiet: nat)
    ensures var dur := Fours(2 * |data| + 2);
            && SlowTiming(data, dur)
            && |Signal(data, dur)| == 8 * |data| + 8
            && LastLow(data, dur) == 8 * |data| + (if BitsSent(data)[|data|] then 4 else 8)
            && Line(FrameHalfBits(data), 1 + 8 * |data| + 8 + quiet)
               == [true] + (Signal(data, dur) + seq(quiet, _ => true))
  {
    hide Wave, HalfBits, Start;
    var n := |data|;
    var dur := Fours(2 * n + 2);
    FoursStart(2 * n + 2, 2 * n + 1);
    FoursStart(2 * n + 2, 2 * n + 2);
    var w := Signal(data, dur);
    var hb := FrameHalfBits(data);
    assert SlowTiming(data, dur);
    var line := Line(hb, 1 + 8 * n + 8 + quiet);
    var right := [true] + (w + seq(quiet, _ => true));
    forall i | 0 <= i < |line| ensures line[i] == right[i] {
      if 0 < i <= |w| {
        var j := (i - 1) / 4;
        FoursStart(2 * n + 2, j);
        FoursStart(2 * n + 2, j + 1);
        SignalAt(data, dur, j, i - 1);
      }
    }
    assert line == right;
  }

  /** What the listener holds once the frame and its stop bits are over. */
  lemma ListenerHolds(a: State, b: State, data: seq<bool>, n: nat)
    requires |data| <= 32 && Sending(a, FrameHalfBits(data), 0) && Inv(b) && b.busstate == Idle
    requires n >= 8 * |data| + 25
    ensures var p := LockRun(a, b, n);
            var dur := Fours(2 * |data| + 2);
            && p.0.busstate == Idle && p.0.txcollision == 0
            && LastLow(data, dur) <= |Signal(data, dur)|
            && Holds(p.1, Signal(data, dur)[..LastLow(data, dur)])
  {
    hide Wave, HalfBits, Start, Tick, Inv, Bit, LastLow;
    var hb := FrameHalfBits(data);
    var dur := Fours(2 * |data| + 2);
    var quiet := n - (8 * |data| + 9);
    assert Listening(b);
    SenderAndListener(a, b, hb, n);
    LineIsSignal(data, quiet);
    var w := Signal(data, dur) + seq(quiet, _ => true);
    RunAppend(b, [true], w);
    assert Run(b, [true]) == Tick(b, true) by { assert [true][..0] == []; }
    StaysQuiet(b);
    SignalIsHeld(Tick(b, true), data, dur, quiet);
  }

  /**
   * Physical round trip: bytes given to `tx` on one driver come out of `rx` on another one sharing the bus, at any
   * time from 25 ticks after the data on, and only once; the sender saw no collision and is idle.
   */
  lemma BytesArrive(s: State, r: nat, a: State, b: State, bytes: seq<bv8>, n: nat, buf: seq<bv8>)
    requires Inv(s) && s.busstate == Idle && 1 <= |bytes| <= 3 && TxCall(s, bytes, 8 * |bytes|, r, a)
    requires Inv(b) && b.busstate == Idle && n >= 64 * |bytes| + 25 && |buf| >= 4
    ensures r == OK && Inv(a) && Settled(LockRun(a, b, n).1)
    ensures var p := LockRun(a, b, n);
            && p.0.busstate == Idle && TxStateCall(p.0).0 == OK
            && RxResult(p.1) == 8 * |bytes|
            && RxBuffer(p.1, buf) == bytes + buf[|bytes|..]
            && Inv(AfterRx(p.1)) && Settled(AfterRx(p.1)) && RxResult(AfterRx(p.1)) == 0
            && RxBuffer(AfterRx(p.1), bytes + buf[|bytes|..]) == bytes + buf[|bytes|..]
  {
    hide Wave, HalfBits, Start, Tick, Bit, LockRun, DecodeFrom, Unpack, StoreBits, LastLow, Holds, Inv;
    var data := Unpack(bytes);
    assert data[..8 * |bytes|] == data;
    var dur := Fours(2 * |data| + 2);
    StartsSending(s, data, a);
    ListenerHolds(a, b, data, n);
    LineIsSignal(data, 0);
    HeldFrameDecodes(LockRun(a, b, n).1, data, dur);
    assert BitsSent(data)[1..] == data;
    StoreWholeBytes(buf, bytes);
    HeldIsCompleted(LockRun(a, b, n).1, Signal(data, dur)[..LastLow(data, dur)]);
    HeldIsSettled(LockRun(a, b, n).1, Signal(data, dur)[..LastLow(data, dur)]);
    TakenOnce(LockRun(a, b, n).1, bytes + buf[|bytes|..]);
  }

  /** A frame that has been taken by `rx` is gone. */
  lemma TakenOnce(t: State, buf: seq<bv8>)
    requires Inv(t) && Settled(t) && t.rxstate == Completed && |buf| >= 4
    ensures Inv(AfterRx(t)) && Settled(AfterRx(t)) && RxResult(AfterRx(t)) == 0 && RxBuffer(AfterRx(t), buf) == buf
  {
  }

  lemma HeldIsSettled(t: State, core: seq<bool>)
    requires Holds(t, core)
    ensures Settled(t)
  {
    hide Bit, Unpack;
    forall k: nat | 8 * t.rxpos - 17 <= k < 8 * t.rxpos ensures Bit(t.rxdata[k / 8], k % 8) {
      UnpackAt(t.rxdata, k);
      assert k >= |core|;
    }
  }

  lemma HeldIsCompleted(t: State, core: seq<bool>)
    requires Holds(t, core)
    ensures t.rxstate == Completed && SampleCount(t) == ((|core| + STOP_SAMPLES) / 8 + 1) * 8 % 256
  {
  }

  /**
   * How long a frame may be: the receiver counts samples in eight bits, so it reports the right length exactly for
   * frames of up to 27 bits, and for 28 bits if the last one is a one. Then the bits are right too.
   */
  lemma FrameLengthLimit(s: State, bytes: seq<bv8>, bitlen: nat, r: nat, a: State, b: State, n: nat)
    requires Inv(s) && s.busstate == Idle && 3 <= bitlen <= 32 && bitlen <= 8 * |bytes| && TxCall(s, bytes, bitlen, r, a)
    requires Inv(b) && b.busstate == Idle && n >= 8 * bitlen + 25
    ensures r == OK && Inv(a)
    ensures var data, t := Unpack(bytes)[..bitlen], LockRun(a, b, n).1;
            && (RxResult(t) == |data| <==> |data| <= 27 || (|data| == 28 && data[27]))
            && (RxResult(t) == |data| ==> ReceivedFrame(t) == Decoded(BitsSent(data), false))
  {
    hide Wave, HalfBits, Start, Tick, Bit, LockRun, Unpack, LastLow, Holds, DecodeFrom;
    var data := Unpack(bytes)[..bitlen];
    var dur := Fours(2 * |data| + 2);
    StartsSending(s, data, a);
    ListenerHolds(a, b, data, n);
    LineIsSignal(data, 0);
    var t := LockRun(a, b, n).1;
    var core := Signal(data, dur)[..LastLow(data, dur)];
    HeldIsCompleted(t, core);
    assert BitsSent(data)[|data|] == data[|data| - 1];
    if |core| + STOP_SAMPLES < 248 {
      HeldFrameDecodes(t, data, dur);
    } else {
      assert SampleCount(t) <= 32;
      ShortCount(t);
    }
  }

  /** A frame of 32 ones is accepted for sending but not received as one. */
  lemma LongFrameIsLost(s: State, r: nat, a: State, b: State)
    requires Inv(s) && s.busstate == Idle && TxCall(s, [0xFF, 0xFF, 0xFF, 0xFF], 32, r, a)
    requires Inv(b) && b.busstate == Idle
    ensures r == OK && Inv(a) && RxResult(LockRun(a, b, 281).1) != 32
  {
    FrameLengthLimit(s, [0xFF, 0xFF, 0xFF, 0xFF], 32, r, a, b, 281);
  }

  /** What `tx_state` tells during an undisturbed transmission, and after it. A frame received before it is forgotten. */
  lemma SenderReports(s: State, bytes: seq<bv8>, bitlen: nat, r: nat, a: State, b: State, n: nat)
    requires Inv(s) && s.busstate == Idle && bitlen <= 32 && bitlen <= 8 * |bytes| && TxCall(s, bytes, bitlen, r, a)
    requires Inv(b) && b.busstate == Idle
    ensures r == OK && Inv(a) && RxResult(a) == 0
    ensures var p := LockRun(a, b, n).0;
            TxStateCall(p) == (if n <= 8 * bitlen + 21 then (TRANSMITTING, p) else (OK, p))
  {
    hide Tick, Inv, LockRun, FrameHalfBits, HalfBitAt, Unpack;
    var data := Unpack(bytes)[..bitlen];
    var hb := FrameHalfBits(data);
    StartsSending(s, data, a);
    EndsReleased(data);
    ListensWhenIdle(b);
    SenderAndListener(a, b, hb, n);
  }

  lemma ListensWhenIdle(b: State)
    requires Inv(b) && b.busstate == Idle
    ensures Listening(b)
  {
  }

  lemma EndsReleased(data: seq<bool>)
    ensures var hb := FrameHalfBits(data); |hb| == 2 * |data| + 6 && !hb[|hb| - 1]
  {
  }
}
