/**
 * Two drivers that start transmitting on the same tick: if their frames are the same neither notices, and otherwise
 * both do.
 */
module Collision {
  import opened Manchester
  import opened Driver
  import opened Transmitter
  import RoundTrip

  // ------------------------------------------------------------------ frames that differ

  /** `d` is the first half bit in which two frames differ. */
  ghost predicate FirstDifference(x: seq<bool>, y: seq<bool>, d: nat) {
    && d < |x| && d < |y| && x[d] != y[d]
    && forall k | 0 <= k < d :: x[k] == y[k]
  }

  function Min(x: nat, y: nat): nat {
    if x < y then x else y
  }

  lemma FrameAt(data: seq<bool>, k: nat)
    requires k < 2 * |data| + 6
    ensures k == 0 ==> FrameHalfBits(data)[k]
    ensures k == 1 ==> !FrameHalfBits(data)[k]
    ensures 2 <= k < 2 * |data| + 2 ==> FrameHalfBits(data)[k] == if k % 2 == 0 then data[k / 2 - 1] else !data[k / 2 - 1]
    ensures 2 * |data| + 2 <= k ==> !FrameHalfBits(data)[k]
  {
    if k < 2 * |data| + 2 {
      HalfBitsAt([true] + data, k / 2);
    }
  }

  /** Different frames differ no later than in the stop bits of the shorter one. */
  lemma FramesDiffer(x: seq<bool>, y: seq<bool>) returns (d: nat)
    requires x != y
    ensures FirstDifference(FrameHalfBits(x), FrameHalfBits(y), d)
    ensures d <= 2 * Min(|x|, |y|) + 3
  {
    hide FrameHalfBits;
    var m := SomeDifference(x, y);
    d := EarliestDifference(FrameHalfBits(x), FrameHalfBits(y), m);
  }

  lemma SomeDifference(x: seq<bool>, y: seq<bool>) returns (m: nat)
    requires x != y
    ensures m <= 2 * Min(|x|, |y|) + 3 && FrameHalfBits(x)[m] != FrameHalfBits(y)[m]
  {
    hide FrameHalfBits;
    if |x| == |y| {
      var i :| 0 <= i < |x| && x[i] != y[i];
      m := 2 * i + 2;
    } else if |x| < |y| {
      m := if y[|x|] then 2 * |x| + 2 else 2 * |x| + 3;
    } else {
      m := if x[|y|] then 2 * |y| + 2 else 2 * |y| + 3;
    }
    FrameAt(x, m);
    FrameAt(y, m);
  }

  lemma {:induction false} EarliestDifference(x: seq<bool>, y: seq<bool>, m: nat) returns (d: nat)
    requires m < |x| && m < |y| && x[m] != y[m]
    ensures d <= m && FirstDifference(x, y, d)
    decreases m
  {
    if k :| 0 <= k < m && x[k] != y[k] {
      d := EarliestDifference(x, y, k);
    } else {
      d := m;
    }
  }

  /** Whoever pulls the bus low in half bit `d` releases it in one of the next two half bits. */
  lemma ReleasesSoon(data: seq<bool>, d: nat)
    requires d < 2 * |data| + 6 && FrameHalfBits(data)[d]
    ensures d < 2 * |data| + 2
    ensures !FrameHalfBits(data)[d + 1] || !FrameHalfBits(data)[d + 2]
  {
    FrameAt(data, d);
    if d + 2 < 2 * |data| + 2 {
      LevelChanges([true] + data, d, false);
    }
  }

  // ------------------------------------------------------------------ up to the first difference

  /** Until the first difference, both drivers put the same levels on the bus and see nothing. */
  lemma {:induction false} BothSend(a: State, b: State, x: seq<bool>, y: seq<bool>, d: nat, t: nat)
    requires Sending(a, x, 0) && Sending(b, y, 0) && FirstDifference(x, y, d)
    requires t <= 4 * d + 2 && d + 2 <= |x| && d + 2 <= |y|
    ensures var p := LockRun(a, b, t);
            && Sending(p.0, x, t) && Sending(p.1, y, t)
            && p.0.handling == a.handling && p.1.handling == b.handling
    decreases t
  {
    hide Tick, Inv, Sending;
    SendingIsSafe(a, x);
    SendingIsSafe(b, y);
    if t > 0 {
      BothSend(a, b, x, y, d, t - 1);
      BothSendStep(LockRun(a, b, t - 1).0, LockRun(a, b, t - 1).1, x, y, d, t - 1);
    }
  }

  lemma BothSendStep(a: State, b: State, x: seq<bool>, y: seq<bool>, d: nat, t: nat)
    requires Sending(a, x, t) && Sending(b, y, t) && FirstDifference(x, y, d)
    requires t < 4 * d + 2 && d + 2 <= |x| && d + 2 <= |y|
    ensures var q := LockStep(a, b);
            && Sending(q.0, x, t + 1) && Sending(q.1, y, t + 1)
            && q.0.handling == a.handling && q.1.handling == b.handling
  {
    if t <= 4 * d {
      SameLevel(x, y, d, t);
    }
    hide Tick, Inv, HalfBitAt, OutAt, Watched;
    KeepsSending(a, x, t, Bus(a, b));
    KeepsSending(b, y, t, Bus(a, b));
  }

  lemma SameLevel(x: seq<bool>, y: seq<bool>, d: nat, t: nat)
    requires FirstDifference(x, y, d) && t <= 4 * d
    ensures OutAt(x, t) == OutAt(y, t)
  {
  }

  // ------------------------------------------------------------------ after it

  /** `s` noticed a collision `k` ticks ago and holds the bus low, from the first of those ticks on. */
  ghost predicate Jamming(s: State, k: nat) {
    Inv(s) && s.busstate == CollisionTx && s.txspcnt == k && s.txcollision == 1 && (k > 0 ==> !s.outHigh)
  }

  /** Jamming lasts sixteen ticks; the bus is low from the first and released on the last. */
  lemma JamStep(s: State, k: nat, high: bool)
    requires Jamming(s, k)
    ensures k < 15 ==> Jamming(Tick(s, high), k + 1)
    ensures k == 15 ==> Tick(s, high).busstate == Idle && Tick(s, high).outHigh
  {
  }

  /** The winner keeps sending against the loser's jam until it next releases the bus, in half bit `j`. */
  lemma {:induction false} WinnerGoesOn(a: State, b: State, y: seq<bool>, d: nat, j: nat, k: nat)
    requires Jamming(a, 0) && Sending(b, y, 4 * d + 3) && j + 2 <= |y| && d < j <= d + 2
    requires forall i | d <= i < j :: y[i]
    requires k <= 4 * (j - d) - 1
    ensures var p := LockRun(a, b, k);
            Jamming(p.0, k) && Sending(p.1, y, 4 * d + 3 + k) && p.1.handling == b.handling
    decreases k
  {
    hide Tick, Inv, Sending, Jamming;
    SendingIsSafe(b, y);
    JamIsSafe(a, 0);
    if k > 0 {
      WinnerGoesOn(a, b, y, d, j, k - 1);
      var p := LockRun(a, b, k - 1);
      JamStep(p.0, k - 1, Bus(p.0, p.1));
      WinnerStep(p.0, p.1, y, d, j, 4 * d + 3 + (k - 1));
    }
  }

  lemma JamIsSafe(a: State, k: nat)
    requires Jamming(a, k)
    ensures Inv(a)
  {
  }

  lemma WinnerStep(a: State, b: State, y: seq<bool>, d: nat, j: nat, t: nat)
    requires Inv(a) && Sending(b, y, t) && j + 2 <= |y| && d < j <= d + 2
    requires forall i | d <= i < j :: y[i]
    requires 4 * d + 3 <= t < 4 * j + 2
    ensures Sending(Tick(b, Bus(a, b)), y, t + 1) && Tick(b, Bus(a, b)).handling == b.handling
  {
    hide Tick, Inv, HalfBitAt, Watched;
    KeepsSending(b, y, t, Bus(a, b));
  }

  /** `s` noticed a collision and will report it. */
  ghost predicate Collided(s: State) {
    Inv(s) && s.txcollision == 1 && s.busstate != Tx
  }

  lemma StaysCollided(s: State, high: bool)
    requires Collided(s)
    ensures Collided(Tick(s, high))
  {
  }

  lemma {:induction false} BothStayCollided(a: State, b: State, n: nat)
    requires Collided(a) && Collided(b)
    ensures Collided(LockRun(a, b, n).0) && Collided(LockRun(a, b, n).1)
    decreases n
  {
    hide Tick, Inv;
    if n > 0 {
      BothStayCollided(a, b, n - 1);
      var p := LockRun(a, b, n - 1);
      StaysCollided(p.0, Bus(p.0, p.1));
      StaysCollided(p.1, Bus(p.0, p.1));
    }
  }

  /** The driver that released the bus in half bit `d` notices first; its jam makes the other one notice. */
  lemma LoserThenWinner(a: State, b: State, x: seq<bool>, data: seq<bool>, d: nat, n: nat)
    requires var y := FrameHalfBits(data);
             && Sending(a, x, 0) && Sending(b, y, 0) && FirstDifference(x, y, d) && !x[d]
    requires Watched(a.handling, |x|) && Watched(b.handling, |FrameHalfBits(data)|) && d + 2 <= |x|
    requires n >= 4 * d + 11
    ensures Collided(LockRun(a, b, n).0) && Collided(LockRun(a, b, n).1)
  {
    hide Tick, Inv, HalfBitAt, FrameHalfBits, Sending, Jamming, Collided, LockRun;
    var y := FrameHalfBits(data);
    SendingIsSafe(a, x);
    SendingIsSafe(b, y);
    ReleasesSoon(data, d);
    BothSend(a, b, x, y, d, 4 * d + 2);
    var p := LockRun(a, b, 4 * d + 2);
    LoserNotices(p.0, p.1, x, y, d, a.handling, b.handling);
    var q := LockStep(p.0, p.1);
    var j := if !y[d + 1] then d + 1 else d + 2;
    FrameAt(data, d + 1);
    var k := 4 * (j - d) - 1;
    WinnerGoesOn(q.0, q.1, y, d, j, k);
    var u := LockRun(q.0, q.1, k);
    WinnerNotices(u.0, u.1, y, j, k, b.handling);
    var v := LockStep(u.0, u.1);
    var m := 4 * d + 3 + k + 1;
    BothStayCollided(v.0, v.1, n - m);
    assert LockRun(a, b, 4 * d + 3) == q by { LockRunNext(a, b, 4 * d + 2); }
    LockRunAdds(a, b, 4 * d + 3, k);
    LockRunNext(a, b, 4 * d + 3 + k);
    LockRunAdds(a, b, m, n - m);
  }

  lemma LockRunNext(a: State, b: State, n: nat)
    requires Inv(a) && Inv(b)
    ensures LockRun(a, b, n + 1) == LockStep(LockRun(a, b, n).0, LockRun(a, b, n).1)
  {
  }

  lemma LoserNotices(a: State, b: State, x: seq<bool>, y: seq<bool>, d: nat, ha: CollisionHandling, hb: CollisionHandling)
    requires Sending(a, x, 4 * d + 2) && Sending(b, y, 4 * d + 2) && d + 2 <= |x| && d + 2 < |y|
    requires !x[d] && y[d] && a.handling == ha && b.handling == hb && Watched(ha, |x|)
    ensures var q := LockStep(a, b);
            Jamming(q.0, 0) && Sending(q.1, y, 4 * d + 3) && q.1.handling == hb
  {
    hide HalfBitAt;
    NoticesCollision(a, x, 4 * d + 2);
    KeepsSending(b, y, 4 * d + 2, false);
  }

  lemma WinnerNotices(a: State, b: State, y: seq<bool>, j: nat, k: nat, hb: CollisionHandling)
    requires Jamming(a, k) && 0 < k < JAM_SAMPLES - 1 && Sending(b, y, 4 * j + 2) && j + 2 <= |y| && !y[j]
    requires b.handling == hb && Watched(hb, |y|)
    ensures var q := LockStep(a, b); Collided(q.0) && Collided(q.1)
  {
    hide HalfBitAt;
    JamStep(a, k, false);
    NoticesCollision(b, y, 4 * j + 2);
  }

  // ------------------------------------------------------------------ the two outcomes

  /** Identical frames: both drivers are done with their frame, and neither noticed the other. */
  lemma {:induction false} SameFrameBothSend(a: State, b: State, hb: seq<bool>, n: nat)
    requires |hb| > 0 && !hb[|hb| - 1] && Sending(a, hb, 0) && Sending(b, hb, 0)
    ensures var p := LockRun(a, b, n); RoundTrip.Sent(p.0, hb, n) && RoundTrip.Sent(p.1, hb, n)
    decreases n
  {
    hide Tick, Inv, HalfBitAt, OutAt;
    if n > 0 {
      hide Sending, RoundTrip.Sent;
      SameFrameBothSend(a, b, hb, n - 1);
      var p := LockRun(a, b, n - 1);
      RoundTrip.SentLevel(p.0, hb, n - 1);
      RoundTrip.SentLevel(p.1, hb, n - 1);
      RoundTrip.SentStep(p.0, hb, n - 1);
      RoundTrip.SentStep(p.1, hb, n - 1);
    }
  }

  /**
   * Collision soundness. Two drivers that handle collisions start the frames `x` and `y` on the same tick. If the
   * frames are equal, both end idle with a good result; if they are not, however their lengths compare, both
   * report a collision, once.
   */
  lemma CollisionSoundness(s: State, a: State, x: seq<bool>, s': State, b: State, y: seq<bool>, n: nat)
    requires Inv(s) && s.busstate == Idle && |x| <= 32 && Started(s, x, a)
    requires Inv(s') && s'.busstate == Idle && |y| <= 32 && Started(s', y, b)
    requires HandlesCollisions(a) && HandlesCollisions(b)
    requires n >= 8 * Min(|x|, |y|) + 23
    ensures Inv(a) && Inv(b)
    ensures var p := LockRun(a, b, n);
            && (x == y ==> p.0.busstate == Idle == p.1.busstate && TxStateCall(p.0).0 == TxStateCall(p.1).0 == OK)
            && (x != y ==> TxStateCall(p.0).0 == TxStateCall(p.1).0 == COLLISION)
            && TxStateCall(TxStateCall(p.0).1).0 == TxStateCall(TxStateCall(p.1).1).0 == OK
  {
    hide Tick, Inv, HalfBitAt, FrameHalfBits, Sending, Jamming, LockRun, Started, Watched;
    StartsSending(s, x, a);
    StartsSending(s', y, b);
    SendingIsSafe(a, FrameHalfBits(x));
    SendingIsSafe(b, FrameHalfBits(y));
    if x == y {
      FrameAt(x, 2 * |x| + 5);
      SameFrameBothSend(a, b, FrameHalfBits(x), n);
    } else {
      var d := FramesDiffer(x, y);
      if FrameHalfBits(x)[d] {
        LoserThenWinner(b, a, FrameHalfBits(y), x, d, n);
        LockRunSwaps(b, a, n);
      } else {
        LoserThenWinner(a, b, FrameHalfBits(x), y, d, n);
      }
    }
  }

  lemma SendingIsSafe(a: State, hb: seq<bool>)
    requires Sending(a, hb, 0) || exists t: nat :: Sending(a, hb, t)
    ensures Inv(a) && a.txhblen == |hb|
  {
  }

  /**
   * Which frames are watched: all if handling is on, none if it is off. With automatic handling the exemption is for
   * frames of 14 half bits, that is four data bits; frames of 8, 16 and 24 bits are all watched.
   */
  lemma AutomaticHandling(s: State, data: seq<bool>, a: State)
    requires |data| <= 32 && Started(s, data, a)
    ensures HandlesCollisions(a) <==> s.handling == On || (s.handling == Auto && |data| != 4)
  {
  }

  /** A frame that is not watched is sent to the end whatever the bus does, and never reports a collision. */
  lemma {:induction false} UnwatchedFrame(a: State, hb: seq<bool>, inputs: seq<bool>)
    requires |hb| > 0 && Sending(a, hb, 0) && !HandlesCollisions(a) && |inputs| <= LastTick(hb) + 1
    ensures |inputs| <= LastTick(hb) ==> Sending(Run(a, inputs), hb, |inputs|)
    ensures var t := Run(a, inputs); t.txcollision == 0 && t.txhblen == a.txhblen && t.handling == a.handling
    ensures |inputs| == LastTick(hb) + 1 ==> Run(a, inputs).busstate == Idle
    decreases |inputs|
  {
    hide Tick, HalfBitAt;
    if inputs != [] {
      var k := |inputs| - 1;
      UnwatchedFrame(a, hb, inputs[..k]);
      var t := Run(a, inputs[..k]);
      if k < LastTick(hb) {
        KeepsSending(t, hb, k, inputs[k]);
      } else {
        DoneSending(t, hb, inputs[k]);
      }
    }
  }
}
