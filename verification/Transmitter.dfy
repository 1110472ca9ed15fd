/** What a transmitting driver puts on the bus, and drivers sharing one bus in lock step. */
module Transmitter {
  import opened Bits
  import opened Manchester
  import opened Driver

  /** Ticks from the start of a transmission until its last half bit is on the bus. */
  function LastTick(hb: seq<bool>): int {
    4 * |hb| - 3
  }

  /** `s` has been transmitting the half bits `hb` for `t` ticks without seeing a collision. */
  ghost predicate Sending(s: State, hb: seq<bool>, t: nat) {
    && Inv(s) && s.busstate == Tx && t <= LastTick(hb)
    && s.txhblen == |hb| && (forall k | 0 <= k < |hb| :: HalfBitAt(s, k) == hb[k])
    && s.txhbcnt == (t + 3) / 4 && s.txspcnt == (4 - t % 4) % 4
    && s.txcollision == 0
    && s.outHigh == OutAt(hb, t) && (t > 0 ==> s.txhigh == s.outHigh)
  }

  /** The level driven after `t` ticks. */
  function OutAt(hb: seq<bool>, t: nat): bool {
    t == 0 || (t - 1) / 4 >= |hb| || !hb[(t - 1) / 4]
  }

  /** The two ticks of a half bit on which the bus is compared with what is driven. */
  predicate Checks(t: nat) {
    t % 4 == 2 || t % 4 == 3
  }

  lemma StartsSending(s: State, data: seq<bool>, a: State)
    requires Inv(s) && s.busstate == Idle && |data| <= 32 && Started(s, data, a)
    ensures Sending(a, FrameHalfBits(data), 0)
    ensures a.handling == s.handling
  {
    var hb := FrameHalfBits(data);
    forall k | 0 <= k < |hb| ensures HalfBitAt(a, k) == hb[k] {
      UnpackAt(a.txhbdata, k);
      assert TxBuffer(data)[k] == hb[k];
    }
  }

  lemma KeepsSending(s: State, hb: seq<bool>, t: nat, high: bool)
    requires Sending(s, hb, t) && t < LastTick(hb)
    requires s.outHigh && !high && Checks(t) ==> !HandlesCollisions(s)
    ensures Sending(Tick(s, high), hb, t + 1) && Tick(s, high).handling == s.handling
  {
    hide Bit;
  }

  lemma DoneSending(s: State, hb: seq<bool>, high: bool)
    requires |hb| > 0 && Sending(s, hb, LastTick(hb))
    ensures var u := Tick(s, high); u == ToIdle(s)
  {
    hide Bit;
  }

  lemma NoticesCollision(s: State, hb: seq<bool>, t: nat)
    requires Sending(s, hb, t) && 0 < t < LastTick(hb) && Checks(t) && s.outHigh && HandlesCollisions(s)
    ensures Tick(s, false) == s.(txcollision := 1, txspcnt := 0, busstate := CollisionTx)
  {
    hide Bit;
  }

  // ------------------------------------------------------------------ two drivers on one bus

  /** All drivers sample the bus, then all drive it; the bus is low as soon as one of them pulls it low. */
  function Bus(a: State, b: State): bool {
    a.outHigh && b.outHigh
  }

  function LockStep(a: State, b: State): (p: (State, State))
    requires Inv(a) && Inv(b)
    ensures Inv(p.0) && Inv(p.1)
  {
    (Tick(a, Bus(a, b)), Tick(b, Bus(a, b)))
  }

  function LockRun(a: State, b: State, n: nat): (p: (State, State))
    requires Inv(a) && Inv(b)
    ensures Inv(p.0) && Inv(p.1)
    decreases n
  {
    if n == 0 then (a, b) else var p := LockRun(a, b, n - 1); LockStep(p.0, p.1)
  }

  lemma {:induction false} LockRunAdds(a: State, b: State, m: nat, n: nat)
    requires Inv(a) && Inv(b)
    ensures LockRun(a, b, m + n) == LockRun(LockRun(a, b, m).0, LockRun(a, b, m).1, n)
    decreases n
  {
    hide Tick, Inv;
    if n > 0 { LockRunAdds(a, b, m, n - 1); }
  }

  lemma {:induction false} LockRunSwaps(a: State, b: State, n: nat)
    requires Inv(a) && Inv(b)
    ensures LockRun(b, a, n) == (LockRun(a, b, n).1, LockRun(a, b, n).0)
    decreases n
  {
    hide Tick, Inv;
    if n > 0 { LockRunSwaps(a, b, n - 1); }
  }

  /** The driver does not transmit, so it leaves the bus high. */
  predicate Listening(s: State) {
    Inv(s) && (s.busstate == Idle || s.busstate == Rx)
  }

  lemma KeepsListening(s: State, high: bool)
    requires Listening(s)
    ensures Listening(Tick(s, high)) && s.outHigh && Tick(s, high).txcollision == s.txcollision
  {
  }
}
