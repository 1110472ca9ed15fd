/**
 * The low-level driver as a state machine: one clock tick, starting a transmission, collecting a received frame and
 * asking for the transmit state, each as a function on the driver's fields.
 */
module Driver {
  import opened Bits
  import opened Manchester

  const RX_BUF_SIZE: nat := 40
  const TX_BUF_SIZE: nat := 9
  const STOP_SAMPLES: nat := 16
  const JAM_SAMPLES: nat := 16
  const SAMPLES_PER_HALF_BIT: nat := 4
  /** Number of half bits for which automatic collision handling is switched off: 2 + 8 + 4. */
  const EXEMPT_HALF_BITS: nat := 14

  const OK: nat := 0
  const BUS_NOT_IDLE: nat := 1
  const FRAME_TOO_LONG: nat := 2
  const COLLISION: nat := 3
  const TRANSMITTING: nat := 4

  datatype BusState = Idle | Rx | Tx | CollisionTx
  datatype RxState = Empty | Receiving | Completed
  datatype CollisionHandling = Auto | Off | On

  datatype State = State(
    busstate: BusState,
    idlecnt: nat,
    rxstate: RxState,
    rxdata: seq<bv8>,
    rxpos: nat,
    rxbyte: bv8,
    rxbitcnt: nat,
    rxidle: nat,
    txhbdata: seq<bv8>,
    txhblen: nat,
    txhbcnt: nat,
    txspcnt: nat,
    txhigh: bool,
    txcollision: nat,
    handling: CollisionHandling,
    /** The level this driver puts on the bus; the bus is high only where every driver releases it. */
    outHigh: bool)

  /** What every call and every tick keeps. */
  predicate Inv(s: State) {
    && |s.rxdata| == RX_BUF_SIZE && |s.txhbdata| == TX_BUF_SIZE
    && s.idlecnt <= 255 && s.txcollision <= 255
    && (s.rxstate == Receiving <==> s.busstate == Rx)
    && (s.busstate == Rx ==> s.rxpos < RX_BUF_SIZE && s.rxbitcnt < 8 && s.rxidle < STOP_SAMPLES)
    && (s.rxstate == Completed ==> 1 <= s.rxpos <= RX_BUF_SIZE)
    && s.txhbcnt <= s.txhblen <= 70 && s.txhblen % 2 == 0
    && (s.busstate == Tx ==> s.txspcnt < SAMPLES_PER_HALF_BIT)
    && (s.busstate == CollisionTx ==> s.txspcnt < JAM_SAMPLES)
    && (s.busstate == Idle || s.busstate == Rx ==> s.outHigh)
  }

  function ToIdle(s: State): State {
    s.(outHigh := true, idlecnt := 0, busstate := Idle)
  }

  /** The driver after `begin`; static storage starts out zeroed. */
  function Initial(handling: CollisionHandling): State {
    State(Idle, 0, Empty, seq(RX_BUF_SIZE, _ => 0), 0, 0, 0, 0, seq(TX_BUF_SIZE, _ => 0), 0, 0, 0, false, 0, handling, true)
  }

  // ------------------------------------------------------------------ timer

  /** Appends a sample to the byte under construction; the eighth one completes the byte. */
  function StoreSample(s: State, high: bool): (t: State)
    requires |s.rxdata| == RX_BUF_SIZE && s.rxpos < RX_BUF_SIZE && s.rxbitcnt < 8
    ensures |t.rxdata| == RX_BUF_SIZE && t.rxpos < RX_BUF_SIZE && t.rxbitcnt < 8
    ensures t == s.(rxbyte := t.rxbyte, rxdata := t.rxdata, rxpos := t.rxpos, rxbitcnt := t.rxbitcnt)
  {
    var byte := ShiftIn(s.rxbyte, high);
    if s.rxbitcnt + 1 == 8 then
      var next := if s.rxpos + 1 > RX_BUF_SIZE - 1 then RX_BUF_SIZE - 1 else s.rxpos + 1;
      s.(rxbyte := byte, rxdata := s.rxdata[s.rxpos := byte], rxpos := next, rxbitcnt := 0)
    else
      s.(rxbyte := byte, rxbitcnt := s.rxbitcnt + 1)
  }

  /** The sixteenth high sample in a row completes the frame. */
  function Complete(s: State): State
    requires |s.rxdata| == RX_BUF_SIZE && s.rxpos < RX_BUF_SIZE
  {
    ToIdle(s.(rxidle := STOP_SAMPLES, rxdata := s.rxdata[s.rxpos := 0xFF], rxpos := s.rxpos + 1, rxstate := Completed))
  }

  function Receive(s: State, high: bool): (t: State)
    requires Inv(s) && s.busstate == Rx
    ensures Inv(t)
  {
    hide StoreSample;
    var t := StoreSample(s, high);
    if !high then t.(rxidle := 0)
    else if t.rxidle + 1 < STOP_SAMPLES then t.(rxidle := t.rxidle + 1)
    else Complete(t)
  }

  predicate Watched(handling: CollisionHandling, halfBits: nat) {
    handling == On || (handling == Auto && halfBits != EXEMPT_HALF_BITS)
  }

  predicate HandlesCollisions(s: State) {
    Watched(s.handling, s.txhblen)
  }

  predicate SeesCollision(s: State, high: bool) {
    HandlesCollisions(s) && s.txhigh && !high && (s.txspcnt == 1 || s.txspcnt == 2)
  }

  /** The half bit at position `k` of the transmit buffer. */
  function HalfBitAt(s: State, k: nat): bool
    requires |s.txhbdata| == TX_BUF_SIZE && k < 8 * TX_BUF_SIZE
  {
    Bit(s.txhbdata[k / 8], k % 8)
  }

  function Transmit(s: State, high: bool): (t: State)
    requires Inv(s) && s.busstate == Tx
    ensures Inv(t)
  {
    if s.txhbcnt >= s.txhblen then ToIdle(s)
    else if SeesCollision(s, high) then
      s.(txcollision := if s.txcollision != 255 then s.txcollision + 1 else 255, txspcnt := 0, busstate := CollisionTx)
    else if s.txspcnt == 0 then
      var low := HalfBitAt(s, s.txhbcnt);
      s.(outHigh := !low, txhigh := !low, txhbcnt := s.txhbcnt + 1, txspcnt := SAMPLES_PER_HALF_BIT - 1)
    else s.(txspcnt := s.txspcnt - 1)
  }

  function Jam(s: State): (t: State)
    requires Inv(s) && s.busstate == CollisionTx
    ensures Inv(t)
  {
    var t := s.(outHigh := false, txspcnt := s.txspcnt + 1);
    if t.txspcnt >= JAM_SAMPLES then ToIdle(t) else t
  }

  /** One timer interrupt that samples the bus at level `high`. */
  function Tick(s: State, high: bool): (t: State)
    requires Inv(s)
    ensures Inv(t)
  {
    match s.busstate
    case Idle =>
      if high then s.(idlecnt := if s.idlecnt != 255 then s.idlecnt + 1 else 255)
      else Receive(s.(rxpos := 0, rxbitcnt := 0, rxidle := 0, rxstate := Receiving, busstate := Rx), high)
    case Rx => Receive(s, high)
    case Tx => Transmit(s, high)
    case CollisionTx => Jam(s)
  }

  // ------------------------------------------------------------------ how a completed frame ends

  /** From this many bytes on the sample count has wrapped. */
  const COUNTED_BYTES: nat := 32

  /** The sample at place `k` since reception started, in the buffer or in the byte under construction. */
  predicate SampleAt(s: State, k: nat)
    requires |s.rxdata| == RX_BUF_SIZE && s.rxpos < RX_BUF_SIZE && s.rxbitcnt < 8 && k < 8 * s.rxpos + s.rxbitcnt
  {
    if k < 8 * s.rxpos then Bit(s.rxdata[k / 8], k % 8) else Bit(s.rxbyte, 8 - s.rxbitcnt + k - 8 * s.rxpos)
  }

  /** The samples counted as idle are the last ones, and high. */
  ghost predicate EndsHigh(s: State)
    requires |s.rxdata| == RX_BUF_SIZE && s.rxpos < RX_BUF_SIZE && s.rxbitcnt < 8
  {
    s.rxpos < COUNTED_BYTES ==>
      forall k: nat | 8 * s.rxpos + s.rxbitcnt - s.rxidle <= k < 8 * s.rxpos + s.rxbitcnt :: SampleAt(s, k)
  }

  /** A completed frame ends with high samples: the byte that marks its end, and those of the stop condition. */
  ghost predicate StopsHigh(s: State)
    requires |s.rxdata| == RX_BUF_SIZE && s.rxpos <= RX_BUF_SIZE
  {
    s.rxpos < COUNTED_BYTES ==> forall k: nat | 8 * s.rxpos - 17 <= k < 8 * s.rxpos :: Bit(s.rxdata[k / 8], k % 8)
  }

  /** What the stop condition adds to the invariant. */
  ghost predicate Settled(s: State)
    requires Inv(s)
  {
    (s.busstate == Rx ==> EndsHigh(s)) && (s.rxstate == Completed ==> StopsHigh(s))
  }

  lemma StoredSampleAt(s: State, high: bool, k: nat)
    requires |s.rxdata| == RX_BUF_SIZE && s.rxpos < COUNTED_BYTES && s.rxbitcnt < 8 && k <= 8 * s.rxpos + s.rxbitcnt
    ensures var t := StoreSample(s, high);
            var n := 8 * s.rxpos + s.rxbitcnt;
            && 8 * t.rxpos + t.rxbitcnt == n + 1
            && SampleAt(t, k) == if k == n then high else SampleAt(s, k)
  {
    hide Bit, ShiftIn;
    var n := 8 * s.rxpos + s.rxbitcnt;
    if k >= 8 * s.rxpos {
      var i := k - 8 * s.rxpos + 7 - s.rxbitcnt;
      ShiftInBit(s.rxbyte, high, i);
    }
  }

  lemma StoreKeepsEnd(s: State, high: bool, idle: nat)
    requires |s.rxdata| == RX_BUF_SIZE && s.rxpos < RX_BUF_SIZE && s.rxbitcnt < 8 && EndsHigh(s)
    requires idle <= if high then s.rxidle + 1 else 0
    ensures EndsHigh(StoreSample(s, high).(rxidle := idle))
  {
    hide SampleAt;
    var t := StoreSample(s, high).(rxidle := idle);
    if s.rxpos < COUNTED_BYTES {
      StoredSampleAt(s, high, 0);
      var n := 8 * s.rxpos + s.rxbitcnt;
      forall k: nat | n + 1 - idle <= k < n + 1 ensures SampleAt(t, k) {
        StoredSampleAt(s, high, k);
        SameSample(StoreSample(s, high), t, k);
      }
    }
  }

  lemma SameSample(s: State, t: State, k: nat)
    requires |s.rxdata| == RX_BUF_SIZE && s.rxpos < RX_BUF_SIZE && s.rxbitcnt < 8 && k < 8 * s.rxpos + s.rxbitcnt
    requires t.rxdata == s.rxdata && t.rxpos == s.rxpos && t.rxbitcnt == s.rxbitcnt && t.rxbyte == s.rxbyte
    ensures SampleAt(t, k) == SampleAt(s, k)
  {
  }

  lemma CompleteStopsHigh(s: State)
    requires |s.rxdata| == RX_BUF_SIZE && s.rxpos < RX_BUF_SIZE && s.rxbitcnt < 8 && s.rxidle == STOP_SAMPLES
    requires EndsHigh(s)
    ensures StopsHigh(Complete(s))
  {
    hide Bit;
    var t := Complete(s);
    if t.rxpos < COUNTED_BYTES {
      forall k: nat | 8 * t.rxpos - 17 <= k < 8 * t.rxpos ensures Bit(t.rxdata[k / 8], k % 8) {
        if k < 8 * s.rxpos {
          assert SampleAt(s, k);
        } else {
          AllOnes(k % 8);
        }
      }
    }
  }

  lemma ReceiveKeepsSettled(s: State, high: bool)
    requires Inv(s) && s.busstate == Rx && EndsHigh(s)
    ensures Settled(Receive(s, high))
  {
    hide StoreSample, EndsHigh, StopsHigh, Complete;
    var idle := if high then s.rxidle + 1 else 0;
    StoreKeepsEnd(s, high, idle);
    if idle >= STOP_SAMPLES {
      CompletesHigh(s, high);
    }
  }

  lemma ReceiveSettles(s: State, high: bool)
    requires Inv(s) && Settled(s) && s.busstate == Rx
    ensures Settled(Receive(s, high))
  {
    hide Receive, EndsHigh, StopsHigh;
    ReceiveKeepsSettled(s, high);
  }

  lemma CompletesHigh(s: State, high: bool)
    requires Inv(s) && s.busstate == Rx && high && s.rxidle + 1 == STOP_SAMPLES
    requires EndsHigh(StoreSample(s, high).(rxidle := STOP_SAMPLES))
    ensures StopsHigh(Receive(s, high)) && Receive(s, high).busstate == Idle
  {
    hide StoreSample, EndsHigh, StopsHigh;
    CompleteStopsHigh(StoreSample(s, high).(rxidle := STOP_SAMPLES));
    assert Complete(StoreSample(s, high).(rxidle := STOP_SAMPLES)) == Receive(s, high);
  }

  /** Samples are kept as long as the fields of the receiver are. */
  lemma SameReceiver(s: State, t: State)
    requires Inv(s) && Settled(s) && Inv(t)
    requires t.rxdata == s.rxdata && t.rxpos == s.rxpos && t.rxbitcnt == s.rxbitcnt && t.rxbyte == s.rxbyte
    requires t.rxidle == s.rxidle && t.busstate != Rx && (t.rxstate == Completed ==> s.rxstate == Completed)
    ensures Settled(t)
  {
  }

  lemma TickKeepsSettled(s: State, high: bool)
    requires Inv(s) && Settled(s)
    ensures Settled(Tick(s, high))
  {
    hide EndsHigh, StopsHigh, Receive;
    match s.busstate {
      case Idle =>
        if high {
          SameReceiver(s, Tick(s, high));
        } else {
          var t := s.(rxpos := 0, rxbitcnt := 0, rxidle := 0, rxstate := Receiving, busstate := Rx);
          NothingReceived(t);
          ReceiveKeepsSettled(t, high);
        }
      case Rx =>
        ReceiveKeepsSettled(s, high);
      case Tx =>
        SameReceiver(s, Tick(s, high));
      case CollisionTx =>
        SameReceiver(s, Tick(s, high));
    }
  }

  lemma TransmitSettles(s: State, high: bool)
    requires Inv(s) && Settled(s) && s.busstate == Tx
    ensures Settled(Transmit(s, high))
  {
    hide EndsHigh, StopsHigh;
    SameReceiver(s, Transmit(s, high));
  }

  lemma ListeningSettles(s: State)
    requires Inv(s)
    ensures var t := s.(rxpos := 0, rxbitcnt := 0, rxidle := 0, rxstate := Receiving, busstate := Rx);
            s.busstate == Idle ==> Inv(t) && Settled(t)
  {
  }

  lemma NothingReceived(s: State)
    requires |s.rxdata| == RX_BUF_SIZE && s.rxpos == 0 && s.rxbitcnt == 0
    ensures EndsHigh(s)
  {
  }

  // ------------------------------------------------------------------ tx, tx_state, rx

  /** The transmit buffer holding the half bits of `data`, zero filled. */
  function TxBuffer(data: seq<bool>): seq<bool>
    requires |data| <= 32
  {
    FrameHalfBits(data) + seq(8 * TX_BUF_SIZE - 2 * |data| - 6, _ => false)
  }

  /** `t` is `s` after a `tx` call that accepted the bits `data`. */
  ghost predicate Started(s: State, data: seq<bool>, t: State)
    requires |data| <= 32
  {
    && |t.txhbdata| == TX_BUF_SIZE && Unpack(t.txhbdata) == TxBuffer(data)
    && t == s.(txhbdata := t.txhbdata, txhblen := 2 * |data| + 6, txhbcnt := 0, txspcnt := 0, txcollision := 0,
               rxstate := Empty, busstate := Tx)
  }

  /** The outcome of `tx`: the result code, and the new state. */
  ghost predicate TxCall(s: State, data: seq<bv8>, bitlen: nat, r: nat, t: State)
    requires bitlen <= 8 * |data|
  {
    if bitlen > 32 then r == FRAME_TOO_LONG && t == s
    else if s.busstate != Idle then r == BUS_NOT_IDLE && t == s
    else r == OK && Started(s, Unpack(data)[..bitlen], t)
  }

  function TxStateCall(s: State): (nat, State) {
    if s.txcollision != 0 then (COLLISION, s.(txcollision := 0))
    else if s.busstate == Tx then (TRANSMITTING, s)
    else (OK, s)
  }

  /** The sample count handed to the decoder; it is an 8 bit number. */
  function SampleCount(s: State): nat {
    s.rxpos * 8 % 256
  }

  function ReceivedFrame(s: State): Decoded
    requires Inv(s)
  {
    Decode(Unpack(s.rxdata), SampleCount(s))
  }

  /** What `rx` returns: 0 nothing, 1 still receiving, 2 not decodable, otherwise the number of bits. */
  function RxResult(s: State): nat
    requires Inv(s)
  {
    match s.rxstate
    case Empty => 0
    case Receiving => 1
    case Completed =>
      var n := ReportedLength(ReceivedFrame(s));
      if n < 3 then 2 else n
  }

  /** The caller's buffer after `rx`; four bytes are enough. */
  function RxBuffer(s: State, buf: seq<bv8>): seq<bv8>
    requires Inv(s) && Settled(s) && |buf| >= 4
  {
    if s.rxstate != Completed then buf
    else
      DecodedLength(s);
      StoreBits(buf, DataBits(ReceivedFrame(s).bits))
  }

  function AfterRx(s: State): State {
    if s.rxstate == Completed then s.(rxstate := Empty) else s
  }

  // ------------------------------------------------------------------ every interleaving

  /**
   * Whatever was sampled, `rx` stores at most 32 bits: a frame is only complete after sixteen high samples in a row,
   * and there the decoder stops; a longer reception has wrapped the sample count.
   */
  lemma DecodedLength(s: State)
    requires Inv(s) && Settled(s)
    ensures s.rxstate == Completed ==> |ReceivedFrame(s).bits| <= 33
    ensures RxResult(s) <= 32
  {
    hide Unpack, MarkAt, BestAt, Bit, DecodeFrom;
    if s.rxstate == Completed && 4 <= s.rxpos < COUNTED_BYTES {
      var high := 8 * s.rxpos - 17;
      forall i | high <= i < 8 * s.rxpos ensures Unpack(s.rxdata)[i] {
        UnpackAt(s.rxdata, i);
      }
      FewBitsBeforeHigh(Unpack(s.rxdata), SampleCount(s), 1, high);
    }
  }

  datatype Event = Ticked(high: bool) | TxCalled(data: seq<bv8>, bitlen: nat) | RxCalled | TxStateCalled

  /** One call or tick takes `s` to `t`. */
  ghost predicate Next(s: State, e: Event, t: State)
    requires Inv(s)
  {
    match e
    case Ticked(high) => t == Tick(s, high)
    case TxCalled(data, bitlen) => bitlen <= 8 * |data| && exists r :: TxCall(s, data, bitlen, r, t)
    case RxCalled => t == AfterRx(s)
    case TxStateCalled => t == TxStateCall(s).1
  }

  lemma NextKeepsInv(s: State, e: Event, t: State)
    requires Inv(s) && Next(s, e, t)
    ensures Inv(t) && (Settled(s) ==> Settled(t))
  {
    hide EndsHigh, StopsHigh, TxBuffer, Unpack, Tick, Settled;
    match e {
      case Ticked(high) => if Settled(s) { TickKeepsSettled(s, high); }
      case TxCalled(data, bitlen) => CallKeepsSettled(s, t);
      case RxCalled => CallKeepsSettled(s, t);
      case TxStateCalled => CallKeepsSettled(s, t);
    }
  }

  /** Calls leave the receiver alone, except that they may forget a completed frame. */
  lemma CallKeepsSettled(s: State, t: State)
    requires Inv(s) && Inv(t)
    requires t.rxdata == s.rxdata && t.rxpos == s.rxpos && t.rxbitcnt == s.rxbitcnt && t.rxbyte == s.rxbyte
    requires t.rxidle == s.rxidle && (t.rxstate == Completed ==> s.rxstate == Completed)
    requires t.busstate == Rx ==> s.busstate == Rx
    ensures Settled(s) ==> Settled(t)
  {
    if Settled(s) && s.busstate == Rx && t.busstate == Rx {
      StillReceiving(s, t);
    }
  }

  lemma StillReceiving(s: State, t: State)
    requires Inv(s) && Inv(t) && s.busstate == Rx && EndsHigh(s)
    requires t.rxdata == s.rxdata && t.rxpos == s.rxpos && t.rxbitcnt == s.rxbitcnt && t.rxbyte == s.rxbyte
    requires t.rxidle == s.rxidle
    ensures EndsHigh(t)
  {
    hide SampleAt;
    forall k: nat | k < 8 * s.rxpos + s.rxbitcnt {
      SameSample(s, t, k);
    }
  }

  /** Every step of `trace` is a call or a tick. */
  ghost predicate Steps(trace: seq<State>, events: seq<Event>) {
    && |trace| == |events| + 1
    && forall i | 0 <= i < |events| :: Inv(trace[i]) ==> Next(trace[i], events[i], trace[i + 1])
  }

  /** `trace` is a run of the driver: it starts after `begin` and every step is a call or a tick. */
  ghost predicate IsRun(trace: seq<State>, events: seq<Event>) {
    Steps(trace, events) && exists h :: trace[0] == Initial(h)
  }

  /** Every state of every interleaving of ticks at any bus level and calls satisfies the invariant. */
  lemma {:induction false} EveryStateSafe(trace: seq<State>, events: seq<Event>, i: nat)
    requires IsRun(trace, events) && i < |trace|
    ensures Inv(trace[i]) && Settled(trace[i])
    decreases i
  {
    if i > 0 {
      EveryStateSafe(trace, events, i - 1);
      NextKeepsInv(trace[i - 1], events[i - 1], trace[i]);
    }
  }

  // ------------------------------------------------------------------ calls while a frame is being received

  /** What reception depends on is the same. */
  predicate SameReception(s: State, t: State) {
    && t.busstate == s.busstate && t.rxstate == s.rxstate && t.rxdata == s.rxdata && t.rxpos == s.rxpos
    && t.rxbyte == s.rxbyte && t.rxbitcnt == s.rxbitcnt && t.rxidle == s.rxidle
  }

  /**
   * Calls leave a driver that is not idle in its state on the bus, and a reception as it is. The one call that changes
   * that state is a `tx` of at most 32 bits on an idle driver.
   */
  lemma CallsKeepReception(s: State, e: Event, t: State)
    requires Inv(s) && Next(s, e, t) && !e.Ticked?
    ensures t.busstate != s.busstate <==> s.busstate == Idle && e.TxCalled? && e.bitlen <= 32
    ensures t.rxdata == s.rxdata && t.rxpos == s.rxpos && t.rxbitcnt == s.rxbitcnt && t.rxidle == s.rxidle
    ensures s.busstate == Rx ==> SameReception(s, t)
  {
    hide TxBuffer, Unpack, Tick, Receive, Transmit, Jam;
    match e {
      case TxCalled(data, bitlen) =>
        var r :| TxCall(s, data, bitlen, r, t);
        TxKeepsReception(s, data, bitlen, r, t);
      case RxCalled => NotCompleted(s);
      case TxStateCalled => NotCompleted(s);
    }
  }

  lemma TxKeepsReception(s: State, data: seq<bv8>, bitlen: nat, r: nat, t: State)
    requires bitlen <= 8 * |data| && TxCall(s, data, bitlen, r, t)
    ensures t.busstate != s.busstate <==> s.busstate == Idle && bitlen <= 32
    ensures t.rxdata == s.rxdata && t.rxpos == s.rxpos && t.rxbitcnt == s.rxbitcnt && t.rxidle == s.rxidle
    ensures s.busstate != Idle ==> t == s
  {
    hide TxBuffer, Unpack;
  }

  lemma NotCompleted(s: State)
    requires Inv(s)
    ensures s.busstate == Rx ==> s.rxstate == Receiving
  {
  }

  lemma TicksAlike(s: State, t: State, high: bool)
    requires Inv(s) && Inv(t) && SameReception(s, t) && s.busstate == Rx
    ensures SameReception(Tick(s, high), Tick(t, high))
  {
    hide ShiftIn;
  }

  /** The levels sampled, one for each tick. */
  function Levels(events: seq<Event>): (w: seq<bool>)
    ensures |w| <= |events|
    decreases |events|
  {
    if events == [] then []
    else
      var last := events[|events| - 1];
      Levels(events[..|events| - 1]) + (if last.Ticked? then [last.high] else [])
  }

  /** Until the last tick, what has been sampled is a proper part of all that is sampled. */
  lemma {:induction false} LevelsGrow(events: seq<Event>, j: nat)
    requires j <= |events|
    ensures Levels(events[..j]) <= Levels(events)
    ensures j > 0 && events[0].Ticked? ==> |Levels(events[..j])| > 0
    ensures j < |events| && events[|events| - 1].Ticked? ==> |Levels(events[..j])| < |Levels(events)|
    decreases |events|
  {
    if j == |events| {
      assert events[..j] == events;
      if j > 1 { LevelsGrow(events[..j - 1], j - 1); }
    } else {
      LevelsGrow(events[..|events| - 1], j);
      assert events[..|events| - 1][..j] == events[..j];
    }
  }

  /** While a frame is being received, calls between the ticks make no difference to the reception. */
  lemma {:induction false} ReceptionAmidCalls(trace: seq<State>, events: seq<Event>, i: nat)
    requires Steps(trace, events) && 0 < i <= |events| && events[0].Ticked? && Inv(trace[0])
    requires forall j | 0 < j < i :: Run(trace[0], Levels(events[..j])).busstate == Rx
    ensures Inv(trace[i]) && SameReception(Run(trace[0], Levels(events[..i])), trace[i])
    decreases i
  {
    hide Tick, Inv, SameReception, Next;
    assert events[..i][..i - 1] == events[..i - 1];
    var s, e := trace[0], events[i - 1];
    if i == 1 {
      assert Levels(events[..1]) == [e.high] && [e.high][..0] == [];
      StepIs(s, e, trace[1]);
      SameAsItself(trace[1]);
    } else {
      ReceptionAmidCalls(trace, events, i - 1);
      var u, v := Run(s, Levels(events[..i - 1])), trace[i - 1];
      assert Next(v, e, trace[i]);
      StepKeepsReception(u, v, e, trace[i]);
      if e.Ticked? {
        var w := Levels(events[..i]);
        assert w[..|w| - 1] == Levels(events[..i - 1]) && w[|w| - 1] == e.high;
      } else {
        assert Levels(events[..i]) == Levels(events[..i - 1]);
      }
    }
  }

  lemma SameAsItself(s: State)
    ensures SameReception(s, s)
  {
  }

  lemma StepIs(s: State, e: Event, t: State)
    requires Inv(s) && Next(s, e, t) && e.Ticked?
    ensures t == Tick(s, e.high) && Inv(t)
  {
  }

  lemma StepKeepsReception(u: State, v: State, e: Event, t: State)
    requires Inv(u) && Inv(v) && SameReception(u, v) && u.busstate == Rx && Next(v, e, t)
    ensures Inv(t) && SameReception(if e.Ticked? then Tick(u, e.high) else u, t)
  {
    hide Tick, Settled, TxBuffer, Unpack;
    NextKeepsInv(v, e, t);
    if e.Ticked? {
      TicksAlike(u, v, e.high);
    } else {
      CallsKeepReception(v, e, t);
    }
  }

  // ------------------------------------------------------------------ bounded time on the bus

  /** The state after sampling `inputs`, one level a tick. */
  function Run(s: State, inputs: seq<bool>): (t: State)
    requires Inv(s)
    ensures Inv(t)
    decreases |inputs|
  {
    if inputs == [] then s else Tick(Run(s, inputs[..|inputs| - 1]), inputs[|inputs| - 1])
  }

  lemma {:induction false} RunAppend(s: State, xs: seq<bool>, ys: seq<bool>)
    requires Inv(s)
    ensures Run(s, xs + ys) == Run(Run(s, xs), ys)
    decreases |ys|
  {
    hide Tick, Inv;
    if ys == [] {
      assert xs + ys == xs;
    } else {
      var k := |ys| - 1;
      RunAppend(s, xs, ys[..k]);
      assert (xs + ys)[..|xs| + k] == xs + ys[..k];
    }
  }

  /** Ticks after which a driver that holds the bus has certainly let go of it. */
  function BusyTicks(s: State): nat
    requires Inv(s)
  {
    match s.busstate
    case Tx => SAMPLES_PER_HALF_BIT * (s.txhblen - s.txhbcnt) + s.txspcnt + JAM_SAMPLES
    case CollisionTx => JAM_SAMPLES - s.txspcnt
    case _ => 0
  }

  lemma TickMakesProgress(s: State, high: bool)
    requires Inv(s) && (s.busstate == Tx || s.busstate == CollisionTx)
    ensures var t := Tick(s, high);
            t.busstate == Idle || ((t.busstate == Tx || t.busstate == CollisionTx) && BusyTicks(t) < BusyTicks(s))
    ensures Inv(Tick(s, high))
  {
    if s.busstate == CollisionTx {
      JamMakesProgress(s, high);
    } else {
      SendingMakesProgress(s, high);
    }
  }

  lemma BusyIsPositive(s: State)
    requires Inv(s) && (s.busstate == Tx || s.busstate == CollisionTx)
    ensures BusyTicks(s) > 0
  {
  }

  lemma JamMakesProgress(s: State, high: bool)
    requires Inv(s) && s.busstate == CollisionTx
    ensures var t := Tick(s, high);
            t.busstate == Idle || (t.busstate == CollisionTx && BusyTicks(t) < BusyTicks(s))
  {
  }

  lemma SendingMakesProgress(s: State, high: bool)
    requires Inv(s) && s.busstate == Tx
    ensures var t := Tick(s, high);
            t.busstate == Idle || ((t.busstate == Tx || t.busstate == CollisionTx) && BusyTicks(t) < BusyTicks(s))
  {
    hide SeesCollision, HalfBitAt, Receive, Jam, Unpack;
    var t := Tick(s, high);
    assert t == Transmit(s, high);
    if t.busstate == Tx && s.txspcnt == 0 {
      assert t.txhbcnt == s.txhbcnt + 1 && t.txspcnt == SAMPLES_PER_HALF_BIT - 1 && t.txhblen == s.txhblen;
    }
  }

  /** Whatever the bus does, a driver that started transmitting is idle again within `BusyTicks` ticks. */
  lemma {:induction false} LetsGoOfBus(s: State, inputs: seq<bool>) returns (n: nat)
    requires Inv(s) && (s.busstate == Tx || s.busstate == CollisionTx) && |inputs| >= BusyTicks(s)
    ensures 0 < n <= BusyTicks(s) && Run(s, inputs[..n]).busstate == Idle
    ensures forall k | 0 <= k < n :: Run(s, inputs[..k]).busstate in {Tx, CollisionTx}
    decreases BusyTicks(s)
  {
    hide Tick, Inv, BusyTicks;
    BusyIsPositive(s);
    var t := Tick(s, inputs[0]);
    assert Run(s, inputs[..1]) == t by { assert inputs[..1][..0] == []; }
    assert Run(s, inputs[..0]) == s;
    TickMakesProgress(s, inputs[0]);
    if t.busstate == Idle {
      n := 1;
    } else {
      var rest := LetsGoOfBus(t, inputs[1..]);
      n := rest + 1;
      forall k | 0 < k <= n ensures Run(s, inputs[..k]) == Run(t, inputs[1..][..k - 1]) {
        assert inputs[..k] == inputs[..1] + inputs[1..][..k - 1];
        RunAppend(s, inputs[..1], inputs[1..][..k - 1]);
      }
    }
  }

  /** A frame accepted by `tx` occupies the bus for at most `4 * txhblen + 16` ticks, collisions included. */
  lemma TransmissionEnds(s: State, data: seq<bool>, t: State, inputs: seq<bool>) returns (n: nat)
    requires Inv(s) && |data| <= 32 && s.busstate == Idle && Started(s, data, t)
    requires |inputs| == 4 * t.txhblen + 16
    ensures Inv(t) && 0 < n <= |inputs| && Run(t, inputs[..n]).busstate == Idle
    ensures forall k | 0 <= k < n :: Run(t, inputs[..k]).busstate in {Tx, CollisionTx}
  {
    n := LetsGoOfBus(t, inputs);
  }
}
