/** The driver object: its fields are updated in place, call by call and tick by tick. */
module DaliDriver {
  import opened Bits
  import opened Manchester
  import opened Driver

  /** `arr[pos] |= hb << shift` puts two half bits at bit offset `off` of an otherwise empty place. */
  lemma PushedBits(b: bv8, hb: bv8, off: nat, i: nat)
    requires off in {0, 2, 4, 6} && i < 8 && hb <= 3
    ensures Bit(b | ShiftLeft(hb, 6 - off), i)
         == (Bit(b, i) || (i == off && Bit(hb, 6)) || (i == off + 1 && Bit(hb, 7)))
  {
    OrBit(b, ShiftLeft(hb, 6 - off), i);
    ShiftLeftBit(hb, 6 - off, i);
    SmallByte(hb);
  }

  function Pushed(buf: seq<bv8>, pos: nat, off: nat, hb: bv8): (out: seq<bv8>)
    requires off <= 6 && pos < |buf|
    ensures |out| == |buf|
  {
    buf[pos := buf[pos] | ShiftLeft(hb, 6 - off)]
  }

  lemma PushedBit(buf: seq<bv8>, pos: nat, off: nat, hb: bv8, j: nat, i: nat)
    requires off <= 6 && off % 2 == 0 && pos < |buf| && hb <= 3 && j < |buf| && i < 8
    ensures Bit(Pushed(buf, pos, off, hb)[j], i) ==
            (Bit(buf[j], i) || (j == pos && i == off && Bit(hb, 6)) || (j == pos && i == off + 1 && Bit(hb, 7)))
  {
    hide Bit, ShiftLeft;
    if j == pos {
      PushedBits(buf[pos], hb, off, i);
    }
  }

  /** The effect of pushing two half bits, on the whole buffer: two places change, and only if they were clear. */
  lemma PushedHalfBits(buf: seq<bv8>, pos: nat, off: nat, hb: bv8)
    requires off <= 6 && off % 2 == 0 && pos < |buf| && hb <= 3
    ensures var out := Unpack(Pushed(buf, pos, off, hb));
            var len := 8 * pos + off;
            && (forall k | 0 <= k < 8 * |buf| && k != len && k != len + 1 :: out[k] == Unpack(buf)[k])
            && (!Unpack(buf)[len] && !Unpack(buf)[len + 1] ==> out[len] == Bit(hb, 6) && out[len + 1] == Bit(hb, 7))
  {
    hide Bit, Pushed, Unpack;
    var out := Pushed(buf, pos, off, hb);
    var len := 8 * pos + off;
    forall k | 0 <= k < 8 * |buf|
      ensures Unpack(out)[k] == (Unpack(buf)[k] || (k == len && Bit(hb, 6)) || (k == len + 1 && Bit(hb, 7)))
    {
      UnpackAt(out, k);
      UnpackAt(buf, k);
      PushedBit(buf, pos, off, hb, k / 8, k % 8);
    }
  }

  lemma SmallByte(hb: bv8)
    requires hb <= 3
    ensures !Bit(hb, 0) && !Bit(hb, 1) && !Bit(hb, 2) && !Bit(hb, 3) && !Bit(hb, 4) && !Bit(hb, 5)
  {
  }

  lemma ZeroByte(i: nat)
    requires i < 8
    ensures !Bit(0, i)
  {
  }

  lemma TwoHalfBits()
    ensures Bit(0x2, 6) && !Bit(0x2, 7) && !Bit(0x1, 6) && Bit(0x1, 7) && !Bit(0x0, 6) && !Bit(0x0, 7)
  {
  }

  /** The buffer starts with `hb` and is clear after it. */
  ghost predicate HoldsHalfBits(buf: seq<bv8>, hb: seq<bool>) {
    && |hb| <= 8 * |buf|
    && (forall k | 0 <= k < |hb| :: Unpack(buf)[k] == hb[k])
    && (forall k | |hb| <= k < 8 * |buf| :: !Unpack(buf)[k])
  }

  lemma BufferComplete(buf: seq<bv8>, bits: seq<bool>)
    requires |buf| == TX_BUF_SIZE && |bits| <= 32 && HoldsHalfBits(buf, HalfBits([true] + bits))
    ensures Unpack(buf) == TxBuffer(bits)
  {
    hide Unpack, HalfBits;
  }

  class Dali {
    const handling: CollisionHandling
    var busstate: BusState
    var idlecnt: nat
    var rxstate: RxState
    const rxdata: array<bv8>
    var rxpos: nat
    var rxbyte: bv8
    var rxbitcnt: nat
    var rxidle: nat
    const txhbdata: array<bv8>
    var txhblen: nat
    var txhbcnt: nat
    var txspcnt: nat
    var txhigh: bool
    var txcollision: nat
    var outHigh: bool

    ghost function View(): State
      reads this, rxdata, txhbdata
    {
      State(busstate, idlecnt, rxstate, rxdata[..], rxpos, rxbyte, rxbitcnt, rxidle, txhbdata[..], txhblen, txhbcnt,
            txspcnt, txhigh, txcollision, handling, outHigh)
    }

    ghost predicate Valid()
      reads this, rxdata, txhbdata
    {
      rxdata != txhbdata && Inv(View()) && Settled(View())
    }

    constructor (handling: CollisionHandling)
      ensures Valid() && fresh(rxdata) && fresh(txhbdata)
      ensures View() == Initial(handling)
    {
      this.handling := handling;
      busstate, idlecnt, outHigh := Idle, 0, true;
      rxstate, rxpos, rxbyte, rxbitcnt, rxidle := Empty, 0, 0, 0, 0;
      txhblen, txhbcnt, txspcnt, txhigh, txcollision := 0, 0, 0, false, 0;
      rxdata := new bv8[RX_BUF_SIZE](_ => 0);
      txhbdata := new bv8[TX_BUF_SIZE](_ => 0);
    }

    method SetBusstateIdle()
      modifies this
      ensures View() == ToIdle(old(View()))
    {
      outHigh := true;
      idlecnt := 0;
      busstate := Idle;
    }

    /** The timer interrupt; `busHigh` is the level sampled on entry. */
    method Timer(busHigh: bool)
      requires Valid()
      modifies this, rxdata
      ensures Valid() && View() == Tick(old(View()), busHigh)
    {
      TickKeepsSettled(View(), busHigh);
      hide Settled, Receive, Transmit, Inv;
      match busstate {
        case Idle =>
          if busHigh {
            if idlecnt != 255 {
              idlecnt := idlecnt + 1;
            }
          } else {
            StartReceiving();
            Sample(busHigh);
          }
        case Rx =>
          Sample(busHigh);
        case Tx =>
          TransmitTick(busHigh);
        case CollisionTx =>
          outHigh := false;
          txspcnt := txspcnt + 1;
          if txspcnt >= 16 {
            SetBusstateIdle();
          }
      }
    }

    /** The first low sample on an idle bus starts reception. */
    method StartReceiving()
      requires Valid() && busstate == Idle
      modifies this
      ensures Valid() && busstate == BusState.Rx
      ensures View() == old(View()).(rxpos := 0, rxbitcnt := 0, rxidle := 0, rxstate := Receiving,
                                     busstate := BusState.Rx)
    {
      ListeningSettles(View());
      hide Settled, Inv;
      rxpos := 0;
      rxbitcnt := 0;
      rxidle := 0;
      rxstate := Receiving;
      busstate := BusState.Rx;
    }

    /** The part of the timer interrupt that drives the next half bit and watches for collisions. */
    method TransmitTick(busHigh: bool)
      requires Valid() && busstate == BusState.Tx
      modifies this
      ensures Valid() && View() == Transmit(old(View()), busHigh)
    {
      hide Bit;
      TransmitSettles(View(), busHigh);
      assert txhbdata.Length == TX_BUF_SIZE && txhbcnt <= txhblen <= 70;
      hide Settled, Inv;
      if txhbcnt >= txhblen {
        SetBusstateIdle();
        return;
      }
      if (handling == On || (handling == Auto && txhblen != EXEMPT_HALF_BITS))
         && (txhigh && !busHigh) && (txspcnt == 1 || txspcnt == 2) {
        if txcollision != 255 {
          txcollision := txcollision + 1;
        }
        txspcnt := 0;
        busstate := CollisionTx;
        return;
      }
      if txspcnt == 0 {
        DriveHalfBit();
        txhbcnt := txhbcnt + 1;
        txspcnt := 4;
      }
      txspcnt := txspcnt - 1;
    }

    /** Puts the next half bit on the bus. */
    method DriveHalfBit()
      requires txhbdata.Length == TX_BUF_SIZE && txhbcnt < 8 * TX_BUF_SIZE
      modifies this`outHigh, this`txhigh
      ensures outHigh == txhigh == !HalfBitAt(View(), txhbcnt)
    {
      hide Bit;
      var pos := txhbcnt / 8;
      var offset := txhbcnt % 8;
      if Bit(txhbdata[pos], offset) {
        outHigh := false;
        txhigh := false;
      } else {
        outHigh := true;
        txhigh := true;
      }
    }

    /** The part of the timer interrupt that collects samples. */
    method Sample(busHigh: bool)
      requires Valid() && busstate == BusState.Rx
      modifies this, rxdata
      ensures Valid() && View() == Receive(old(View()), busHigh)
    {
      ReceiveSettles(View(), busHigh);
      assert rxdata.Length == RX_BUF_SIZE && rxpos < RX_BUF_SIZE && rxbitcnt < 8;
      hide Settled, Inv, StoreSample;
      PackSample(busHigh);
      if busHigh {
        rxidle := rxidle + 1;
        if rxidle >= 16 {
          ghost var stored := rxdata[..];
          rxdata[rxpos] := 0xFF;
          assert rxdata[..] == stored[rxpos := 0xFF];
          rxpos := rxpos + 1;
          rxstate := Completed;
          SetBusstateIdle();
        }
      } else {
        rxidle := 0;
      }
    }

    method PackSample(busHigh: bool)
      requires rxdata != txhbdata && rxdata.Length == RX_BUF_SIZE && rxpos < RX_BUF_SIZE && rxbitcnt < 8
      modifies this`rxbyte, this`rxbitcnt, this`rxpos, rxdata
      ensures View() == StoreSample(old(View()), busHigh)
    {
      hide ShiftIn;
      rxbyte := ShiftIn(rxbyte, busHigh);
      rxbitcnt := rxbitcnt + 1;
      if rxbitcnt == 8 {
        rxdata[rxpos] := rxbyte;
        assert rxdata[..] == old(rxdata[..])[rxpos := rxbyte];
        rxpos := rxpos + 1;
        if rxpos > RX_BUF_SIZE - 1 {
          rxpos := RX_BUF_SIZE - 1;
        }
        rxbitcnt := 0;
      }
    }

    /** Appends two half bits, most significant first, to the cleared tail of the transmit buffer. */
    method TxPush2hb(hb: bv8)
      requires txhbdata.Length == TX_BUF_SIZE && txhblen % 2 == 0 && txhblen + 2 <= 8 * TX_BUF_SIZE && hb <= 3
      modifies txhbdata, this`txhblen
      ensures txhblen == old(txhblen) + 2
      ensures forall k | 0 <= k < 8 * TX_BUF_SIZE && k != old(txhblen) && k != old(txhblen) + 1 ::
                Unpack(txhbdata[..])[k] == old(Unpack(txhbdata[..]))[k]
      ensures old(!Unpack(txhbdata[..])[txhblen] && !Unpack(txhbdata[..])[txhblen + 1]) ==>
                Unpack(txhbdata[..])[old(txhblen)] == Bit(hb, 6) && Unpack(txhbdata[..])[old(txhblen) + 1] == Bit(hb, 7)
    {
      hide Unpack, Bit, ShiftLeft;
      ghost var before := txhbdata[..];
      var pos := txhblen / 8;
      var shift := 6 - txhblen % 8;
      PushedHalfBits(txhbdata[..], pos, txhblen % 8, hb);
      txhbdata[pos] := txhbdata[pos] | ShiftLeft(hb, shift);
      txhblen := txhblen + 2;
      assert txhbdata[..] == Pushed(before, pos, old(txhblen) % 8, hb);
    }

    method ClearTxBuffer()
      requires txhbdata.Length == TX_BUF_SIZE
      modifies txhbdata
      ensures forall k | 0 <= k < 8 * TX_BUF_SIZE :: !Unpack(txhbdata[..])[k]
    {
      for i := 0 to 9
        invariant forall j | 0 <= j < i :: txhbdata[j] == 0
      {
        txhbdata[i] := 0;
      }
      forall k | 0 <= k < 8 * TX_BUF_SIZE ensures !Unpack(txhbdata[..])[k] {
        ZeroByte(k % 8);
      }
    }

    /** The part of `tx` that pushes the data bits after the start bit. */
    method PushBits(data: array<bv8>, bitlen: nat, ghost bits: seq<bool>)
      requires data != txhbdata && txhbdata.Length == TX_BUF_SIZE && bitlen <= 8 * data.Length && bitlen <= 32
      requires bits == Unpack(data[..])[..bitlen] && txhblen == 2
      requires Unpack(txhbdata[..])[0] && !Unpack(txhbdata[..])[1]
      requires forall k | 2 <= k < 8 * TX_BUF_SIZE :: !Unpack(txhbdata[..])[k]
      modifies txhbdata, this`txhblen
      ensures txhblen == 2 * bitlen + 2
      ensures HoldsHalfBits(txhbdata[..], HalfBits([true] + bits))
    {
      hide Unpack, HalfBits, Bit;
      ghost var hb := HalfBits([true] + bits);
      HalfBitsAt([true] + bits, 0);
      for i := 0 to bitlen
        invariant data[..] == old(data[..])
        invariant txhblen == 2 * i + 2
        invariant forall k | 0 <= k < txhblen :: Unpack(txhbdata[..])[k] == hb[k]
        invariant forall k | txhblen <= k < 8 * TX_BUF_SIZE :: !Unpack(txhbdata[..])[k]
      {
        var pos := i / 8;
        var offset := i % 8;
        UnpackAt(data[..], i);
        HalfBitsAt([true] + bits, i + 1);
        TwoHalfBits();
        TxPush2hb(if Bit(data[pos], offset) then 0x2 else 0x1);
      }
    }

    /** Start bit, data bits and two stop bits, pushed into a cleared buffer. */
    method FillTxBuffer(data: array<bv8>, bitlen: nat)
      requires data != txhbdata && txhbdata.Length == TX_BUF_SIZE && bitlen <= 8 * data.Length && bitlen <= 32
      modifies txhbdata, this`txhblen
      ensures txhblen == 2 * bitlen + 6
      ensures Unpack(txhbdata[..]) == TxBuffer(Unpack(data[..])[..bitlen])
    {
      hide Unpack, HalfBits, Bit, TxBuffer;
      ghost var bits := Unpack(data[..])[..bitlen];
      TwoHalfBits();
      ClearTxBuffer();
      txhblen := 0;
      TxPush2hb(0x2);
      PushBits(data, bitlen, bits);
      TxPush2hb(0x0);
      TxPush2hb(0x0);
      BufferComplete(txhbdata[..], bits);
    }

    /** Starts transmitting the first `bitlen` bits of `data` if the bus is idle. */
    method Tx(data: array<bv8>, bitlen: nat) returns (r: nat)
      requires Valid() && data != txhbdata && data != rxdata && bitlen <= 8 * data.Length
      modifies this, txhbdata
      ensures Valid() && TxCall(old(View()), data[..], bitlen, r, View())
      ensures r == if bitlen > 32 then 2 else if old(busstate) != Idle then 1 else 0
    {
      hide Unpack, TxBuffer;
      if bitlen > 32 {
        return FRAME_TOO_LONG;
      }
      if busstate != Idle {
        return BUS_NOT_IDLE;
      }
      FillTxBuffer(data, bitlen);
      txhbcnt := 0;
      txspcnt := 0;
      txcollision := 0;
      rxstate := Empty;
      busstate := BusState.Tx;
      return OK;
    }

    /** Whether the last transmission collided, is still going on, or is done; asking clears a collision. */
    method TxState() returns (r: nat)
      requires Valid()
      modifies this
      ensures Valid() && (r, View()) == TxStateCall(old(View()))
      ensures r == if old(txcollision) != 0 then 3 else if old(busstate) == BusState.Tx then 4 else 0
    {
      NextKeepsInv(View(), TxStateCalled, TxStateCall(View()).1);
      hide Settled;
      if txcollision != 0 {
        txcollision := 0;
        return COLLISION;
      }
      if busstate == BusState.Tx {
        return TRANSMITTING;
      }
      return OK;
    }

    /** Collects a received frame into `ddata`, of which at most the first four bytes are written. */
    method Rx(ddata: array<bv8>) returns (r: nat)
      requires Valid() && ddata != rxdata && ddata != txhbdata && ddata.Length >= 4
      modifies this, ddata
      ensures Valid() && View() == AfterRx(old(View()))
      ensures r == RxResult(old(View())) <= 32 && ddata[..] == RxBuffer(old(View()), old(ddata[..]))
    {
      hide Unpack, StoreBits, DecodeFrom;
      match rxstate {
        case Empty =>
          return 0;
        case Receiving =>
          return 1;
        case Completed =>
          DecodedLength(View());
          rxstate := Empty;
          var dlen := ManDecode(rxdata, rxpos * 8 % 256, ddata);
          if dlen < 3 {
            return 2;
          }
          return dlen;
      }
    }
  }

  lemma SamplesOf(i: bv8)
    ensures var w := Unpack([i]);
            && w[0] == (i & 0x80 != 0) && w[1] == (i & 0x40 != 0) && w[2] == (i & 0x20 != 0) && w[3] == (i & 0x10 != 0)
            && w[4] == (i & 0x08 != 0) && w[5] == (i & 0x04 != 0) && w[6] == (i & 0x02 != 0) && w[7] == (i & 0x01 != 0)
  {
    var w := Unpack([i]);
    assert w[0] == Bit(i, 0) && w[1] == Bit(i, 1) && w[2] == Bit(i, 2) && w[3] == Bit(i, 3);
    assert w[4] == Bit(i, 4) && w[5] == Bit(i, 5) && w[6] == Bit(i, 6) && w[7] == Bit(i, 7);
  }

  /** The weight of a byte of samples, oldest sample in the most significant bit. */
  method ManWeight(i: bv8) returns (w: nat)
    ensures w == Weight(Unpack([i]))
  {
    SamplesOf(i);
    hide Unpack, Bit;
    var v: int := 0;
    v := v + if i & 0x80 != 0 then 1 else -1;
    v := v + if i & 0x40 != 0 then 2 else -2;
    v := v + if i & 0x20 != 0 then 2 else -2;
    v := v + if i & 0x10 != 0 then 1 else -1;
    v := v - if i & 0x08 != 0 then 1 else -1;
    v := v - if i & 0x04 != 0 then 2 else -2;
    v := v - if i & 0x02 != 0 then 2 else -2;
    v := v - if i & 0x01 != 0 then 1 else -1;
    v := v * 2;
    if v < 0 {
      v := -v + 1;
    }
    w := v;
  }

  /** Cuts the byte of eight samples out of the sample buffer and notes whether it is all high or all low. */
  method ManSample(edata: array<bv8>, bitpos: nat, before: Mark) returns (sample: bv8, mark: Mark)
    requires bitpos / 8 + 1 < edata.Length
    ensures Unpack([sample]) == Window(Unpack(edata[..]), bitpos)
    ensures mark == Marked(Window(Unpack(edata[..]), bitpos), before)
  {
    mark := before;
    var pos := bitpos / 8;
    var shift := bitpos % 8;
    sample := Straddle(edata[pos], edata[pos + 1], shift);
    StraddledWindow(edata[..], bitpos);
    UniformByte(sample);
    if sample == 0xFF {
      mark := Stop;
    }
    if sample == 0x00 {
      mark := Collision;
    }
  }

  lemma StraddledWindow(e: seq<bv8>, p: nat)
    requires p / 8 + 1 < |e|
    ensures Unpack([Straddle(e[p / 8], e[p / 8 + 1], p % 8)]) == Window(Unpack(e), p)
  {
    hide Bit, Straddle, Unpack;
    var b := Straddle(e[p / 8], e[p / 8 + 1], p % 8);
    forall i | 0 <= i < 8 ensures Unpack([b])[i] == Unpack(e)[p + i] {
      StraddleBit(e[p / 8], e[p / 8 + 1], p % 8, i);
      UnpackAt([b], i);
      UnpackAt(e, p + i);
      PlaceOf(p, i);
    }
  }

  lemma PlaceOf(p: nat, i: nat)
    requires i < 8
    ensures (p + i) / 8 == p / 8 + (if p % 8 + i < 8 then 0 else 1)
    ensures (p + i) % 8 == p % 8 + i - (if p % 8 + i < 8 then 0 else 8)
  {
  }

  lemma UniformByte(b: bv8)
    ensures b == 0xFF <==> AllHigh(Unpack([b]))
    ensures b == 0x00 <==> AllLow(Unpack([b]))
  {
    var w := Unpack([b]);
    assert w[0] == Bit(b, 0) && w[1] == Bit(b, 1) && w[2] == Bit(b, 2) && w[3] == Bit(b, 3);
    assert w[4] == Bit(b, 4) && w[5] == Bit(b, 5) && w[6] == Bit(b, 6) && w[7] == Bit(b, 7);
  }

  /** The weight and length of the best of the three candidate windows, and what they say about the end of frame. */
  method BestWindow(edata: array<bv8>, ebitpos: nat) returns (weightmax: nat, pmax: nat, mark: Mark)
    requires 1 <= ebitpos && (ebitpos + 1) / 8 + 1 < edata.Length
    ensures ebitpos + 9 <= 8 * edata.Length
    ensures mark == MarkAt(Unpack(edata[..]), ebitpos)
    ensures (weightmax, pmax) == BestAt(Unpack(edata[..]), ebitpos)
  {
    hide Weight, Window, Marked, Unpack;
    mark := NoMark;
    var sample, w;
    sample, mark := ManSample(edata, ebitpos, mark);
    weightmax := ManWeight(sample);
    pmax := 8;

    sample, mark := ManSample(edata, ebitpos - 1, mark);
    w := ManWeight(sample);
    if weightmax < w {
      weightmax := w;
      pmax := 7;
    }

    sample, mark := ManSample(edata, ebitpos + 1, mark);
    w := ManWeight(sample);
    if weightmax < w {
      weightmax := w;
      pmax := 9;
    }
  }

  /** Five output bytes are enough for any samples; that some need them is shown by `LongestDecode`. */
  lemma FiveBytesAreEnough(e: seq<bool>, len: nat)
    requires len <= 248 && len + 7 <= |e|
    ensures |Decode(e, len).bits| <= 8 * 5 + 1 && ReportedLength(Decode(e, len)) <= 35
  {
  }

  /**
   * Decodes `ebitlen` samples. The sample buffer needs no more than 32 bytes, and the output only room for the bits
   * that are found: every index used stays inside, whatever the samples are.
   */
  method ManDecode(edata: array<bv8>, ebitlen: nat, ddata: array<bv8>) returns (dbitlen: nat)
    requires edata.Length >= 32 && ebitlen <= 248 && ddata != edata
    requires |Decode(Unpack(edata[..]), ebitlen).bits| <= 8 * ddata.Length + 1
    modifies ddata
    ensures var d := Decode(Unpack(edata[..]), ebitlen);
            && dbitlen == ReportedLength(d)
            && ddata[..] == StoreBits(old(ddata[..]), DataBits(d.bits))
  {
    hide MarkAt, BestAt, Unpack, ShiftIn, DecodeFrom, StoreBits, DataBits;
    NothingStored(ddata[..], []);
    ghost var e := Unpack(edata[..]);
    ghost var d := Decode(e, ebitlen);
    ghost var found: seq<bool> := [];
    dbitlen := 0;
    var ebitpos := 1;
    while ebitpos + 1 < ebitlen
      invariant edata[..] == old(edata[..])
      invariant dbitlen == |found| && 7 * |found| + 1 <= ebitpos <= 255
      invariant |found| <= |d.bits| <= 8 * ddata.Length + 1
      invariant d == Decoded(found + DecodeFrom(e, ebitlen, ebitpos).bits, DecodeFrom(e, ebitlen, ebitpos).collided)
      invariant |DataBits(found)| <= 8 * ddata.Length
      invariant ddata[..] == StoreBits(old(ddata[..]), DataBits(found))
      decreases ebitlen - ebitpos
    {
      var weightmax, pmax, mark := BestWindow(edata, ebitpos);
      DecodeStep(e, ebitlen, ebitpos);
      assert found + [] == found;
      if mark == Stop {
        break;
      }
      if mark == Collision {
        return 0;
      }
      ghost var bit := weightmax % 2 == 1;
      if dbitlen > 0 {
        StoreOne(old(ddata[..]), found, bit);
        PutBit(ddata, dbitlen - 1, weightmax % 2 == 1);
      } else {
        NothingStored(old(ddata[..]), found + [bit]);
      }
      found := found + [bit];
      dbitlen := dbitlen + 1;
      ebitpos := ebitpos + pmax;
    }
    assert found + [] == found;
    if dbitlen > 1 {
      dbitlen := dbitlen - 1;
    }
  }

  /** Appends a bit to a byte string; a byte is cleared when its first bit arrives. */
  method PutBit(ddata: array<bv8>, k: nat, bit: bool)
    requires k < 8 * ddata.Length
    modifies ddata
    ensures ddata[..] ==
            old(ddata[..])[k / 8 := ShiftIn(if k % 8 == 0 then 0 else old(ddata[..])[k / 8], bit)]
  {
    var bytepos := k / 8;
    if k % 8 == 0 {
      ddata[bytepos] := 0;
    }
    ddata[bytepos] := ShiftIn(ddata[bytepos], bit);
  }

  lemma NothingStored(buf: seq<bv8>, found: seq<bool>)
    requires |found| <= 1
    ensures DataBits(found) == [] && StoreBits(buf, []) == buf
  {
  }

  lemma StoreOne(buf: seq<bv8>, found: seq<bool>, bit: bool)
    requires 0 < |found| <= 8 * |buf|
    ensures |DataBits(found)| == |found| - 1 && |DataBits(found + [bit])| == |found|
    ensures var k := |found| - 1;
            var before := StoreBits(buf, DataBits(found));
            StoreBits(buf, DataBits(found + [bit])) ==
            before[k / 8 := ShiftIn(if k % 8 == 0 then 0 else before[k / 8], bit)]
  {
    hide ShiftIn, StoreBits;
    assert DataBits(found + [bit]) == DataBits(found) + [bit];
    StoreNext(buf, DataBits(found), bit);
  }

  lemma StoreNext(buf: seq<bv8>, bits: seq<bool>, bit: bool)
    requires |bits| < 8 * |buf|
    ensures var k, before := |bits|, StoreBits(buf, bits);
            StoreBits(buf, bits + [bit]) == before[k / 8 := ShiftIn(if k % 8 == 0 then 0 else before[k / 8], bit)]
  {
    hide ShiftIn;
    assert (bits + [bit])[..|bits|] == bits;
  }
}
