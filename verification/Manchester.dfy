/**
 * The line code: how a frame becomes half bits, and how 8 times oversampled bus levels become a frame again.
 * A level is `true` when the bus is high (released). A half bit in the transmit buffer is `true` when it pulls
 * the bus low.
 */
module Manchester {
  import opened Bits

  // ---------------------------------------------------------------- encoder

  /** A logical one is low then high; a logical zero is high then low. */
  function HalfBits(bits: seq<bool>): (hb: seq<bool>)
    ensures |hb| == 2 * |bits|
  {
    seq(2 * |bits|, i requires 0 <= i < 2 * |bits| => if i % 2 == 0 then bits[i / 2] else !bits[i / 2])
  }

  /** A bit changes the bus level in its middle, so no level lasts longer than two half bits. */
  lemma LevelChanges(bits: seq<bool>, j: nat, low: bool)
    requires j + 2 < 2 * |bits|
    ensures HalfBits(bits)[j] == low || HalfBits(bits)[j + 1] == low || HalfBits(bits)[j + 2] == low
  {
    var k := (j + 1) / 2;
    HalfBitsAt(bits, k);
  }

  lemma HalfBitsAt(bits: seq<bool>, i: nat)
    requires i < |bits|
    ensures HalfBits(bits)[2 * i] == bits[i] && HalfBits(bits)[2 * i + 1] == !bits[i]
  {
  }

  /** Start bit, data bits, and two stop bits during which the bus stays high. */
  function FrameHalfBits(data: seq<bool>): (hb: seq<bool>)
    ensures |hb| == 2 * |data| + 6
  {
    HalfBits([true] + data) + [false, false, false, false]
  }

  // ---------------------------------------------------------------- decoder

  function Sign(b: bool): int {
    if b then 1 else -1
  }

  /**
   * How well eight samples look like one bit. Even weights mean a zero, odd weights mean a one, and the four
   * samples around the middle of each half count double.
   */
  function Weight(w: seq<bool>): (weight: int)
    requires |w| == 8
    ensures 0 <= weight <= 25
  {
    var v := 2 * (Sign(w[0]) + 2 * Sign(w[1]) + 2 * Sign(w[2]) + Sign(w[3])
                  - Sign(w[4]) - 2 * Sign(w[5]) - 2 * Sign(w[6]) - Sign(w[7]));
    if v < 0 then -v + 1 else v
  }

  predicate AllHigh(w: seq<bool>)
    requires |w| == 8
  {
    w[0] && w[1] && w[2] && w[3] && w[4] && w[5] && w[6] && w[7]
  }

  predicate AllLow(w: seq<bool>)
    requires |w| == 8
  {
    !w[0] && !w[1] && !w[2] && !w[3] && !w[4] && !w[5] && !w[6] && !w[7]
  }

  datatype Mark = NoMark | Stop | Collision

  /** What one window says about the end of the frame; a window that says nothing keeps the earlier mark. */
  function Marked(w: seq<bool>, before: Mark): Mark
    requires |w| == 8
  {
    if AllLow(w) then Collision else if AllHigh(w) then Stop else before
  }

  /** The eight samples starting at `p`. */
  function Window(e: seq<bool>, p: nat): (w: seq<bool>)
    requires p + 8 <= |e|
    ensures |w| == 8
  {
    e[p..p + 8]
  }

  /** The mark left after looking at the nominal, the early and the late window, in that order. */
  function MarkAt(e: seq<bool>, pos: nat): Mark
    requires 1 <= pos && pos + 9 <= |e|
  {
    Marked(Window(e, pos + 1), Marked(Window(e, pos - 1), Marked(Window(e, pos), NoMark)))
  }

  /** The window with the largest weight; ties keep the nominal one, then the early one. */
  function BestAt(e: seq<bool>, pos: nat): (best: (int, nat))
    requires 1 <= pos && pos + 9 <= |e|
    ensures 7 <= best.1 <= 9
  {
    var nominal := (Weight(Window(e, pos)), 8);
    var early := Weight(Window(e, pos - 1));
    var second := if nominal.0 < early then (early, 7) else nominal;
    var late := Weight(Window(e, pos + 1));
    if second.0 < late then (late, 9) else second
  }

  /** The bits found (start bit included) and whether the decoder gave up because the bus stayed low. */
  datatype Decoded = Decoded(bits: seq<bool>, collided: bool)

  /** The decoder from position `pos` on. */
  function DecodeFrom(e: seq<bool>, len: nat, pos: nat): (d: Decoded)
    requires 1 <= pos && len + 7 <= |e|
    ensures pos + 1 < len ==> 7 * |d.bits| < len - pos + 6
    ensures pos + 1 >= len ==> d == Decoded([], false)
    decreases len - pos
  {
    if pos + 1 >= len then Decoded([], false)
    else
      var mark := MarkAt(e, pos);
      if mark == Stop then Decoded([], false)
      else if mark == Collision then Decoded([], true)
      else
        var best := BestAt(e, pos);
        var rest := DecodeFrom(e, len, pos + best.1);
        Decoded([best.0 % 2 == 1] + rest.bits, rest.collided)
  }

  function Decode(e: seq<bool>, len: nat): Decoded
    requires len + 7 <= |e|
  {
    DecodeFrom(e, len, 1)
  }

  /** The length `_man_decode` reports: data bits without the start bit, a lone start bit, or 0 on a collision. */
  function ReportedLength(d: Decoded): nat {
    if d.collided then 0 else if |d.bits| > 1 then |d.bits| - 1 else |d.bits|
  }

  /** The bits after the start bit; a frame without any has no data. */
  function DataBits(bits: seq<bool>): seq<bool> {
    if |bits| > 1 then bits[1..] else []
  }

  /** The output buffer after storing `bits`, each shifted in at the low end of its byte. */
  function StoreBits(buf: seq<bv8>, bits: seq<bool>): (out: seq<bv8>)
    requires |bits| <= 8 * |buf|
    ensures |out| == |buf|
    ensures bits == [] ==> out == buf
    decreases |bits|
  {
    if bits == [] then buf
    else
      var k := |bits| - 1;
      var before := StoreBits(buf, bits[..k]);
      before[k / 8 := ShiftIn(if k % 8 == 0 then 0 else before[k / 8], bits[k])]
  }

  // ------------------------------------------------------- stored bits can be read back

  /** Bit `i` of the stored bits sits in byte `i / 8`, right-aligned among the `n` bits of that byte so far. */
  lemma {:induction false} StoreBitsAt(buf: seq<bv8>, bits: seq<bool>, i: nat)
    requires |bits| <= 8 * |buf| && i < |bits|
    ensures var held := if |bits| - i / 8 * 8 < 8 then |bits| - i / 8 * 8 else 8;
            0 <= 8 - held + i % 8 < 8 && Bit(StoreBits(buf, bits)[i / 8], 8 - held + i % 8) == bits[i]
    decreases |bits|
  {
    var k := |bits| - 1;
    var before := StoreBits(buf, bits[..k]);
    var base := if k % 8 == 0 then 0 else before[k / 8];
    if i == k {
      ShiftInBit(base, bits[k], 7);
    } else {
      StoreBitsAt(buf, bits[..k], i);
      if i / 8 == k / 8 {
        ShiftInBit(base, bits[k], 7 - k % 8 + i % 8);
      }
    }
  }

  /** Whole bytes come back exactly: storing the bits of `bytes` writes `bytes` and nothing else. */
  lemma {:induction false} StoreWholeBytes(buf: seq<bv8>, bytes: seq<bv8>)
    requires |bytes| <= |buf|
    ensures StoreBits(buf, Unpack(bytes)) == bytes + buf[|bytes|..]
  {
    hide Bit, Unpack, StoreBits;
    var bits := Unpack(bytes);
    var out := StoreBits(buf, bits);
    forall j | 0 <= j < |bytes| ensures out[j] == bytes[j] {
      StoredByte(buf, bytes, j);
    }
    StoreBitsFrame(buf, bits);
  }

  lemma StoredByte(buf: seq<bv8>, bytes: seq<bv8>, j: nat)
    requires j < |bytes| <= |buf|
    ensures StoreBits(buf, Unpack(bytes))[j] == bytes[j]
  {
    hide Bit, Unpack, StoreBits;
    var bits := Unpack(bytes);
    forall b | 0 <= b < 8 ensures Bit(StoreBits(buf, bits)[j], b) == Bit(bytes[j], b) {
      StoreBitsAt(buf, bits, 8 * j + b);
      UnpackAt(bytes, 8 * j + b);
    }
    SameBits(StoreBits(buf, bits)[j], bytes[j]);
  }

  /** Bytes past the last stored bit are left alone. */
  lemma {:induction false} StoreBitsFrame(buf: seq<bv8>, bits: seq<bool>)
    requires |bits| <= 8 * |buf|
    ensures forall j | (|bits| + 7) / 8 <= j < |buf| :: StoreBits(buf, bits)[j] == buf[j]
    decreases |bits|
  {
    if bits != [] {
      StoreBitsFrame(buf, bits[..|bits| - 1]);
    }
  }

  // ------------------------------------------------------- clock tolerance

  /** First sample of half bit `k` when half bit `j` lasts `dur[j]` samples. */
  function Start(dur: seq<nat>, k: nat): (p: nat)
    requires k <= |dur|
  {
    if k == 0 then 0 else Start(dur, k - 1) + dur[k - 1]
  }

  /** The bus levels produced by half bits `hb` lasting `dur` samples each. */
  function Wave(hb: seq<bool>, dur: seq<nat>): (w: seq<bool>)
    requires |hb| == |dur|
    ensures |w| == Start(dur, |dur|)
    decreases |hb|
  {
    if hb == [] then []
    else
      var k := |hb| - 1;
      assert Start(dur[..k], k) == Start(dur, k) by { StartPrefix(dur, k, k); }
      Wave(hb[..k], dur[..k]) + seq(dur[k], _ => !hb[k])
  }

  lemma {:induction false} StartPrefix(dur: seq<nat>, n: nat, k: nat)
    requires k <= n <= |dur|
    ensures Start(dur[..n], k) == Start(dur, k)
    decreases k
  {
    if k > 0 { StartPrefix(dur, n, k - 1); }
  }

  lemma {:induction false} StartMonotone(dur: seq<nat>, j: nat, k: nat)
    requires j <= k <= |dur|
    ensures Start(dur, j) <= Start(dur, k)
    decreases k - j
  {
    if j < k { StartMonotone(dur, j, k - 1); }
  }

  lemma LastWave(hb: seq<bool>, dur: seq<nat>)
    requires |hb| == |dur| > 0
    ensures var k := |hb| - 1; Wave(hb, dur) == Wave(hb[..k], dur[..k]) + seq(dur[k], _ => !hb[k])
  {
  }

  lemma {:induction false} WaveAt(hb: seq<bool>, dur: seq<nat>, k: nat, i: nat)
    requires |hb| == |dur| && k < |hb| && Start(dur, k) <= i < Start(dur, k + 1)
    ensures i < |Wave(hb, dur)| && Wave(hb, dur)[i] == !hb[k]
    decreases |hb|
  {
    var m := |hb| - 1;
    StartMonotone(dur, k + 1, |dur|);
    StartPrefix(dur, m, m);
    LastWave(hb, dur);
    hide Wave;
    if k < m {
      StartPrefix(dur, m, k);
      StartPrefix(dur, m, k + 1);
      WaveAt(hb[..m], dur[..m], k, i);
    }
  }

  /**
   * What the decoder needs of a sampled frame carrying `bits` (start bit included): around each mid-bit
   * transition `mid[k]` there are four samples of each half, transitions follow each other after eight or nine
   * samples, and the bus is high for eight samples starting five samples after the last transition.
   */
  ghost predicate Carries(e: seq<bool>, bits: seq<bool>, mid: seq<nat>) {
    && |mid| == |bits| > 0
    && 4 <= mid[0] <= 5
    && Spaced(mid)
    && (forall k | 0 <= k < |mid| :: BitAround(e, mid[k], bits[k]))
    && mid[|mid| - 1] + 13 <= |e| && (forall i | mid[|mid| - 1] + 5 <= i < mid[|mid| - 1] + 13 :: e[i])
  }

  ghost predicate Spaced(mid: seq<nat>) {
    forall k | 0 < k < |mid| :: mid[k - 1] + 8 <= mid[k] <= mid[k - 1] + 9
  }

  predicate BitAround(e: seq<bool>, m: nat, bit: bool) {
    && 4 <= m && m + 4 <= |e|
    && e[m - 4] == e[m - 3] == e[m - 2] == e[m - 1] == !bit
    && e[m] == e[m + 1] == e[m + 2] == e[m + 3] == bit
  }

  /** The window four samples before a mid-bit transition has the full weight of its bit. */
  lemma CentredWindow(e: seq<bool>, m: nat, bit: bool)
    requires BitAround(e, m, bit)
    ensures Weight(Window(e, m - 4)) == if bit then 25 else 24
    ensures Marked(Window(e, m - 4), NoMark) == NoMark
  {
  }

  /** A window one or two samples off weighs less, and still contains the transition. */
  lemma OffCentreWindow(e: seq<bool>, m: nat, bit: bool, p: nat, mark: Mark)
    requires BitAround(e, m, bit) && p + 8 <= |e| && p != m - 4 && m - 6 <= p <= m - 2
    ensures Weight(Window(e, p)) < 24
    ensures Marked(Window(e, p), mark) == mark
  {
    var w := Window(e, p);
    assert w[m - p] == bit && w[m - p - 1] == !bit;
    if p == m - 6 {
      assert w[2] == w[3] == w[4] == w[5] == !bit && w[6] == w[7] == bit;
    } else if p == m - 5 {
      assert w[1] == w[2] == w[3] == w[4] == !bit && w[5] == w[6] == w[7] == bit;
    } else if p == m - 3 {
      assert w[0] == w[1] == w[2] == !bit && w[3] == w[4] == w[5] == w[6] == bit;
    } else {
      assert w[0] == w[1] == !bit && w[2] == w[3] == w[4] == w[5] == bit;
    }
  }

  /** If the centred window is one of the three candidates, the tracker takes it and resynchronises on it. */
  lemma TrackerLocks(e: seq<bool>, m: nat, bit: bool, pos: nat)
    requires BitAround(e, m, bit) && 1 <= pos && pos + 9 <= |e|
    requires pos - 1 <= m - 4 <= pos + 1
    ensures MarkAt(e, pos) == NoMark
    ensures pos + BestAt(e, pos).1 == m + 4
    ensures BestAt(e, pos).0 == if bit then 25 else 24
  {
    CentredWindow(e, m, bit);
    if m - 4 == pos {
      OffCentreWindow(e, m, bit, pos - 1, NoMark);
      OffCentreWindow(e, m, bit, pos + 1, NoMark);
    } else if m - 4 == pos - 1 {
      OffCentreWindow(e, m, bit, pos, NoMark);
      OffCentreWindow(e, m, bit, pos + 1, NoMark);
    } else {
      OffCentreWindow(e, m, bit, pos, NoMark);
      OffCentreWindow(e, m, bit, pos - 1, NoMark);
    }
  }

  /** From the `k`-th mid-bit transition on, the decoder yields exactly the remaining bits and then stops. */
  lemma {:induction false} DecodesFromBit(e: seq<bool>, bits: seq<bool>, mid: seq<nat>, len: nat, k: nat, pos: nat)
    requires Carries(e, bits, mid) && len + 7 <= |e| && mid[|mid| - 1] < len
    requires k <= |mid| && 1 <= pos
    requires k == |mid| ==> pos == mid[k - 1] + 4
    requires k < |mid| ==> pos - 1 <= mid[k] - 4 <= pos + 1
    ensures DecodeFrom(e, len, pos) == Decoded(bits[k..], false)
    decreases |mid| - k
  {
    hide MarkAt, BestAt, BitAround, DecodeFrom;
    if k == |mid| {
      StopsAfterLast(e, len, pos);
    } else {
      MidsIncrease(mid, k, |mid| - 1);
      assert BitAround(e, mid[k], bits[k]);
      TrackerLocks(e, mid[k], bits[k], pos);
      DecodesFromBit(e, bits, mid, len, k + 1, mid[k] + 4);
      DecodeStep(e, len, pos);
      assert bits[k..] == [bits[k]] + bits[k + 1..];
    }
  }

  /** One turn of the decoder loop. */
  lemma DecodeStep(e: seq<bool>, len: nat, pos: nat)
    requires 1 <= pos && pos + 1 < len && len + 7 <= |e|
    ensures var rest := DecodeFrom(e, len, pos + BestAt(e, pos).1);
            DecodeFrom(e, len, pos) == match MarkAt(e, pos)
                                       case Stop => Decoded([], false)
                                       case Collision => Decoded([], true)
                                       case NoMark => Decoded([BestAt(e, pos).0 % 2 == 1] + rest.bits, rest.collided)
  {
    hide MarkAt, BestAt;
  }

  lemma StopsAfterLast(e: seq<bool>, len: nat, pos: nat)
    requires 1 <= pos && len + 7 <= |e| && pos + 9 <= |e| && forall i | pos + 1 <= i < pos + 9 :: e[i]
    ensures DecodeFrom(e, len, pos) == Decoded([], false)
  {
    if pos + 1 < len {
      assert AllHigh(Window(e, pos + 1)) && !AllLow(Window(e, pos + 1));
    }
  }

  /** Sixteen high samples end the frame: nothing is found beyond them, so the bits found come from before them. */
  lemma {:induction false} FewBitsBeforeHigh(e: seq<bool>, len: nat, pos: nat, high: nat)
    requires 1 <= pos && len + 7 <= |e| && pos <= high + 7 && high + 16 <= len
    requires forall i | high <= i < len :: e[i]
    ensures var n := |DecodeFrom(e, len, pos).bits|;
            if pos + 1 >= high then n == 0 else 7 * n <= high - 2 - pos + 7
    decreases len - pos
  {
    if pos + 1 >= high {
      StopsAfterLast(e, len, pos);
    } else {
      DecodeStep(e, len, pos);
      FewBitsBeforeHigh(e, len, pos + BestAt(e, pos).1, high);
    }
  }

  lemma {:induction false} MidsIncrease(mid: seq<nat>, j: nat, k: nat)
    requires Spaced(mid)
    requires j <= k < |mid|
    ensures 8 * (k - j) <= mid[k] - mid[j] <= 9 * (k - j)
    decreases k - j
  {
    if j < k { MidsIncrease(mid, j, k - 1); }
  }

  /** The decoder returns exactly the bits a sampled frame carries. */
  lemma DecodesExactly(e: seq<bool>, bits: seq<bool>, mid: seq<nat>, len: nat)
    requires Carries(e, bits, mid) && len + 7 <= |e| && mid[|mid| - 1] < len
    ensures Decode(e, len) == Decoded(bits, false)
  {
    DecodesFromBit(e, bits, mid, len, 0, 1);
  }

  // ------------------------------------------------------- frames cut off by a low bus

  /** How long the bus is low when a driver jams it, in samples. */
  const JAMMED: nat := 15

  /** Around `m` the samples before `c` are those of `bit`. */
  ghost predicate BitUpTo(e: seq<bool>, m: nat, bit: bool, c: nat) {
    forall i: nat | m - 4 <= i < m + 4 && i < c && i < |e| :: e[i] == if i < m then !bit else bit
  }

  /** The samples before `c` carry `bits` as far as these come, and then the bus is low. */
  ghost predicate CutAt(e: seq<bool>, bits: seq<bool>, mid: seq<nat>, c: nat) {
    && |mid| == |bits| > 0 && 4 <= mid[0] <= 5 && Spaced(mid) && c <= mid[|mid| - 1] + 5
    && (forall k | 0 <= k < |mid| :: BitUpTo(e, mid[k], bits[k], c))
    && c + JAMMED <= |e| && forall i | c <= i < c + JAMMED :: !e[i]
  }

  /** An all-low late window is a collision, whatever the other two look like. */
  lemma LateWindowLow(e: seq<bool>, len: nat, pos: nat)
    requires 1 <= pos && pos + 1 < len && len + 7 <= |e|
    requires forall i | pos + 1 <= i < pos + 9 :: !e[i]
    ensures DecodeFrom(e, len, pos) == Decoded([], true)
  {
    hide BestAt;
    assert AllLow(Window(e, pos + 1));
  }

  lemma NoWindowHigh(e: seq<bool>, pos: nat, i: nat, j: nat)
    requires 1 <= pos && pos + 9 <= |e| && pos <= i < pos + 7 && !e[i] && pos + 1 <= j < pos + 9 && !e[j]
    ensures MarkAt(e, pos) != Stop
  {
    assert !Window(e, pos)[i - pos] && !Window(e, pos - 1)[i - pos + 1] && !Window(e, pos + 1)[j - pos - 1];
  }

  /** If the bus goes low two samples into the nominal window, the late window is not the best one. */
  lemma LateIsNotBest(e: seq<bool>, pos: nat)
    requires 1 <= pos && pos + 9 <= |e| && forall i | pos + 2 <= i < pos + 9 :: !e[i]
    ensures MarkAt(e, pos) == Collision || BestAt(e, pos).1 <= 8
  {
    var early, nominal, late := Window(e, pos - 1), Window(e, pos), Window(e, pos + 1);
    assert nominal == [e[pos], e[pos + 1], false, false, false, false, false, false];
    assert late == [e[pos + 1], false, false, false, false, false, false, false];
    if e[pos + 1] {
      assert Weight(late) == 4 && Weight(nominal) >= 8;
    }
  }

  /** One step of the decoder where the bus has gone low inside its windows: at most one more bit is made up. */
  lemma CutHere(e: seq<bool>, len: nat, pos: nat, c: nat, m: nat)
    requires 1 <= pos && pos + 1 < len && len + 7 <= |e| && c <= pos + 8 && c + JAMMED <= |e|
    requires (pos <= c || pos == 1) && forall i | c <= i < c + JAMMED :: !e[i]
    requires c > pos + 1 ==> pos + 3 <= m <= pos + 5 && (m < c ==> e[m - 1] != e[m])
    ensures var d := DecodeFrom(e, len, pos); (len >= c + JAMMED ==> d.collided) && (d.collided || |d.bits| == 1)
  {
    hide MarkAt, BestAt;
    if c <= pos + 1 {
      LateWindowLow(e, len, pos);
    } else {
      NoWindowHigh(e, pos, if c <= pos + 6 then pos + 6 else if e[m] then m - 1 else m, pos + 8);
      if c == pos + 2 { LateIsNotBest(e, pos); }
      DecodeStep(e, len, pos);
      var next := pos + BestAt(e, pos).1;
      if MarkAt(e, pos) == NoMark && next + 1 < len {
        LateWindowLow(e, len, next);
      }
    }
  }

  /**
   * A frame cut off by a low bus: if the decoder gets that far it gives up; otherwise it finds about as many bits as
   * there are bit times in the samples it looks at.
   */
  lemma {:induction false} CutDecodes(e: seq<bool>, bits: seq<bool>, mid: seq<nat>, c: nat, len: nat, k: nat, pos: nat)
    requires CutAt(e, bits, mid, c) && len + 7 <= |e| && k <= |mid|
    requires if k == 0 then pos == 1 else pos == mid[k - 1] + 4 <= c
    ensures var d := DecodeFrom(e, len, pos);
            && (len >= c + JAMMED ==> d.collided)
            && (d.collided || d.bits == [] || 8 * |d.bits| < len - pos + (if k == 0 then 8 else 7))
    decreases |mid| - k
  {
    hide MarkAt, BestAt, DecodeFrom, BitUpTo;
    if pos + 1 >= len {
      DecodeEnds(e, len, pos);
    } else if k == |mid| {
      CutHere(e, len, pos, c, 0);
    } else if mid[k] + 4 <= c {
      WholeBit(e, mid[k], bits[k], c);
      TrackerLocks(e, mid[k], bits[k], pos);
      DecodeStep(e, len, pos);
      CutDecodes(e, bits, mid, c, len, k + 1, mid[k] + 4);
    } else {
      assert BitUpTo(e, mid[k], bits[k], c);
      if mid[k] < c { Transition(e, mid[k], bits[k], c); }
      CutHere(e, len, pos, c, mid[k]);
    }
  }

  lemma DecodeEnds(e: seq<bool>, len: nat, pos: nat)
    requires 1 <= pos && len + 7 <= |e| && pos + 1 >= len
    ensures DecodeFrom(e, len, pos) == Decoded([], false)
  {
  }

  lemma WholeBit(e: seq<bool>, m: nat, bit: bool, c: nat)
    requires BitUpTo(e, m, bit, c) && 4 <= m && m + 4 <= c <= |e|
    ensures BitAround(e, m, bit)
  {
  }

  lemma Transition(e: seq<bool>, m: nat, bit: bool, c: nat)
    requires BitUpTo(e, m, bit, c) && 0 < m < c <= |e|
    ensures e[m - 1] != e[m]
  {
  }

  /** As long as the decoder looks only at samples before the cut, it finds a bit at least every nine samples. */
  lemma {:induction false} UncutDecodes(e: seq<bool>, bits: seq<bool>, mid: seq<nat>, c: nat, len: nat, k: nat, pos: nat)
    requires CutAt(e, bits, mid, c) && len + 7 <= |e| && len + 9 <= c && k <= |mid|
    requires if k == 0 then pos == 1 else pos == mid[k - 1] + 4
    ensures var d := DecodeFrom(e, len, pos); !d.collided && len - 1 - pos <= 9 * |d.bits|
    decreases |mid| - k
  {
    hide MarkAt, BestAt, DecodeFrom, BitUpTo;
    if pos + 1 >= len {
      DecodeEnds(e, len, pos);
    } else {
      WholeBit(e, mid[k], bits[k], c);
      TrackerLocks(e, mid[k], bits[k], pos);
      DecodeStep(e, len, pos);
      UncutDecodes(e, bits, mid, c, len, k + 1, mid[k] + 4);
    }
  }

  /** Samples of a sender that takes seven of them to a bit: four low, three high. */
  function FastOnes(n: nat): (e: seq<bool>)
    ensures |e| == n
  {
    seq(n, i => i % 7 >= 4)
  }

  lemma FastAt(n: nat, j: nat, c: nat)
    requires c < 14 && 7 * j + c < n
    ensures FastOnes(n)[7 * j + c] == (4 <= c < 7 || 11 <= c)
  {
    var d := if c < 7 then 0 else 1;
    assert 7 * j + c == 7 * (j + d) + (c - 7 * d);
  }

  lemma FastWindows(n: nat, j: nat)
    requires 7 * j + 10 <= n
    ensures MarkAt(FastOnes(n), 7 * j + 1) == NoMark && BestAt(FastOnes(n), 7 * j + 1) == (21, 7)
  {
    hide FastOnes;
    var e := FastOnes(n);
    FastAt(n, j, 0); FastAt(n, j, 1); FastAt(n, j, 2); FastAt(n, j, 3); FastAt(n, j, 4);
    FastAt(n, j, 5); FastAt(n, j, 6); FastAt(n, j, 7); FastAt(n, j, 8); FastAt(n, j, 9);
    assert Window(e, 7 * j) == [false, false, false, false, true, true, true, false];
    assert Window(e, 7 * j + 1) == [false, false, false, true, true, true, false, false];
    assert Window(e, 7 * j + 2) == [false, false, true, true, true, false, false, false];
  }

  /** On such samples the decoder finds a bit every seven samples, up to the end. */
  lemma {:induction false} FastOnesDecode(len: nat, j: nat, k: nat)
    requires 7 * (j + k) - 5 < len <= 7 * (j + k) + 2 && j + k > 0
    ensures var d := DecodeFrom(FastOnes(len + 7), len, 7 * j + 1); |d.bits| == k && !d.collided
    decreases k
  {
    hide FastOnes, MarkAt, BestAt, DecodeFrom;
    if k > 0 {
      FastWindows(len + 7, j);
      DecodeStep(FastOnes(len + 7), len, 7 * j + 1);
      FastOnesDecode(len, j + 1, k - 1);
      assert 7 * j + 1 + 7 == 7 * (j + 1) + 1;
    }
  }

  /** Of the longest sample buffer the decoder can make 35 data bits, which do not fit into four bytes. */
  lemma LongestDecode()
    ensures var d := Decode(FastOnes(255), 248); |d.bits| == 36 && ReportedLength(d) == 35
  {
    FastOnesDecode(248, 0, 36);
  }
}
