/** The search register the master writes byte by byte, and how many bytes one step of the search changes. */
module Search {
  import opened Addressing
  import opened Counting
  import opened Gear

  function High(v: nat): (b: nat)
    ensures b < 256
  {
    v / 0x10000 % 0x100
  }

  function Middle(v: nat): (b: nat)
    ensures b < 256
  {
    v / 0x100 % 0x100
  }

  function Low(v: nat): (b: nat)
    ensures b < 256
  {
    v % 0x100
  }

  /** Every unit taking part in the initialisation has `v` in its search register. */
  ghost predicate Register(bus: Bus, v: nat) {
    forall i | 0 <= i < |bus| :: bus[i].mode != Disabled ==> bus[i].search == v
  }

  /** The buses differ in nothing but search registers and half-heard repeated commands. */
  ghost predicate SameButSearch(before: Bus, after: Bus) {
    && |before| == |after|
    && forall i | 0 <= i < |before| :: after[i] == before[i].(search := after[i].search, armed := after[i].armed)
  }

  ghost predicate AllWellFormed(bus: Bus) {
    forall i | 0 <= i < |bus| :: WellFormed(bus[i])
  }

  /** The register value after writing the high, middle or low byte of `v`. */
  function Patched(r: nat, c: Command): nat {
    match c
    case SearchH(b) => b * 0x10000 + r % 0x10000
    case SearchM(b) => r / 0x10000 * 0x10000 + b * 0x100 + r % 0x100
    case SearchL(b) => r / 0x100 * 0x100 + b
    case _ => r
  }

  predicate IsWrite(c: Command) {
    c.SearchH? || c.SearchM? || c.SearchL?
  }

  lemma WriteEffect(bus: Bus, c: Command, r: nat)
    requires IsWrite(c) && c.byte < 256
    ensures SameButSearch(bus, Send(bus, c))
    ensures Register(bus, r) ==> Register(Send(bus, c), Patched(r, c))
    ensures AllWellFormed(bus) ==> AllWellFormed(Send(bus, c))
  {
    hide Deliver, Patched, WellFormed;
    forall i | 0 <= i < |bus|
      ensures Deliver(bus[i], c) == bus[i].(search := if bus[i].mode != Disabled then Patched(bus[i].search, c)
                                                      else bus[i].search, armed := None)
      ensures WellFormed(bus[i]) ==> WellFormed(Deliver(bus[i], c))
    {
      WriteUnit(bus[i], c);
    }
  }

  lemma PatchedFits(r: nat, c: Command)
    requires IsWrite(c) && c.byte < 256 && r < SPACE
    ensures Patched(r, c) < SPACE
  {
  }

  /** Bytes put together are taken apart again. */
  lemma ByteParts(h: nat, m: nat, l: nat)
    requires m < 256 && l < 256
    ensures (h * 0x10000 + m * 0x100 + l) / 0x100 == h * 0x100 + m && (h * 0x10000 + m * 0x100 + l) % 0x100 == l
    ensures (h * 0x10000 + m * 0x100 + l) / 0x10000 == h && (h * 0x10000 + m * 0x100 + l) % 0x10000 == m * 0x100 + l
  {
    assert h * 0x10000 + m * 0x100 + l == (h * 0x100 + m) * 0x100 + l;
  }

  lemma BytesOf(v: nat)
    ensures v % 0x10000 == Middle(v) * 0x100 + Low(v)
    ensures v % SPACE == High(v) * 0x10000 + Middle(v) * 0x100 + Low(v)
  {
    var a := v / 0x100;
    var b := a / 0x100;
    assert v == b * 0x10000 + a % 0x100 * 0x100 + v % 0x100;
    ByteParts(b, a % 0x100, v % 0x100);
    LowParts(b / 0x100, b % 0x100, a % 0x100, v % 0x100);
    assert v == b / 0x100 * SPACE + b % 0x100 * 0x10000 + a % 0x100 * 0x100 + v % 0x100;
  }

  lemma LowParts(c: nat, h: nat, m: nat, l: nat)
    requires h < 256 && m < 256 && l < 256
    ensures (c * SPACE + h * 0x10000 + m * 0x100 + l) % SPACE == h * 0x10000 + m * 0x100 + l
  {
  }

  /** Three writes complete the value whatever was in the register before. */
  lemma ThreeBytes(r: nat, v: nat)
    ensures Patched(Patched(Patched(r, SearchH(High(v))), SearchM(Middle(v))), SearchL(Low(v))) == v % SPACE
  {
    hide High, Middle, Low, Patched;
    BytesOf(v);
    BytesOf(r);
    PatchHigh(r, High(v));
    PatchByte(High(v), Middle(r), Low(r), High(v), Middle(v), Low(v));
  }

  lemma PatchHigh(r: nat, h: nat)
    ensures Patched(r, SearchH(h)) == h * 0x10000 + r % 0x10000
  {
  }

  lemma WholeWrite(bus: Bus, v: nat)
    ensures var after := Send(Send(Send(bus, SearchH(High(v))), SearchM(Middle(v))), SearchL(Low(v)));
            && SameButSearch(bus, after) && Register(after, v % SPACE)
            && (AllWellFormed(bus) ==> AllWellFormed(after))
  {
    hide High, Middle, Low, Patched, Deliver;
    var after := Send(Send(Send(bus, SearchH(High(v))), SearchM(Middle(v))), SearchL(Low(v)));
    forall i | 0 <= i < |bus|
      ensures after[i] == bus[i].(search := after[i].search, armed := after[i].armed)
      ensures after[i].mode != Disabled ==> after[i].search == v % SPACE
      ensures WellFormed(bus[i]) ==> WellFormed(after[i])
    {
      WholeWriteUnit(bus[i], v);
    }
  }

  lemma WholeWriteUnit(u: Unit, v: nat)
    ensures var t := Deliver(Deliver(Deliver(u, SearchH(High(v))), SearchM(Middle(v))), SearchL(Low(v)));
            && t == u.(search := t.search, armed := t.armed)
            && (t.mode != Disabled ==> t.search == v % SPACE)
            && (WellFormed(u) ==> WellFormed(t))
  {
    hide High, Middle, Low, Patched, Deliver;
    var u1 := Deliver(u, SearchH(High(v)));
    var u2 := Deliver(u1, SearchM(Middle(v)));
    WriteUnit(u, SearchH(High(v)));
    WriteUnit(u1, SearchM(Middle(v)));
    WriteUnit(u2, SearchL(Low(v)));
    ThreeBytes(u.search, v);
  }

  lemma WriteUnit(u: Unit, c: Command)
    requires IsWrite(c)
    ensures Deliver(u, c) == u.(search := if u.mode != Disabled then Patched(u.search, c) else u.search, armed := None)
    ensures c.byte < 256 && WellFormed(u) ==> WellFormed(Deliver(u, c))
  {
    if c.byte < 256 && u.search < SPACE {
      PatchedFits(u.search, c);
    }
  }

  /** Writing only the bytes in which `to` differs from `from` has the effect of writing all of them. */
  function PatchDiff(r: nat, to: nat, from: nat): nat {
    var r1 := if High(to) != High(from) then Patched(r, SearchH(High(to))) else r;
    var r2 := if Middle(to) != Middle(from) then Patched(r1, SearchM(Middle(to))) else r1;
    if Low(to) != Low(from) then Patched(r2, SearchL(Low(to))) else r2
  }

  lemma DiffIsWhole(to: nat, from: nat)
    ensures PatchDiff(from % SPACE, to, from) == to % SPACE
  {
    hide High, Middle, Low, Patched;
    BytesOf(from);
    BytesOf(to);
    PatchByte(High(from), Middle(from), Low(from), High(to), Middle(to), Low(to));
  }

  lemma PatchByte(h: nat, m: nat, l: nat, h': nat, m': nat, l': nat)
    requires h < 256 && m < 256 && l < 256 && h' < 256 && m' < 256 && l' < 256
    ensures Patched(h * 0x10000 + m * 0x100 + l, SearchH(h')) == h' * 0x10000 + m * 0x100 + l
    ensures Patched(h' * 0x10000 + m * 0x100 + l, SearchM(m')) == h' * 0x10000 + m' * 0x100 + l
    ensures Patched(h' * 0x10000 + m' * 0x100 + l, SearchL(l')) == h' * 0x10000 + m' * 0x100 + l'
  {
    ByteParts(h, m, l);
    ByteParts(h', m, l);
    ByteParts(h', m', l);
  }

  // ------------------------------------------------------------------ how many bytes change

  function ChangedBytes(to: nat, from: nat): nat {
    (if High(to) != High(from) then 1 else 0) + (if Middle(to) != Middle(from) then 1 else 0)
    + (if Low(to) != Low(from) then 1 else 0)
  }

  /** Two numbers in the same block of 256. */
  lemma SameBlock(from: nat, to: nat, x: nat)
    requires 0x100 * x <= from < 0x100 * x + 0x100 && 0x100 * x <= to < 0x100 * x + 0x100
    ensures from / 0x100 == x == to / 0x100 && from / 0x10000 == to / 0x10000
  {
    assert from / 0x100 == x && to / 0x100 == x;
    NestedDivision(from);
    NestedDivision(to);
  }

  lemma NestedDivision(v: nat)
    ensures v / 0x100 / 0x100 == v / 0x10000
  {
    var a := v / 0x100;
    var b := a / 0x100;
    assert v == b * 0x10000 + (a % 0x100 * 0x100 + v % 0x100);
  }

  lemma SmallestSteps(q: nat, h: nat, up: bool)
    requires h in {1, 2, 4}
    ensures var from := (4 * q + 2) * h;
            var to := if up then from + h else from - h;
            from / 0x100 == to / 0x100 && from / 0x10000 == to / 0x10000
  {
    var from := (4 * q + 2) * h;
    var to := if up then from + h else from - h;
    SameBlock(from, to, if h == 1 then q / 64 else if h == 2 then q / 32 else q / 16);
  }

  /** A step within a byte leaves the higher bytes alone. */
  lemma SmallStep(q: nat, h: nat, up: bool)
    requires h in {1, 2, 4, 8, 16, 32, 64}
    ensures var from := (4 * q + 2) * h;
            var to := if up then from + h else from - h;
            from / 0x100 == to / 0x100 && from / 0x10000 == to / 0x10000
  {
    if h <= 4 {
      SmallestSteps(q, h, up);
    } else {
      var from := (4 * q + 2) * h;
      var to := if up then from + h else from - h;
      SameBlock(from, to, if h == 8 then q / 8 else if h == 16 then q / 4 else if h == 32 then q / 2 else q);
    }
  }

  /** A step of half a byte crosses into the next byte, but not further. */
  lemma BorderStep(q: nat, up: bool)
    ensures var from := (4 * q + 2) * 0x80;
            var to := if up then from + 0x80 else from - 0x80;
            from / 0x10000 == to / 0x10000
  {
    var from := (4 * q + 2) * 0x80;
    var to := if up then from + 0x80 else from - 0x80;
    var x := q / 0x80;
    assert 0x10000 * x <= to < 0x10000 * x + 0x10000 && 0x10000 * x <= from < 0x10000 * x + 0x10000;
  }

  /** A step within the middle byte is a step within a byte, 256 times as large. */
  lemma MiddleStep(q: nat, h: nat, up: bool)
    requires h in {1, 2, 4, 8, 16, 32, 64}
    ensures var from := (4 * q + 2) * (h * 0x100);
            var to := if up then from + h * 0x100 else from - h * 0x100;
            from / 0x10000 == to / 0x10000
  {
    SmallStep(q, h, up);
    var from' := (4 * q + 2) * h;
    var to' := if up then from' + h else from' - h;
    assert (4 * q + 2) * (h * 0x100) == from' * 0x100;
    assert from' * 0x100 / 0x10000 == from' / 0x100 && to' * 0x100 / 0x10000 == to' / 0x100;
  }

  /** Multiples of a byte size have no lower bytes. */
  lemma StepKeepsLowBytes(q: nat, h: nat, up: bool)
    requires h % 0x100 == 0
    ensures var from := (4 * q + 2) * h;
            var to := if up then from + h else from - h;
            && from % 0x100 == 0 == to % 0x100
            && (h % 0x10000 == 0 ==> from % 0x10000 == 0 == to % 0x10000)
  {
    var m := 4 * q + 2;
    var m' := if up then m + 1 else m - 1;
    assert m' * h == if up then m * h + h else m * h - h;
    MultipleOf(m, h / 0x100, 0x100);
    MultipleOf(m', h / 0x100, 0x100);
    if h % 0x10000 == 0 {
      MultipleOf(m, h / 0x10000, 0x10000);
      MultipleOf(m', h / 0x10000, 0x10000);
    }
  }

  lemma MultipleOf(m: nat, c: nat, n: nat)
    requires n == 0x100 || n == 0x10000
    ensures m * (c * n) % n == 0
  {
    assert m * (c * n) == (m * c) * n;
    var x := m * c;
    assert x * n % n == 0;
  }

  lemma SmallPowers(k: nat)
    requires k <= 7
    ensures k <= 6 ==> Pow2(k) in {1, 2, 4, 8, 16, 32, 64}
    ensures k == 7 ==> Pow2(k) == 0x80
  {
    assert Pow2(0) == 1 && Pow2(1) == 2 && Pow2(2) == 4;
    assert Pow2(3) == 8 && Pow2(4) == 16 && Pow2(5) == 32;
    assert Pow2(6) == 64 && Pow2(7) == 128;
  }

  lemma BytePowers(k: nat)
    ensures k >= 8 ==> Pow2(k) == Pow2(k - 8) * 0x100
    ensures k >= 16 ==> Pow2(k) % 0x10000 == 0
  {
    SmallPowers(7);
    Pow2Adds(7, 1);
    assert Pow2(1) == 2;
    if k >= 8 { Pow2Adds(k - 8, 8); }
    if k >= 16 { Pow2Adds(k - 16, 8); }
  }

  /** The value before and after one step of the search: it moves by the bit below the lowest one set. */
  function StepFrom(q: nat, k: nat): nat {
    (4 * q + 2) * Pow2(k)
  }

  function StepTo(q: nat, k: nat, up: bool): nat {
    if up then StepFrom(q, k) + Pow2(k) else (4 * q + 1) * Pow2(k)
  }

  lemma StepDown(q: nat, h: nat)
    ensures (4 * q + 2) * h - h == (4 * q + 1) * h
  {
  }

  lemma StepKeepsHighBytes(q: nat, k: nat, up: bool)
    requires k <= 14
    ensures StepFrom(q, k) / 0x10000 == StepTo(q, k, up) / 0x10000
    ensures k <= 6 ==> StepFrom(q, k) / 0x100 == StepTo(q, k, up) / 0x100
  {
    hide Pow2;
    StepDown(q, Pow2(k));
    if k <= 6 {
      SmallPowers(k);
      SmallStep(q, Pow2(k), up);
    } else if k == 7 {
      SmallPowers(7);
      BorderStep(q, up);
    } else {
      BytePowers(k);
      SmallPowers(k - 8);
      MiddleStep(q, Pow2(k - 8), up);
    }
  }

  lemma StepHasLowZeros(q: nat, k: nat, up: bool)
    requires k >= 8
    ensures StepFrom(q, k) % 0x100 == 0 == StepTo(q, k, up) % 0x100
    ensures k >= 16 ==> StepFrom(q, k) % 0x10000 == 0 == StepTo(q, k, up) % 0x10000
  {
    hide Pow2;
    StepDown(q, Pow2(k));
    BytePowers(k);
    StepKeepsLowBytes(q, Pow2(k), up);
  }

  /** One step of the search changes two bytes only when it crosses a byte border, and one otherwise. */
  lemma StepChangesFewBytes(q: nat, k: nat, up: bool)
    requires k <= 22
    ensures ChangedBytes(StepTo(q, k, up), StepFrom(q, k)) <= if k == 7 || k == 15 then 2 else 1
  {
    hide StepTo, StepFrom, High, Middle, Low;
    if k <= 14 { StepKeepsHighBytes(q, k, up); }
    if k >= 8 { StepHasLowZeros(q, k, up); }
    SameBytes(StepTo(q, k, up), StepFrom(q, k));
  }

  lemma SameBytes(to: nat, from: nat)
    ensures to / 0x100 == from / 0x100 ==> High(to) == High(from) && Middle(to) == Middle(from)
    ensures to / 0x10000 == from / 0x10000 ==> High(to) == High(from)
    ensures to % 0x100 == 0 == from % 0x100 ==> Low(to) == Low(from)
    ensures to % 0x10000 == 0 == from % 0x10000 ==> Middle(to) == Middle(from) && Low(to) == Low(from)
  {
    BytesOf(to);
    BytesOf(from);
    NestedDivision(to);
    NestedDivision(from);
  }
}
