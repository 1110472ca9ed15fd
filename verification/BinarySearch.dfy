/** What the binary search for the smallest random address rests on. */
module BinarySearch {
  import opened Addressing
  import opened Counting
  import opened Gear
  import opened Search

  ghost predicate AnyAnswer(bus: Bus) {
    exists i | 0 <= i < |bus| :: Answers(bus[i])
  }

  lemma AnswerMeansLowest(bus: Bus, v: nat)
    requires Register(bus, v) && v < SPACE
    ensures AllWellFormed(bus) ==> (AnyAnswer(bus) <==> Lowest(bus) <= v)
  {
    if AllWellFormed(bus) {
      LowestIsMinimum(bus);
      if Lowest(bus) <= v {
        var i :| 0 <= i < |bus| && bus[i].mode == Enabled && bus[i].random == Lowest(bus);
        assert Answers(bus[i]);
      }
    }
  }

  lemma SameAnswers(before: Bus, after: Bus, v: nat)
    requires SameButSearch(before, after) && Register(before, v) && Register(after, v)
    ensures AnyAnswer(before) <==> AnyAnswer(after)
  {
    forall i | 0 <= i < |before| ensures Answers(before[i]) <==> Answers(after[i]) {
      assert after[i] == before[i].(search := after[i].search, armed := after[i].armed);
    }
  }

  lemma CompareEffect(bus: Bus, v: nat)
    requires Register(bus, v)
    ensures SameButSearch(bus, Send(bus, Command.Compare)) && Register(Send(bus, Command.Compare), v)
    ensures AllWellFormed(bus) ==> AllWellFormed(Send(bus, Command.Compare))
    ensures forall start | SameButSearch(start, bus) :: SameButSearch(start, Send(bus, Command.Compare))
  {
  }

  lemma CompareReply(family: Family, bus: Bus, log: seq<Exchange>, e: Exchange)
    requires Meaning(family, e.frame) == Command.Compare && Plausible(family, bus, log, e)
    ensures e.reply == NO_REPLY || (Heard(family, e.reply) && AnyAnswer(bus))
    ensures e.reply == NO_REPLY && MissedCompare(family, log) ==> !AnyAnswer(bus)
    ensures e.reply == NO_REPLY ==> MissedCompare(family, log + [e])
  {
  }

  lemma {:induction false} LowestSame(before: Bus, after: Bus)
    requires SameButSearch(before, after)
    ensures Lowest(after) == Lowest(before)
    decreases |before|
  {
    if before != [] {
      assert forall i | 0 <= i < |before| - 1 :: after[1..][i] == after[i + 1] && before[1..][i] == before[i + 1];
      LowestSame(before[1..], after[1..]);
      assert after[0] == before[0].(search := after[0].search, armed := after[0].armed);
    }
  }

  lemma SameChain(a: Bus, b: Bus, c: Bus)
    requires SameButSearch(a, b) && SameButSearch(b, c)
    ensures SameButSearch(a, c)
  {
    forall i | 0 <= i < |a| ensures c[i] == a[i].(search := c[i].search, armed := c[i].armed) {
      assert b[i] == a[i].(search := b[i].search, armed := b[i].armed);
    }
  }

  /** What the search returns: the lowest random address, or `SPACE` for none; a lowest address of 0 is reported as 1. */
  function Target(bus: Bus): nat {
    if Lowest(bus) == 0 then 1 else Lowest(bus)
  }

  /** The search finds the lowest random address exactly if no unit taking part has drawn 0. */
  lemma FindsLowest(bus: Bus)
    requires AllWellFormed(bus)
    ensures Target(bus) == Lowest(bus) <==> forall i | 0 <= i < |bus| && bus[i].mode == Enabled :: bus[i].random != 0
  {
    LowestIsMinimum(bus);
  }

  /** One unit with random address 0 is enough for the search to miss it. */
  lemma ZeroIsMissed(u: Unit)
    requires u.mode == Enabled && u.random == 0
    ensures Lowest([u]) == 0 && Target([u]) == 1
  {
  }

  lemma TargetInRange(bus: Bus)
    ensures 1 <= Target(bus) <= SPACE
  {
  }

  lemma TargetCompare(bus: Bus, start: Bus, v: nat)
    requires Lowest(bus) == Lowest(start) && 1 <= v < SPACE
    ensures Lowest(bus) <= v % SPACE <==> Target(start) <= v
  {
  }

  /** The lowest address is known to within this distance of the address about to be compared. */
  function Span(addsub: nat): nat {
    if addsub > 0 then 2 * addsub else 1
  }

  /** Register writes made in the turns of the search before step `k`. */
  function HalvingWrites(k: int): int {
    if k >= 22 then 0 else 21 - k + (if k < 14 then 1 else 0) + (if k < 6 then 1 else 0)
  }

  /** The step the search is about to make, and the address it compares before: an odd multiple of twice the step. */
  function StepSize(k: int): nat {
    if k >= 0 then Pow2(k) else 0
  }

  function Centre(q: nat, k: int): nat {
    if k >= 0 then StepFrom(q, k) else 2 * q + 1
  }

  lemma FirstStep(adr: nat)
    requires adr == 0x800000
    ensures StepSize(22) == 0x400000 && Centre(0, 22) == adr && ChangedBytes(adr, adr) == 0
  {
    SmallPowers(6);
    BytePowers(22);
    BytePowers(14);
    assert Pow2(6) == 64;
  }

  lemma StepSizeIs(k: int)
    requires k >= -1
    ensures StepSize(k) > 0 <==> k >= 0
  {
  }

  lemma AtMostThreeBytes(to: nat, from: nat)
    ensures ChangedBytes(to, from) <= 3
  {
  }

  /** Moving by one step leads to the next comparison, whose span is this step. */
  lemma NextStep(q: nat, k: nat, up: bool)
    requires k <= 22
    ensures var from, h := Centre(q, k), StepSize(k);
            && from >= h
            && Centre(if up then 2 * q + 1 else 2 * q, k - 1) == (if up then from + h else from - h)
            && h / 2 == StepSize(k - 1) && Span(h / 2) == h
  {
    var h := Pow2(k);
    Multiples(q, h);
    if k > 0 {
      Doubles(q, Pow2(k - 1));
    }
  }

  lemma Multiples(q: nat, h: nat)
    ensures (4 * q + 2) * h + h == (4 * q + 3) * h && (4 * q + 2) * h - h == (4 * q + 1) * h && (4 * q + 2) * h >= h
  {
  }

  lemma Doubles(q: nat, g: nat)
    ensures (4 * q + 1) * (2 * g) == (4 * (2 * q) + 2) * g && (4 * q + 3) * (2 * g) == (4 * (2 * q + 1) + 2) * g
  {
  }

  /** Moving by one step changes few bytes of the register. */
  lemma StepIsCheap(q: nat, k: nat, up: bool)
    requires k <= 22
    ensures var from, h := Centre(q, k), StepSize(k);
            from >= h && ChangedBytes(if up then from + h else from - h, from) <= if k == 7 || k == 15 then 2 else 1
  {
    hide ChangedBytes;
    Multiples(q, Pow2(k));
    StepChangesFewBytes(q, k, up);
  }
}
