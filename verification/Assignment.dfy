/** Which unit ends up with which short address. */
module Assignment {
  import opened Addressing
  import opened Counting
  import opened Ordered
  import opened Gear
  import opened Search
  import opened CommandLog
  import opened BinarySearch

  // ------------------------------------------------------------------ the result

  /** The random addresses that the units addressed by `arg` draw. */
  function Drawn(bus: Bus, arg: nat): set<nat> {
    set i | 0 <= i < |bus| && Addressed(arg, bus[i]) :: bus[i].drawn
  }

  function Below(drawn: set<nat>, v: nat): set<nat> {
    set w | w in drawn && w < v
  }

  /** Short addresses below `n` that are not kept out of the pool, in ascending order. */
  function Free(kept: set<nat>, n: nat): (free: seq<nat>)
    ensures forall a: nat :: a in free <==> a < n && a !in kept
    ensures forall i | 0 <= i < |free| :: free[i] < n
    ensures forall i, j | 0 <= i < j < |free| :: free[i] < free[j]
  {
    if n == 0 then [] else Free(kept, n - 1) + (if n - 1 in kept then [] else [n - 1])
  }

  /** A unit that is addressed and for whose rank among the random addresses there is a free short address. */
  predicate Served(before: Bus, arg: nat, kept: set<nat>, i: nat)
    requires i < |before|
  {
    Addressed(arg, before[i]) && |Below(Drawn(before, arg), before[i].drawn)| < |Free(kept, 64)|
  }

  /** Units that are served get the free short address of their rank, all others stay what they were. */
  function RankedShort(before: Bus, arg: nat, kept: set<nat>, i: nat): nat
    requires i < |before|
  {
    if Served(before, arg, kept, i) then Free(kept, 64)[|Below(Drawn(before, arg), before[i].drawn)|]
    else before[i].shortAddr
  }

  /** Units before commissioning: nobody is in the initialise state. */
  ghost predicate Ready(bus: Bus) {
    AllWellFormed(bus) && forall i | 0 <= i < |bus| :: bus[i].mode == Disabled
  }

  function Least(x: nat, y: nat): nat {
    if x < y then x else y
  }

  /** Every unit has its final short address, and `cnt` different random addresses were served. */
  ghost predicate Ranked(before: Bus, arg: nat, kept: set<nat>, after: Bus, cnt: nat) {
    && |after| == |before| && cnt == Least(|Drawn(before, arg)|, |Free(kept, 64)|)
    && forall i | 0 <= i < |before| ::
         after[i].mode == Disabled && after[i].shortAddr == RankedShort(before, arg, kept, i)
  }

  /**
   * What becomes of the units if one of them drew 0: every search ends at 1, so that the whole pool is spent on the
   * units that drew 1, which are left with the last free address; nobody else gets one.
   */
  function StuckShort(before: Bus, arg: nat, kept: set<nat>, k: nat, i: nat): nat
    requires i < |before| && k <= |Free(kept, 64)|
  {
    if Addressed(arg, before[i]) && before[i].drawn == 1 && k > 0 then Free(kept, 64)[k - 1] else before[i].shortAddr
  }

  ghost predicate Stuck(before: Bus, arg: nat, kept: set<nat>, after: Bus, cnt: nat) {
    && |after| == |before| && cnt == |Free(kept, 64)|
    && forall i | 0 <= i < |before| ::
         after[i].mode == Disabled && after[i].shortAddr == StuckShort(before, arg, kept, cnt, i)
  }

  ghost predicate Commissioned(before: Bus, arg: nat, kept: set<nat>, after: Bus, cnt: nat) {
    if 0 in Drawn(before, arg) then Stuck(before, arg, kept, after, cnt) else Ranked(before, arg, kept, after, cnt)
  }

  // ------------------------------------------------------------------ when the result is free of clashes

  /** No two units have the same short address. */
  ghost predicate NoClash(bus: Bus) {
    forall i, j | 0 <= i < j < |bus| && bus[i].shortAddr != NONE :: bus[i].shortAddr != bus[j].shortAddr
  }

  /** A unit that is given a short address; if somebody drew 0 it is the last free one, for those that drew 1. */
  predicate Assigned(before: Bus, arg: nat, kept: set<nat>, i: nat)
    requires i < |before|
  {
    if 0 in Drawn(before, arg) then Addressed(arg, before[i]) && before[i].drawn == 1 && |Free(kept, 64)| > 0
    else Served(before, arg, kept, i)
  }

  /** The short addresses that units have in the end and that were given to them. */
  function Handed(before: Bus, arg: nat, kept: set<nat>): seq<nat> {
    var drawn, free := Drawn(before, arg), Free(kept, 64);
    if 0 !in drawn then free[..Least(|drawn|, |free|)]
    else if 1 in drawn && |free| > 0 then free[|free| - 1..]
    else []
  }

  /** The short address of a unit in the end. */
  function FinalShort(before: Bus, arg: nat, kept: set<nat>, i: nat): nat
    requires i < |before|
  {
    if 0 in Drawn(before, arg) then StuckShort(before, arg, kept, |Free(kept, 64)|, i)
    else RankedShort(before, arg, kept, i)
  }

  lemma CommissionedShort(before: Bus, arg: nat, kept: set<nat>, after: Bus, cnt: nat)
    requires Commissioned(before, arg, kept, after, cnt)
    ensures |after| == |before|
    ensures forall i: nat | i < |before| :: after[i].shortAddr == FinalShort(before, arg, kept, i)
  {
    hide Free, Drawn, RankedShort, Addressed;
  }

  lemma BelowGrows(drawn: set<nat>, v: nat, w: nat)
    requires v in drawn && v < w
    ensures |Below(drawn, v)| < |Below(drawn, w)|
  {
    assert v in Below(drawn, w) && v !in Below(drawn, v);
    SubsetSize(Below(drawn, v), Below(drawn, w));
  }

  lemma BelowIsProper(drawn: set<nat>, v: nat)
    requires v in drawn
    ensures |Below(drawn, v)| < |drawn|
  {
    assert v !in Below(drawn, v);
    SubsetSize(Below(drawn, v), drawn);
  }

  /** Every rank is that of some random address. */
  lemma {:induction false} RankIsTaken(drawn: set<nat>, r: nat) returns (v: nat)
    requires r < |drawn|
    ensures v in drawn && |Below(drawn, v)| == r
    decreases r
  {
    var m := MinOf(drawn);
    if r == 0 {
      v := m;
      assert Below(drawn, m) == {};
    } else {
      v := RankIsTaken(drawn - {m}, r - 1);
      assert Below(drawn, v) == Below(drawn - {m}, v) + {m};
    }
  }

  lemma AssignedGetsHanded(before: Bus, arg: nat, kept: set<nat>, i: nat)
    requires i < |before| && Assigned(before, arg, kept, i)
    ensures FinalShort(before, arg, kept, i) in Handed(before, arg, kept)
    ensures FinalShort(before, arg, kept, i) < 64 && FinalShort(before, arg, kept, i) !in kept
  {
    hide Free;
    var drawn, free := Drawn(before, arg), Free(kept, 64);
    if 0 in drawn {
      assert Handed(before, arg, kept)[0] == free[|free| - 1] && free[|free| - 1] in free;
    } else {
      BelowIsProper(drawn, before[i].drawn);
      var r := |Below(drawn, before[i].drawn)|;
      assert Handed(before, arg, kept)[r] == free[r] && free[r] in free;
    }
  }

  lemma HandedIsAssigned(before: Bus, arg: nat, kept: set<nat>, a: nat) returns (i: nat)
    requires a in Handed(before, arg, kept)
    ensures i < |before| && Assigned(before, arg, kept, i) && FinalShort(before, arg, kept, i) == a
  {
    hide Free;
    var drawn, handed := Drawn(before, arg), Handed(before, arg, kept);
    var r :| 0 <= r < |handed| && handed[r] == a;
    var v := 1;
    if 0 !in drawn { v := RankIsTaken(drawn, r); }
    i :| 0 <= i < |before| && Addressed(arg, before[i]) && before[i].drawn == v;
  }

  /** Units that are given a short address share it exactly if they drew the same random address. */
  lemma SameDraw(before: Bus, arg: nat, kept: set<nat>, i: nat, j: nat)
    requires i < |before| && j < |before| && Assigned(before, arg, kept, i) && Assigned(before, arg, kept, j)
    ensures FinalShort(before, arg, kept, i) == FinalShort(before, arg, kept, j) <==> before[i].drawn == before[j].drawn
  {
    hide Free;
    var drawn := Drawn(before, arg);
    assert before[i].drawn in drawn && before[j].drawn in drawn;
    if before[i].drawn < before[j].drawn {
      BelowGrows(drawn, before[i].drawn, before[j].drawn);
    } else if before[j].drawn < before[i].drawn {
      BelowGrows(drawn, before[j].drawn, before[i].drawn);
    }
  }

  lemma NotAssignedStays(before: Bus, arg: nat, kept: set<nat>, i: nat)
    requires i < |before| && !Assigned(before, arg, kept, i)
    ensures FinalShort(before, arg, kept, i) == before[i].shortAddr
  {
  }

  /** The units that are given a short address drew different random ones. */
  ghost predicate DrewApart(before: Bus, arg: nat, kept: set<nat>) {
    forall i, j | 0 <= i < j < |before| && Assigned(before, arg, kept, i) && Assigned(before, arg, kept, j) ::
      before[i].drawn != before[j].drawn
  }

  /** The other units have different short addresses. */
  ghost predicate OthersApart(before: Bus, arg: nat, kept: set<nat>) {
    forall i, j | 0 <= i < j < |before| && !Assigned(before, arg, kept, i) && !Assigned(before, arg, kept, j)
                  && before[i].shortAddr != NONE ::
      before[i].shortAddr != before[j].shortAddr
  }

  /** None of the other units has a short address that is given to somebody. */
  ghost predicate OthersHeard(before: Bus, arg: nat, kept: set<nat>) {
    forall i | 0 <= i < |before| && !Assigned(before, arg, kept, i) ::
      before[i].shortAddr !in Handed(before, arg, kept)
  }

  /**
   * After commissioning the short addresses are distinct exactly if the units that are given one drew different random
   * addresses, the others had different short addresses before, and none of these is given to somebody. If a unit drew
   * 0, those that are given one are those that drew 1, so that there is at most one of them.
   */
  lemma ClashFreeIff(before: Bus, arg: nat, kept: set<nat>, after: Bus, cnt: nat)
    requires Commissioned(before, arg, kept, after, cnt)
    ensures NoClash(after) <==>
            DrewApart(before, arg, kept) && OthersApart(before, arg, kept) && OthersHeard(before, arg, kept)
  {
    hide Free, Handed, Assigned, FinalShort, Commissioned;
    CommissionedShort(before, arg, kept, after, cnt);
    if NoClash(after) {
      NoClashNeeds(before, arg, kept, after);
    } else {
      var i, j :| 0 <= i < j < |after| && after[i].shortAddr != NONE && after[i].shortAddr == after[j].shortAddr;
      ClashNeeds(before, arg, kept, i, j);
    }
  }

  lemma ClashNeeds(before: Bus, arg: nat, kept: set<nat>, i: nat, j: nat)
    requires i < j < |before| && FinalShort(before, arg, kept, i) != NONE
    requires FinalShort(before, arg, kept, i) == FinalShort(before, arg, kept, j)
    ensures !(DrewApart(before, arg, kept) && OthersApart(before, arg, kept) && OthersHeard(before, arg, kept))
  {
    hide Free, Handed, Assigned, FinalShort;
    if Assigned(before, arg, kept, i) {
      AssignedGetsHanded(before, arg, kept, i);
      if Assigned(before, arg, kept, j) {
        SameDraw(before, arg, kept, i, j);
      } else {
        NotAssignedStays(before, arg, kept, j);
      }
    } else {
      NotAssignedStays(before, arg, kept, i);
      if Assigned(before, arg, kept, j) {
        AssignedGetsHanded(before, arg, kept, j);
      } else {
        NotAssignedStays(before, arg, kept, j);
      }
    }
  }

  lemma NoClashNeeds(before: Bus, arg: nat, kept: set<nat>, after: Bus)
    requires |after| == |before|
    requires forall i: nat | i < |before| :: after[i].shortAddr == FinalShort(before, arg, kept, i)
    requires NoClash(after)
    ensures DrewApart(before, arg, kept) && OthersApart(before, arg, kept) && OthersHeard(before, arg, kept)
  {
    hide Free, Handed, Assigned, FinalShort;
    forall i, j | 0 <= i < j < |before| && Assigned(before, arg, kept, i) && Assigned(before, arg, kept, j)
      ensures before[i].drawn != before[j].drawn
    {
      SameDraw(before, arg, kept, i, j);
      AssignedGetsHanded(before, arg, kept, i);
    }
    forall i, j | 0 <= i < j < |before| && !Assigned(before, arg, kept, i) && !Assigned(before, arg, kept, j)
                  && before[i].shortAddr != NONE
      ensures before[i].shortAddr != before[j].shortAddr
    {
      NotAssignedStays(before, arg, kept, i);
      NotAssignedStays(before, arg, kept, j);
    }
    forall i | 0 <= i < |before| && !Assigned(before, arg, kept, i)
      ensures before[i].shortAddr !in Handed(before, arg, kept)
    {
      if before[i].shortAddr in Handed(before, arg, kept) {
        var j := HandedIsAssigned(before, arg, kept, before[i].shortAddr);
        NotAssignedStays(before, arg, kept, i);
        AssignedGetsHanded(before, arg, kept, j);
      }
    }
  }

  /** What a scan can find: only addresses that a unit answers for, and all that just one unit answers for. */
  ghost predicate ScanFinds(answered: set<nat>, bus: Bus, n: nat) {
    forall a: nat | a < n :: (a in answered ==> Present(bus, a)) && (Present(bus, a) && !Shared(bus, a) ==> a in answered)
  }

  lemma HandedIsFree(before: Bus, arg: nat, kept: set<nat>, a: nat)
    requires a in Handed(before, arg, kept)
    ensures a < 64 && a !in kept
  {
    hide Free;
    assert a in Free(kept, 64);
  }

  /** The short addresses that units have. */
  function Held(bus: Bus): set<nat> {
    set i | 0 <= i < |bus| && bus[i].shortAddr != NONE :: bus[i].shortAddr
  }

  /**
   * Where only units without a short address are addressed, all others answer the scan, and addresses did not clash
   * before, the old addresses stay, new ones were free, and all are distinct exactly if those who are given one drew
   * different random addresses.
   */
  lemma FinalShortsDistinct(before: Bus, arg: nat, answered: set<nat>, after: Bus, cnt: nat)
    requires Ready(before) && ScanFinds(answered, before, 64) && NoClash(before)
    requires forall i | 0 <= i < |before| :: Addressed(arg, before[i]) <==> before[i].shortAddr == NONE
    requires forall i | 0 <= i < |before| && before[i].shortAddr != NONE :: AnswersScan(before[i], before[i].shortAddr)
    requires Commissioned(before, arg, answered, after, cnt)
    ensures |after| == |before|
    ensures forall i | 0 <= i < |before| && before[i].shortAddr != NONE :: after[i].shortAddr == before[i].shortAddr
    ensures forall i | 0 <= i < |before| && before[i].shortAddr == NONE != after[i].shortAddr ::
              after[i].shortAddr < 64 && after[i].shortAddr !in Held(before)
    ensures NoClash(after) <==> DrewApart(before, arg, answered)
  {
    hide Free, Handed, FinalShort, Commissioned;
    CommissionedShort(before, arg, answered, after, cnt);
    ClashFreeIff(before, arg, answered, after, cnt);
    forall i | 0 <= i < |before| && before[i].shortAddr != NONE
      ensures !Assigned(before, arg, answered, i) && after[i].shortAddr == before[i].shortAddr
      ensures before[i].shortAddr !in Handed(before, arg, answered)
    {
      NotAssignedStays(before, arg, answered, i);
      HeldIsAnswered(before, answered, i);
      if before[i].shortAddr in Handed(before, arg, answered) {
        HandedIsFree(before, arg, answered, before[i].shortAddr);
      }
    }
    hide Assigned;
    if NONE in Handed(before, arg, answered) { HandedIsFree(before, arg, answered, NONE); }
    forall i | 0 <= i < |before| && before[i].shortAddr == NONE != after[i].shortAddr
      ensures after[i].shortAddr < 64 && after[i].shortAddr !in Held(before)
    {
      if Assigned(before, arg, answered, i) {
        AssignedGetsHanded(before, arg, answered, i);
      } else {
        NotAssignedStays(before, arg, answered, i);
      }
    }
  }

  /** The scan finds a short address that one unit has and answers for. */
  lemma HeldIsAnswered(before: Bus, answered: set<nat>, i: nat)
    requires AllWellFormed(before) && ScanFinds(answered, before, 64) && NoClash(before)
    requires i < |before| && before[i].shortAddr != NONE && AnswersScan(before[i], before[i].shortAddr)
    ensures before[i].shortAddr in answered
  {
    var a := before[i].shortAddr;
    assert WellFormed(before[i]) && Present(before, a) && !Shared(before, a);
  }

  /** Documented gear that are told to join if they have no short address are such units. */
  lemma GearIsHeard(before: Bus)
    requires Ready(before) && forall i | 0 <= i < |before| :: before[i].conduct == Documented
    ensures forall i | 0 <= i < |before| :: Addressed(0xFF, before[i]) <==> before[i].shortAddr == NONE
    ensures forall i | 0 <= i < |before| && before[i].shortAddr != NONE :: AnswersScan(before[i], before[i].shortAddr)
  {
  }

  /** A scan of documented gear that does not share addresses finds exactly the addresses they have. */
  lemma ScanFindsHeld(before: Bus, answered: set<nat>)
    requires AllWellFormed(before) && ScanFinds(answered, before, 64) && NoClash(before)
    requires forall i | 0 <= i < |before| :: before[i].conduct == Documented
    requires forall a | a in answered :: a < 64
    ensures answered == Held(before)
  {
    forall a | a in Held(before) ensures a in answered {
      var i :| 0 <= i < |before| && before[i].shortAddr != NONE && before[i].shortAddr == a;
      HeldIsAnswered(before, answered, i);
    }
    forall a | a in answered ensures a in Held(before) {
      assert Present(before, a);
    }
  }

  /**
   * Adding gear to a system: with documented gear of which those without a short address are told to join, nobody loses
   * an address. If addresses did not clash before, the new ones were free, and all are distinct exactly if the units that
   * are given one drew different random addresses.
   */
  lemma NewGearJoins(before: Bus, answered: set<nat>, after: Bus, cnt: nat)
    requires Ready(before) && forall i | 0 <= i < |before| :: before[i].conduct == Documented
    requires ScanFinds(answered, before, 64) && forall a | a in answered :: a < 64
    requires Commissioned(before, 0xFF, answered, after, cnt)
    ensures Joined(before, after)
  {
    hide Free, Handed, FinalShort, Commissioned, Assigned;
    GearIsHeard(before);
    CommissionedShort(before, 0xFF, answered, after, cnt);
    forall i | 0 <= i < |before| && before[i].shortAddr != NONE ensures after[i].shortAddr == before[i].shortAddr {
      NotAddressedKeeps(before, 0xFF, answered, i);
    }
    if NoClash(before) {
      FinalShortsDistinct(before, 0xFF, answered, after, cnt);
      ScanFindsHeld(before, answered);
    }
  }

  lemma NotAddressedKeeps(before: Bus, arg: nat, kept: set<nat>, i: nat)
    requires i < |before| && !Addressed(arg, before[i])
    ensures FinalShort(before, arg, kept, i) == before[i].shortAddr
  {
    hide Free;
  }

  /** What commissioning with 0xFF does to documented gear, in terms of the gear alone. */
  ghost predicate Joined(before: Bus, after: Bus) {
    && |after| == |before|
    && (forall i | 0 <= i < |before| && before[i].shortAddr != NONE :: after[i].shortAddr == before[i].shortAddr)
    && (NoClash(before) ==>
          && (forall i | 0 <= i < |before| && before[i].shortAddr == NONE != after[i].shortAddr ::
                after[i].shortAddr < 64 && after[i].shortAddr !in Held(before))
          && (NoClash(after) <==> DrewApart(before, 0xFF, Held(before))))
  }

  lemma {:induction false} AllFree(n: nat)
    ensures |Free({}, n)| == n && forall i | 0 <= i < n :: Free({}, n)[i] == i
    decreases n
  {
    if n > 0 { AllFree(n - 1); }
  }

  /** What commissioning with 0 does to at most 64 documented gears that draw different random addresses. */
  ghost predicate Numbered(before: Bus, after: Bus) {
    |after| == |before|
    && forall i | 0 <= i < |before| :: after[i].shortAddr == |Below(Drawn(before, 0), before[i].drawn)|
  }

  /**
   * Readdressing a whole system: up to 64 documented gears that draw different random addresses other than 0 are
   * numbered from 0 on in the order of these, whatever addresses they had.
   */
  lemma AllReaddressed(before: Bus, after: Bus, cnt: nat)
    requires Commissioned(before, 0, {}, after, cnt) && |before| <= 64
    requires forall i | 0 <= i < |before| :: before[i].conduct == Documented && before[i].drawn != 0
    ensures Numbered(before, after) && cnt == |Drawn(before, 0)|
    ensures (forall i, j | 0 <= i < j < |before| :: before[i].drawn != before[j].drawn) ==> NoClash(after)
  {
    hide Free;
    AllFree(64);
    DrawnFits(before, 0);
    var drawn := Drawn(before, 0);
    forall i | 0 <= i < |before| ensures after[i].shortAddr == |Below(drawn, before[i].drawn)| {
      BelowIsProper(drawn, before[i].drawn);
    }
    if forall i, j | 0 <= i < j < |before| :: before[i].drawn != before[j].drawn {
      forall i, j | 0 <= i < j < |before| ensures after[i].shortAddr != after[j].shortAddr {
        if before[i].drawn < before[j].drawn {
          BelowGrows(drawn, before[i].drawn, before[j].drawn);
        } else {
          BelowGrows(drawn, before[j].drawn, before[i].drawn);
        }
      }
    }
  }

  lemma {:induction false} DrawnFits(bus: Bus, arg: nat)
    ensures |Drawn(bus, arg)| <= |bus|
    decreases |bus|
  {
    if bus == [] {
      assert Drawn(bus, arg) == {};
    } else {
      var k := |bus| - 1;
      DrawnFits(bus[..k], arg);
      SubsetSize(Drawn(bus, arg), Drawn(bus[..k], arg) + {bus[k].drawn});
    }
  }

  /**
   * A device that keeps its short address but does not answer the scan, and one that joins, did not draw 0 and is
   * given the same short address.
   */
  lemma SilentDeviceClashes(silent: Unit, joining: Unit, arg: nat, after: Bus, cnt: nat)
    requires silent.shortAddr == 0 && silent.conduct == LeftOpen(false, false)
    requires Addressed(arg, joining) && joining.shortAddr == NONE && joining.drawn != 0
    requires Commissioned([silent, joining], arg, {}, after, cnt)
    ensures ScanFinds({}, [silent, joining], 64) && NoClash([silent, joining])
    ensures |after| == 2 && after[0].shortAddr == 0 == after[1].shortAddr
  {
    hide Free;
    var before := [silent, joining];
    assert before[0] == silent && before[1] == joining;
    assert Drawn(before, arg) == {joining.drawn};
    assert Below(Drawn(before, arg), joining.drawn) == {};
    AllFree(64);
  }

  // ------------------------------------------------------------------ before the searches

  /** Initialised and randomised: the addressed units take part, with their new random addresses. */
  ghost predicate Prepared(before: Bus, arg: nat, after: Bus) {
    && |after| == |before|
    && forall i | 0 <= i < |before| ::
         after[i] == (if Addressed(arg, before[i]) then before[i].(mode := Enabled, random := before[i].drawn)
                      else before[i]).(search := after[i].search, armed := after[i].armed)
  }

  /** Units that have left the initialise state, and are otherwise the same. */
  function Rested(bus: Bus): (rested: Bus)
    ensures |rested| == |bus|
  {
    seq(|bus|, i requires 0 <= i < |bus| => bus[i].(mode := Disabled))
  }

  /** An input device may still be in the initialise state; the first command takes it out of that. */
  ghost predicate CanStart(family: Family, bus: Bus) {
    AllWellFormed(bus) && (family == ControlGear ==> forall i | 0 <= i < |bus| :: bus[i].mode == Disabled)
  }

  lemma RestedIsReady(family: Family, bus: Bus)
    requires CanStart(family, bus)
    ensures Ready(Rested(bus)) && (family == ControlGear ==> Rested(bus) == bus)
  {
  }

  lemma RestedAlike(bus: Bus, arg: nat, kept: set<nat>)
    ensures Drawn(Rested(bus), arg) == Drawn(bus, arg)
    ensures forall i | 0 <= i < |bus| ::
              Addressed(arg, Rested(bus)[i]) == Addressed(arg, bus[i]) && Rested(bus)[i].drawn == bus[i].drawn
              && Rested(bus)[i].shortAddr == bus[i].shortAddr
  {
    hide Free;
    var rested := Rested(bus);
    forall i | 0 <= i < |bus| ensures Addressed(arg, rested[i]) == Addressed(arg, bus[i]) {
    }
    assert forall v :: v in Drawn(rested, arg) <==> v in Drawn(bus, arg);
  }

  /** Short addresses do not depend on what was left over from an earlier round. */
  lemma CommissionedFromRest(bus: Bus, arg: nat, kept: set<nat>, after: Bus, cnt: nat)
    requires Commissioned(Rested(bus), arg, kept, after, cnt)
    ensures Commissioned(bus, arg, kept, after, cnt)
  {
    hide Free, Drawn, Rested, Addressed;
    RestedAlike(bus, arg, kept);
  }

  lemma ScanFromRest(answered: set<nat>, bus: Bus, n: nat)
    requires ScanFinds(answered, Rested(bus), n)
    ensures ScanFinds(answered, bus, n)
  {
    var rested := Rested(bus);
    forall a: nat | a < n ensures Present(rested, a) == Present(bus, a) && Shared(rested, a) == Shared(bus, a) {
      assert forall i | 0 <= i < |bus| :: AnswersScan(rested[i], a) == AnswersScan(bus[i], a);
    }
  }

  lemma UnitPrepared(u: Unit, arg: nat, first: Command)
    requires first == Terminate || (first == Other && u.mode == Disabled)
    ensures var c, r := Initialise(arg), Randomise;
            var v := if first == Terminate then Deliver(u, Terminate) else u;
            var w := Deliver(Deliver(Deliver(Deliver(v, c), c), r), r);
            w == (if Addressed(arg, u) then u.(mode := Enabled, random := u.drawn)
                  else u.(mode := Disabled)).(armed := w.armed)
  {
  }

  /** The opening commands prepare the bus; input devices are told to terminate an earlier round first. */
  lemma OpeningPrepares(bus: Bus, arg: nat, first: Command)
    requires AllWellFormed(bus)
    requires first == Terminate || (first == Other && forall i | 0 <= i < |bus| :: bus[i].mode == Disabled)
    ensures var b0 := if first == Terminate then AfterCommand(bus, Terminate) else bus;
            var after := AfterCommand(AfterCommand(b0, Initialise(arg)), Randomise);
            Prepared(Rested(bus), arg, after) && AllWellFormed(after)
  {
    hide Deliver, Addressed;
    var rested := Rested(bus);
    var b0 := if first == Terminate then AfterCommand(bus, Terminate) else bus;
    var after := AfterCommand(AfterCommand(b0, Initialise(arg)), Randomise);
    forall i | 0 <= i < |bus|
      ensures after[i] == (if Addressed(arg, rested[i]) then rested[i].(mode := Enabled, random := rested[i].drawn)
                           else rested[i]).(armed := after[i].armed)
      ensures WellFormed(after[i])
    {
      UnitPrepared(bus[i], arg, first);
      AddressedAlike(bus[i], arg);
      assert WellFormed(bus[i]) && rested[i] == bus[i].(mode := Disabled);
    }
  }

  lemma AddressedAlike(u: Unit, arg: nat)
    ensures Addressed(arg, u.(mode := Disabled)) == Addressed(arg, u)
  {
  }

  /** Asking for the status changes nothing, and the reply tells whether a unit answers for the address. */
  lemma StatusQuery(before: Bus, arg: nat, bus: Bus, family: Family, log: seq<Exchange>, a: nat, rv: int)
    requires Prepared(before, arg, bus) && AllWellFormed(bus) && a < 64
    requires Plausible(family, bus, log, Exchange(FrameOf(family, QueryStatus(a)), rv))
    ensures var after := AfterCommand(bus, QueryStatus(a)); Prepared(before, arg, after) && AllWellFormed(after)
    ensures (rv >= 0 ==> Present(before, a)) && (Present(before, a) && !Shared(before, a) ==> rv >= 0)
  {
    FrameMeans(family, QueryStatus(a));
    hide Meaning, FrameOf;
    forall i | 0 <= i < |bus| ensures AnswersScan(bus[i], a) == AnswersScan(before[i], a) {
    }
    assert Present(bus, a) == Present(before, a);
  }

  // ------------------------------------------------------------------ while addresses are handed out

  /** Units that drew one of `done` are settled and out of the search; no other random address is smaller. */
  ghost predicate Midway(before: Bus, arg: nat, kept: set<nat>, bus: Bus, done: set<nat>) {
    && |bus| == |before| && AllWellFormed(bus)
    && done <= Drawn(before, arg) && |done| <= |Free(kept, 64)|
    && (forall v, w | v in done && w in Drawn(before, arg) && w < v :: w in done)
    && (forall i: nat | i < |bus| :: UnitMidway(before, arg, kept, bus, done, i))
  }

  ghost predicate UnitMidway(before: Bus, arg: nat, kept: set<nat>, bus: Bus, done: set<nat>, i: nat)
    requires |bus| == |before| && i < |bus|
  {
    if !Addressed(arg, before[i]) then bus[i].mode == Disabled && bus[i].shortAddr == before[i].shortAddr
    else
      && bus[i].random == before[i].drawn
      && if before[i].drawn in done
         then bus[i].mode == Withdrawn && bus[i].shortAddr == RankedShort(before, arg, kept, i)
         else bus[i].mode == Enabled && bus[i].shortAddr == before[i].shortAddr
  }

  lemma PreparedIsMidway(before: Bus, arg: nat, kept: set<nat>, bus: Bus)
    requires Ready(before) && Prepared(before, arg, bus) && AllWellFormed(bus)
    ensures Midway(before, arg, kept, bus, {})
  {
    hide Addressed, Free, RankedShort;
  }

  lemma SearchKeepsMidway(before: Bus, arg: nat, kept: set<nat>, bus: Bus, done: set<nat>, after: Bus)
    requires Midway(before, arg, kept, bus, done) && SameButSearch(bus, after) && AllWellFormed(after)
    ensures Midway(before, arg, kept, after, done)
  {
    hide RankedShort, Free, Addressed;
    forall i: nat | i < |after| ensures UnitMidway(before, arg, kept, after, done, i) {
      assert UnitMidway(before, arg, kept, bus, done, i);
      assert after[i] == bus[i].(search := after[i].search, armed := after[i].armed);
    }
  }

  /** The address the search found is the next one in the order of random addresses. */
  lemma FoundIsNext(before: Bus, arg: nat, kept: set<nat>, bus: Bus, done: set<nat>, adr: nat)
    requires Midway(before, arg, kept, bus, done) && 0 !in Drawn(before, arg) && adr == Target(bus) && adr < SPACE
    ensures adr in Drawn(before, arg) && adr !in done && Below(Drawn(before, arg), adr) == done
  {
    hide Free, RankedShort, Addressed;
    LowestIsMinimum(bus);
    var j: nat :| j < |bus| && bus[j].mode == Enabled && bus[j].random == Lowest(bus);
    assert UnitMidway(before, arg, kept, bus, done, j);
    forall v | v in Drawn(before, arg) ensures v in done <==> v < adr {
      var i :| 0 <= i < |before| && Addressed(arg, before[i]) && before[i].drawn == v;
      assert UnitMidway(before, arg, kept, bus, done, i);
    }
  }

  /** Programming and withdrawing settle exactly the units that drew the address that was found. */
  lemma AssignOne(before: Bus, arg: nat, kept: set<nat>, bus: Bus, done: set<nat>, adr: nat)
    requires Midway(before, arg, kept, bus, done) && 0 !in Drawn(before, arg)
    requires adr == Target(bus) && adr < SPACE && Register(bus, adr) && |done| < |Free(kept, 64)|
    ensures adr !in done && |done + {adr}| == |done| + 1
    ensures var sa := Free(kept, 64)[|done|];
            sa < 64
            && Midway(before, arg, kept, AfterCommand(AfterCommand(bus, Program(2 * sa + 1)), Withdraw), done + {adr})
  {
    hide Lowest, Free, RankedShort, Deliver, Addressed, Drawn;
    FoundIsNext(before, arg, kept, bus, done, adr);
    var sa := Free(kept, 64)[|done|];
    assert sa in Free(kept, 64);
    var after := AfterCommand(AfterCommand(bus, Program(2 * sa + 1)), Withdraw);
    forall i: nat | i < |bus| ensures UnitMidway(before, arg, kept, after, done + {adr}, i) && WellFormed(after[i]) {
      assert UnitMidway(before, arg, kept, bus, done, i) && WellFormed(bus[i]);
      if Addressed(arg, before[i]) && before[i].drawn == adr {
        UnitAssigned(bus[i], sa);
        NextShort(before, arg, kept, i, done);
      } else {
        UnitPassedOver(bus[i], adr, sa);
      }
    }
    assert forall w | w in Drawn(before, arg) && w < adr :: w in Below(Drawn(before, arg), adr);
  }

  lemma NextShort(before: Bus, arg: nat, kept: set<nat>, i: nat, done: set<nat>)
    requires i < |before| && Addressed(arg, before[i]) && |done| < |Free(kept, 64)|
    requires Below(Drawn(before, arg), before[i].drawn) == done
    ensures RankedShort(before, arg, kept, i) == Free(kept, 64)[|done|]
  {
  }

  lemma UnitAssigned(u: Unit, sa: nat)
    requires u.mode != Disabled && u.random == u.search && sa < 64
    ensures Deliver(Deliver(u, Program(2 * sa + 1)), Withdraw) == u.(shortAddr := sa, mode := Withdrawn, armed := None)
  {
  }

  lemma UnitPassedOver(u: Unit, adr: nat, sa: nat)
    requires u.mode != Disabled ==> u.search == adr && u.random != adr
    ensures Deliver(Deliver(u, Program(2 * sa + 1)), Withdraw) == u.(armed := None)
  {
  }

  // ------------------------------------------------------------------ while the search is stuck

  /** With a unit that drew 0, after `k` rounds: only the units that drew 1 have noticed anything. */
  ghost predicate StuckMidway(before: Bus, arg: nat, kept: set<nat>, bus: Bus, k: nat) {
    && |bus| == |before| && AllWellFormed(bus) && k <= |Free(kept, 64)|
    && (forall i: nat | i < |bus| :: UnitStuck(before, arg, kept, bus, k, i))
  }

  ghost predicate UnitStuck(before: Bus, arg: nat, kept: set<nat>, bus: Bus, k: nat, i: nat)
    requires |bus| == |before| && i < |bus| && k <= |Free(kept, 64)|
  {
    && bus[i].shortAddr == StuckShort(before, arg, kept, k, i)
    && if !Addressed(arg, before[i]) then bus[i].mode == Disabled
       else
         && bus[i].random == before[i].drawn
         && bus[i].mode == if before[i].drawn == 1 && k > 0 then Withdrawn else Enabled
  }

  lemma PreparedIsStuck(before: Bus, arg: nat, kept: set<nat>, bus: Bus)
    requires Ready(before) && Prepared(before, arg, bus) && AllWellFormed(bus)
    ensures StuckMidway(before, arg, kept, bus, 0)
  {
    hide Addressed, Free;
  }

  lemma SearchKeepsStuck(before: Bus, arg: nat, kept: set<nat>, bus: Bus, k: nat, after: Bus)
    requires StuckMidway(before, arg, kept, bus, k) && SameButSearch(bus, after) && AllWellFormed(after)
    ensures StuckMidway(before, arg, kept, after, k)
  {
    hide StuckShort, Free, Addressed;
    forall i: nat | i < |after| ensures UnitStuck(before, arg, kept, after, k, i) {
      assert UnitStuck(before, arg, kept, bus, k, i);
      assert after[i] == bus[i].(search := after[i].search, armed := after[i].armed);
    }
  }

  /** The unit that drew 0 takes part for ever, so that every search ends at 1. */
  lemma StuckAtOne(before: Bus, arg: nat, kept: set<nat>, bus: Bus, k: nat)
    requires StuckMidway(before, arg, kept, bus, k) && 0 in Drawn(before, arg)
    ensures Target(bus) == 1
  {
    hide StuckShort, Free, Addressed;
    LowestIsMinimum(bus);
    var i: nat :| i < |before| && Addressed(arg, before[i]) && before[i].drawn == 0;
    assert UnitStuck(before, arg, kept, bus, k, i);
  }

  lemma AssignStuck(before: Bus, arg: nat, kept: set<nat>, bus: Bus, k: nat)
    requires StuckMidway(before, arg, kept, bus, k) && Register(bus, 1) && k < |Free(kept, 64)|
    ensures var sa := Free(kept, 64)[k];
            sa < 64
            && StuckMidway(before, arg, kept, AfterCommand(AfterCommand(bus, Program(2 * sa + 1)), Withdraw), k + 1)
  {
    hide Free, Deliver, Addressed;
    var sa := Free(kept, 64)[k];
    assert sa in Free(kept, 64);
    var after := AfterCommand(AfterCommand(bus, Program(2 * sa + 1)), Withdraw);
    forall i: nat | i < |bus| ensures UnitStuck(before, arg, kept, after, k + 1, i) && WellFormed(after[i]) {
      assert UnitStuck(before, arg, kept, bus, k, i) && WellFormed(bus[i]);
      if Addressed(arg, before[i]) && before[i].drawn == 1 {
        UnitAssigned(bus[i], sa);
      } else {
        UnitPassedOver(bus[i], 1, sa);
      }
    }
  }

  // ------------------------------------------------------------------ afterwards

  lemma Settles(before: Bus, arg: nat, kept: set<nat>, bus: Bus, done: set<nat>)
    requires Midway(before, arg, kept, bus, done) && 0 !in Drawn(before, arg)
    requires forall i: nat | i < |bus| :: bus[i].shortAddr == RankedShort(before, arg, kept, i)
    requires |done| == Least(|Drawn(before, arg)|, |Free(kept, 64)|)
    ensures Commissioned(before, arg, kept, AfterCommand(bus, Terminate), |done|)
  {
    hide Free, RankedShort, Addressed, Drawn;
  }

  lemma NobodyLeft(before: Bus, arg: nat, kept: set<nat>, bus: Bus, done: set<nat>)
    requires Midway(before, arg, kept, bus, done) && 0 !in Drawn(before, arg) && Target(bus) == SPACE
    ensures Commissioned(before, arg, kept, AfterCommand(bus, Terminate), |done|)
  {
    hide Free, RankedShort, Addressed;
    LowestIsMinimum(bus);
    forall v | v in Drawn(before, arg) ensures v in done {
      var i :| 0 <= i < |before| && Addressed(arg, before[i]) && before[i].drawn == v;
      assert UnitMidway(before, arg, kept, bus, done, i);
    }
    assert Drawn(before, arg) == done;
    forall i: nat | i < |bus| ensures bus[i].shortAddr == RankedShort(before, arg, kept, i) {
      assert UnitMidway(before, arg, kept, bus, done, i);
      if !Addressed(arg, before[i]) { NotAddressedStays(before, arg, kept, i); }
    }
    Settles(before, arg, kept, bus, done);
  }

  lemma NotAddressedStays(before: Bus, arg: nat, kept: set<nat>, i: nat)
    requires i < |before| && !Addressed(arg, before[i])
    ensures RankedShort(before, arg, kept, i) == before[i].shortAddr
  {
  }

  lemma NothingFree(before: Bus, arg: nat, kept: set<nat>, bus: Bus, done: set<nat>)
    requires Midway(before, arg, kept, bus, done) && 0 !in Drawn(before, arg) && |done| == |Free(kept, 64)|
    ensures Commissioned(before, arg, kept, AfterCommand(bus, Terminate), |done|)
  {
    hide Free, RankedShort, Addressed, Drawn;
    SubsetSize(done, Drawn(before, arg));
    forall i: nat | i < |bus| ensures bus[i].shortAddr == RankedShort(before, arg, kept, i) {
      assert UnitMidway(before, arg, kept, bus, done, i);
      if !Addressed(arg, before[i]) {
        NotAddressedStays(before, arg, kept, i);
      } else if before[i].drawn !in done {
        NotReached(before, arg, kept, bus, done, i);
      }
    }
    Settles(before, arg, kept, bus, done);
  }

  lemma NotReached(before: Bus, arg: nat, kept: set<nat>, bus: Bus, done: set<nat>, i: nat)
    requires Midway(before, arg, kept, bus, done) && |done| == |Free(kept, 64)|
    requires i < |before| && Addressed(arg, before[i]) && before[i].drawn !in done
    ensures RankedShort(before, arg, kept, i) == before[i].shortAddr
  {
    hide Free, Addressed;
    assert before[i].drawn in Drawn(before, arg);
    assert done <= Below(Drawn(before, arg), before[i].drawn);
    SubsetSize(done, Below(Drawn(before, arg), before[i].drawn));
  }

  lemma StuckRunsDry(before: Bus, arg: nat, kept: set<nat>, bus: Bus, k: nat)
    requires StuckMidway(before, arg, kept, bus, k) && 0 in Drawn(before, arg) && k == |Free(kept, 64)|
    ensures Commissioned(before, arg, kept, AfterCommand(bus, Terminate), k)
  {
    hide Free, StuckShort, Addressed, Drawn;
    forall i: nat | i < |bus| ensures bus[i].shortAddr == StuckShort(before, arg, kept, k, i) {
      assert UnitStuck(before, arg, kept, bus, k, i);
    }
  }
}
