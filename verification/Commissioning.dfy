/**
 * Finding random addresses by binary search and handing out short addresses. The master only sees replies; what the
 * units do is followed through the log of frames. Every method holds for arbitrary replies, and says more when the
 * replies are ones that units starting out as `bus0` can cause.
 */
module Commissioning {
  import opened Addressing
  import opened Gear
  import opened Search
  import opened CommandLog
  import opened BinarySearch
  import opened Assignment

  /** The short addresses kept out of the pool: those that answered the scan, unless all gear is readdressed. */
  function Kept(family: Family, initArg: nat, answered: set<nat>): set<nat> {
    if family == InputDevice || initArg != 0 then answered else {}
  }

  /** Replies that tell that somebody answered: a collision, a garbled frame, the answer YES, or from input devices any. */
  predicate IsActivity(family: Family, reply: int) {
    reply == -3 || reply == -105 || (family == ControlGear && reply == 255) || (family == InputDevice && reply >= 0)
  }

  class Master {
    const family: Family
    ghost const bus0: Bus
    ghost var log: seq<Exchange>

    constructor (family: Family, ghost bus0: Bus)
      ensures this.family == family && this.bus0 == bus0 && log == []
    {
      this.family := family;
      this.bus0 := bus0;
      log := [];
    }

    ghost function Now(): (bus: Bus)
      reads this
      ensures |bus| == |bus0|
    {
      BusAfter(family, bus0, log)
    }

    ghost predicate Honest()
      reads this
    {
      Faithful(family, bus0, log)
    }

    /** What was programmed and what answered so far did not change. */
    twostate predicate SameRecords()
      reads this
    {
      Programmed(family, log) == old(Programmed(family, log)) && Answered(family, log) == old(Answered(family, log))
    }

    /** Sends a frame and waits for a reply, which may be anything. */
    method Transfer(frame: Frame) returns (rv: int)
      modifies this
      ensures log == old(log) + [Exchange(frame, rv)]
    {
      rv := *;
      log := log + [Exchange(frame, rv)];
    }

    /** A 16 bit command. */
    method Cmd(cmd: nat, arg: nat) returns (rv: int)
      requires cmd < 0x10000 && arg < 256
      modifies this
      ensures match CmdFrame(cmd, arg)
              case None => rv == 104 && log == old(log)
              case Some(f) =>
                if SentTwice(cmd) then exists r :: log == old(log) + [Exchange(f, r), Exchange(f, rv)]
                else log == old(log) + [Exchange(f, rv)]
    {
      var cmd0, cmd1;
      if HasBit(cmd, 0x100) {
        if !CheckYaaaaaa(cmd / 2 % 256) {
          cmd0 := cmd % 256;
          cmd1 := arg;
        } else {
          return 104;
        }
      } else {
        if CheckYaaaaaa(arg) {
          cmd0 := (arg * 2 + 1) % 256;
          cmd1 := cmd % 256;
        } else {
          return 104;
        }
      }
      ghost var first := 0;
      if HasBit(cmd, 0x200) {
        rv := Transfer([cmd0, cmd1]);
        first := rv;
      }
      rv := Transfer([cmd0, cmd1]);
      assert HasBit(cmd, 0x200) ==>
          log == old(log) + [Exchange([cmd0, cmd1], first), Exchange([cmd0, cmd1], rv)];
    }

    /** Sends one command in the frames of this family; those that need it are sent twice. */
    method Issue(c: Command) returns (rv: int)
      requires ValidCommand(c)
      modifies this
      ensures var f := FrameOf(family, c);
              if NeedsRepeat(c) then exists r :: log == old(log) + [Exchange(f, r), Exchange(f, rv)]
              else log == old(log) + [Exchange(f, rv)]
      ensures Now() == AfterCommand(old(Now()), c)
      ensures Programmed(family, log) == old(Programmed(family, log)) + (if c.Program? then [c.data / 2] else [])
      ensures Answered(family, log)
           == old(Answered(family, log)) + (if c.QueryStatus? && rv >= 0 then {c.address} else {})
      ensures Honest() ==> old(Honest())
      ensures Honest() && !NeedsRepeat(c) ==> Plausible(family, old(Now()), old(log), Exchange(FrameOf(family, c), rv))
    {
      hide Meaning, Plausible, Send, GearCode, InputCode, Argument, CmdFrame, SentTwice, FrameOf;
      ghost var f := FrameOf(family, c);
      FrameMeans(family, c);
      if family == ControlGear {
        GearFrames(c);
        SmallCode(c);
        rv := Cmd(GearCode(c), Argument(c));
      } else if c.QueryStatus? {
        InputFrames(c);
        rv := Transfer([2 * c.address + 1, QUERY_STATUS, 0]);
      } else {
        InputFrames(c);
        ghost var first := 0;
        if NeedsRepeat(c) {
          rv := Transfer([0xFF, InputCode(c), Argument(c)]);
          first := rv;
        }
        rv := Transfer([0xFF, InputCode(c), Argument(c)]);
        assert NeedsRepeat(c) ==> log == old(log) + [Exchange(f, first), Exchange(f, rv)];
      }
      if NeedsRepeat(c) {
        ghost var r :| log == old(log) + [Exchange(f, r), Exchange(f, rv)];
        LogGrows(family, bus0, old(log), Exchange(f, r));
        LogGrows(family, bus0, old(log) + [Exchange(f, r)], Exchange(f, rv));
        assert log == old(log) + [Exchange(f, r)] + [Exchange(f, rv)];
      } else {
        LogGrows(family, bus0, old(log), Exchange(f, rv));
      }
    }

    /** Writes one byte of the search register in every unit. */
    method WriteSearch(c: Command, ghost r: nat)
      requires IsWrite(c) && c.byte < 256
      modifies this
      ensures |log| == |old(log)| + 1 && SameRecords()
      ensures Now() == Send(old(Now()), c) && SameButSearch(old(Now()), Now())
      ensures Register(old(Now()), r) ==> Register(Now(), Patched(r, c))
      ensures AllWellFormed(old(Now())) ==> AllWellFormed(Now())
      ensures Honest() ==> old(Honest())
    {
      hide FrameOf, Send, Patched, BusAfter, Faithful, Programmed, Answered, Plausible, WellFormed;
      var _ := Issue(c);
      WriteEffect(old(Now()), c, r);
    }

    method SetSearchaddr(adr: nat)
      modifies this
      ensures |log| == |old(log)| + 3 && SameRecords()
      ensures SameButSearch(old(Now()), Now()) && Register(Now(), adr % SPACE)
      ensures AllWellFormed(old(Now())) ==> AllWellFormed(Now())
      ensures Honest() ==> old(Honest())
    {
      hide Send, BusAfter, Faithful, Programmed, Answered, WellFormed, Patched;
      WholeWrite(Now(), adr);
      WriteSearch(SearchH(adr / 0x10000 % 0x100), 0);
      WriteSearch(SearchM(adr / 0x100 % 0x100), 0);
      WriteSearch(SearchL(adr % 0x100), 0);
    }

    /** Writes only the bytes that differ; the register ends up as if all had been written. */
    method SetSearchaddrDiff(adrNew: nat, adrCurrent: nat)
      requires Register(Now(), adrCurrent % SPACE)
      modifies this
      ensures |log| == |old(log)| + ChangedBytes(adrNew, adrCurrent) && SameRecords()
      ensures SameButSearch(old(Now()), Now()) && Register(Now(), adrNew % SPACE)
      ensures AllWellFormed(old(Now())) ==> AllWellFormed(Now())
      ensures Honest() ==> old(Honest())
    {
      hide Send, BusAfter, Faithful, Programmed, Answered, WellFormed, Patched;
      DiffIsWhole(adrNew, adrCurrent);
      ghost var r := adrCurrent % SPACE;
      if adrNew / 0x10000 % 0x100 != adrCurrent / 0x10000 % 0x100 {
        WriteSearch(SearchH(adrNew / 0x10000 % 0x100), r);
        r := Patched(r, SearchH(High(adrNew)));
      }
      if adrNew / 0x100 % 0x100 != adrCurrent / 0x100 % 0x100 {
        WriteSearch(SearchM(adrNew / 0x100 % 0x100), r);
        r := Patched(r, SearchM(Middle(adrNew)));
      }
      if adrNew % 0x100 != adrCurrent % 0x100 {
        WriteSearch(SearchL(adrNew % 0x100), r);
        r := Patched(r, SearchL(Low(adrNew)));
      }
    }

    /**
     * Asks whether some random address is at most the search address. Any activity on the bus is a yes; only two
     * requests in a row that bring none are a no. Every unit has `adr` in its register when this is called, and losing
     * the first of two replies does not change the answer.
     */
    method Compare(ghost adr: nat) returns (yes: bool)
      requires Register(Now(), adr % SPACE)
      modifies this
      ensures |old(log)| < |log| <= |old(log)| + 2 && SameRecords()
      ensures SameButSearch(old(Now()), Now()) && Register(Now(), adr % SPACE)
      ensures AllWellFormed(old(Now())) ==> AllWellFormed(Now())
      ensures yes <==> IsActivity(family, log[|log| - 1].reply)
      ensures |log| == |old(log)| + 2 ==> !IsActivity(family, log[|old(log)|].reply)
      ensures !yes ==> |log| == |old(log)| + 2
      ensures Honest() ==> old(Honest())
      ensures Honest() && AllWellFormed(old(Now())) ==> (yes <==> Lowest(old(Now())) <= adr % SPACE)
    {
      hide FrameOf, BusAfter, Programmed, Answered, Faithful, Send, Meaning, Plausible, Answers, WellFormed, Lowest;
      ghost var start, v := Now(), adr % SPACE;
      AnswerMeansLowest(start, v);
      FrameMeans(family, Command.Compare);
      var retry := 2;
      while retry > 0
        invariant 0 <= retry <= 2 && |log| == |old(log)| + 2 - retry && SameRecords()
        invariant SameButSearch(start, Now()) && Register(Now(), v)
        invariant AllWellFormed(start) ==> AllWellFormed(Now())
        invariant Honest() ==> old(Honest())
        invariant retry == 1 && Honest() ==> MissedCompare(family, log)
        invariant retry == 0 && Honest() ==> !AnyAnswer(start)
        invariant forall k | |old(log)| <= k < |log| :: !IsActivity(family, log[k].reply)
      {
        ghost var before, logBefore := Now(), log;
        SameAnswers(start, before, v);
        CompareEffect(before, v);
        var rv := Issue(Command.Compare);
        if Honest() {
          CompareReply(family, before, logBefore, Exchange(FrameOf(family, Command.Compare), rv));
        }
        if rv == COLLISION {
          return true;
        }
        if rv == INVALID_REPLY {
          return true;
        }
        if (family == ControlGear && rv == 0xFF) || (family == InputDevice && rv >= 0) {
          return true;
        }
        retry := retry - 1;
      }
      return false;
    }

    /** Moves the search register on to `adr` and compares. */
    method Probe(adr: nat, adrLast: nat, ghost start: Bus) returns (yes: bool)
      requires 1 <= adr < SPACE && Register(Now(), adrLast % SPACE) && SameButSearch(start, Now())
      modifies this
      ensures |old(log)| < |log| <= |old(log)| + ChangedBytes(adr, adrLast) + 2 && SameRecords()
      ensures SameButSearch(start, Now()) && Register(Now(), adr % SPACE)
      ensures AllWellFormed(old(Now())) ==> AllWellFormed(Now())
      ensures Honest() ==> old(Honest())
      ensures Honest() && AllWellFormed(old(Now())) ==> (yes <==> Target(start) <= adr)
    {
      hide BusAfter, Programmed, Answered, Faithful, AllWellFormed, Lowest, Register, SameButSearch, ChangedBytes, Target;
      ghost var b0 := Now();
      SetSearchaddrDiff(adr, adrLast);
      ghost var b1 := Now();
      SameChain(start, b0, b1);
      LowestSame(start, b1);
      TargetCompare(b1, start, adr);
      yes := Compare(adr);
      SameChain(start, b1, Now());
    }

    /**
     * Binary search for the smallest random address that still takes part. At most 79 frames are sent, whatever the
     * replies; if the units caused the replies, the result is exact as soon as the address is not 0.
     */
    method FindAddr() returns (adr: nat)
      modifies this
      ensures |old(log)| < |log| <= |old(log)| + 79 && SameRecords()
      ensures SameButSearch(old(Now()), Now()) && Register(Now(), adr % SPACE)
      ensures AllWellFormed(old(Now())) ==> AllWellFormed(Now())
      ensures Honest() ==> old(Honest())
      ensures 1 <= adr <= SPACE
      ensures Honest() && AllWellFormed(old(Now())) ==> adr == Target(old(Now()))
    {
      hide BusAfter, Programmed, Answered, Faithful, AllWellFormed, Lowest, Register, SameButSearch, ChangedBytes, Target,
           StepSize, Centre;
      ghost var start := Now();
      ghost var target := Target(start);
      TargetInRange(start);
      adr := 0x800000;
      var addsub := 0x400000;
      var adrLast: nat := adr;
      SetSearchaddr(adr);
      ghost var q, k := 0, 22;
      FirstStep(adr);
      while addsub > 0
        invariant -1 <= k <= 22 && 0 <= q && addsub == StepSize(k) && adr == Centre(q, k)
        invariant 0 <= adr - Span(addsub) && adr + Span(addsub) <= SPACE
        invariant ChangedBytes(adr, adrLast) <= if k == 22 then 0 else if k == 6 || k == 14 then 2 else 1
        invariant |old(log)| < |log| <= |old(log)| + 3 + 2 * (22 - k) + HalvingWrites(k)
        invariant SameRecords() && SameButSearch(start, Now()) && Register(Now(), adrLast % SPACE)
        invariant AllWellFormed(start) ==> AllWellFormed(Now())
        invariant Honest() ==> old(Honest())
        invariant Honest() && AllWellFormed(start) ==> adr - Span(addsub) < target <= adr + Span(addsub)
        decreases addsub
      {
        StepSizeIs(k);
        var cmp := Probe(adr, adrLast, start);
        adrLast := adr;
        NextStep(q, k, !cmp);
        StepIsCheap(q, k, !cmp);
        if cmp {
          adr := adr - addsub;
        } else {
          adr := adr + addsub;
        }
        addsub := addsub / 2;
        q := if cmp then 2 * q else 2 * q + 1;
        k := k - 1;
      }
      StepSizeIs(k);
      var found := Probe(adr, adrLast, start);
      adrLast := adr;
      if !found {
        ghost var b2 := Now();
        adr := adr + 1;
        AtMostThreeBytes(adr, adrLast);
        SetSearchaddrDiff(adr, adrLast);
        SameChain(start, b2, Now());
      }
    }

    // ---------------------------------------------------------------- handing out short addresses

    /** Starts a round: the units addressed by `initArg` take part with fresh random addresses. */
    method Open(initArg: nat)
      requires initArg < 256
      modifies this
      ensures |log| <= |old(log)| + 5 && SameRecords()
      ensures Honest() ==> old(Honest())
      ensures CanStart(family, old(Now())) ==> Prepared(Rested(old(Now())), initArg, Now()) && AllWellFormed(Now())
    {
      hide FrameOf, Send, BusAfter, Faithful, Programmed, Answered, Plausible, WellFormed, Prepared, Rested;
      ghost var start := Now();
      if CanStart(family, start) {
        OpeningPrepares(start, initArg, if family == InputDevice then Command.Terminate else Other);
      }
      if family == InputDevice {
        var _ := Issue(Command.Terminate);
      }
      var _ := Issue(Initialise(initArg));
      var _ := Issue(Randomise);
    }

    /** Asks every short address for its status; `arr` marks the ones that are not to be given out. */
    method Scan(initArg: nat, ghost before: Bus) returns (arr: array<bool>)
      requires Answered(family, log) == {}
      modifies this
      ensures fresh(arr) && arr.Length == 64
      ensures |log| == |old(log)| + 64 && Programmed(family, log) == old(Programmed(family, log))
      ensures forall a: nat :: a in Answered(family, log) ==> a < 64
      ensures forall a | 0 <= a < 64 ::
                arr[a] <==> a in Answered(family, log) && (family == InputDevice || initArg != 0)
      ensures Honest() ==> old(Honest())
      ensures Honest() && old(Prepared(before, initArg, Now()) && AllWellFormed(Now())) ==>
                && Prepared(before, initArg, Now()) && AllWellFormed(Now())
                && ScanFinds(Answered(family, log), before, 64)
    {
      hide FrameOf, Send, BusAfter, Faithful, Programmed, Answered, Plausible, AllWellFormed, Prepared, Present, Shared;
      arr := new bool[64](_ => false);
      for sa := 0 to 64
        invariant |log| == |old(log)| + sa && Programmed(family, log) == old(Programmed(family, log))
        invariant forall a: nat :: a in Answered(family, log) ==> a < sa
        invariant forall a | 0 <= a < 64 ::
            arr[a] <==> a in Answered(family, log) && (family == InputDevice || initArg != 0)
        invariant Honest() ==> old(Honest())
        invariant Honest() && old(Prepared(before, initArg, Now()) && AllWellFormed(Now())) ==>
            && Prepared(before, initArg, Now()) && AllWellFormed(Now())
            && ScanFinds(Answered(family, log), before, sa)
      {
        ghost var b0, logBefore := Now(), log;
        var rv := Issue(QueryStatus(sa));
        if Honest() && Prepared(before, initArg, b0) && AllWellFormed(b0) {
          StatusQuery(before, initArg, b0, family, logBefore, sa, rv);
        }
        if rv >= 0 {
          if family == InputDevice || initArg != 0 {
            arr[sa] := true;
          }
        }
      }
    }

    /** Opens the initialisation, scans, and opens the books on short addresses. */
    method Begin(initArg: nat) returns (arr: array<bool>)
      requires log == [] && initArg < 256
      modifies this
      ensures fresh(arr) && arr.Length == 64
      ensures |log| <= 5 + 64 && Programmed(family, log) == []
      ensures Books([], Kept(family, initArg, Answered(family, log)), arr[..])
      ensures forall a :: a in Answered(family, log) ==> a < 64
      ensures Honest() && CanStart(family, bus0) ==>
                && ScanFinds(Answered(family, log), Rested(bus0), 64)
                && Assigning(Rested(bus0), initArg, Kept(family, initArg, Answered(family, log)), Now(), {}, arr[..], 0)
    {
      hide FrameOf, BusAfter, Faithful, Programmed, Answered, Plausible, Prepared, Ready, AllWellFormed, Target, Books,
           Assigning, ScanFinds, Register, Rested, CanStart;
      NothingLogged(family, bus0);
      Open(initArg);
      arr := Scan(initArg, Rested(bus0));
      OpenBooks(Kept(family, initArg, Answered(family, log)), arr[..]);
      if Honest() && CanStart(family, bus0) {
        RestedIsReady(family, bus0);
        StartAssigning(Rested(bus0), initArg, Kept(family, initArg, Answered(family, log)), Now(), arr[..]);
      }
    }

    /**
     * Commissioning. Whatever the replies, it ends after at most 65 searches, no short address is programmed twice,
     * and the result counts the programmed addresses; unless all gear is readdressed, no address that answered the
     * scan is programmed. If the replies are the units' own, the units addressed get the free short addresses in the
     * order of the random addresses they draw, or, if one of them drew 0, what `Stuck` says; all others stay what they
     * were. For documented gear that is what `Joined` and `Numbered` say.
     */
    method Commission(initArg: nat) returns (cnt: nat, ghost searches: nat)
      requires log == [] && initArg < 256
      modifies this
      ensures searches <= 65 && |log| <= 5 + 64 + 79 * searches + 2 * cnt + 1
      ensures cnt == |Programmed(family, log)| <= 64 && NoRepeats(Programmed(family, log))
      ensures forall a :: a in Programmed(family, log) ==> a < 64
      ensures family == InputDevice || initArg != 0 ==>
                forall a :: a in Programmed(family, log) ==> a !in Answered(family, log)
      ensures Honest() && CanStart(family, bus0) ==>
                && ScanFinds(Answered(family, log), bus0, 64)
                && (family == InputDevice || initArg != 0 ==>
                      Commissioned(bus0, initArg, Answered(family, log), Now(), cnt))
                && (family == ControlGear && initArg == 0 ==> Commissioned(bus0, 0, {}, Now(), cnt))
      ensures Honest() && CanStart(family, bus0) && family == ControlGear && (forall u | u in bus0 :: u.conduct == Documented) ==>
                && (initArg == 0xFF ==> Joined(bus0, Now()))
                && (initArg == 0 && |bus0| <= 64 && 0 !in Drawn(bus0, 0) ==> Numbered(bus0, Now()))
    {
      hide FrameOf, BusAfter, Faithful, Programmed, Answered, Plausible, Ready, AllWellFormed, Target, Books,
           Assigning, Commissioned, ScanFinds, Register, Kept, Joined, Numbered, Drawn, Rested, CanStart;
      NothingLogged(family, bus0);
      cnt, searches := 0, 0;
      var arr := Begin(initArg);
      ghost var kept := Kept(family, initArg, Answered(family, log));
      ghost var done: set<nat> := {};
      ghost var answered := Answered(family, log);
      ghost var before := Rested(bus0);
      while true
        invariant arr.Length == 64 && fresh(arr)
        invariant searches == cnt && |log| <= 5 + 64 + 79 * searches + 2 * cnt
        invariant cnt == |Programmed(family, log)| && Answered(family, log) == answered
        invariant Books(Programmed(family, log), kept, arr[..])
        invariant Honest() && CanStart(family, bus0) ==>
            ScanFinds(answered, before, 64) && Assigning(before, initArg, kept, Now(), done, arr[..], cnt)
        decreases Unmarked(arr[..])
      {
        ghost var b0 := Now();
        var adr := FindAddr();
        searches := searches + 1;
        if Honest() && CanStart(family, bus0) {
          SearchKeepsAssigning(before, initArg, kept, b0, done, arr[..], cnt, Now());
        }
        if adr > 0xffffff {
          if Honest() && CanStart(family, bus0) {
            SearchedOut(before, initArg, kept, Now(), done, arr[..], cnt);
          }
          break;
        }
        var sa := FirstUnmarked(arr);
        if sa >= 64 {
          if Honest() && CanStart(family, bus0) {
            RunDry(before, initArg, kept, Now(), done, arr[..], cnt);
          }
          break;
        }
        ghost var marks := arr[..];
        arr[sa] := true;
        assert arr[..] == marks[sa := true];
        BooksNext(Programmed(family, log), kept, marks, sa);
        if Honest() && CanStart(family, bus0) {
          SmallIsItself(adr);
          AssignNext(before, initArg, kept, Now(), done, marks, cnt, adr, sa);
        }
        done := done + {adr};
        cnt := cnt + 1;
        Assign(sa);
      }
      BooksBalance(Programmed(family, log), kept, arr[..]);
      var _ := Issue(Command.Terminate);
      assert Answered(family, log) == answered;
      KeptIs(family, initArg, answered);
      if Honest() && CanStart(family, bus0) {
        FromRest(family, bus0, initArg, kept, Now(), cnt, answered);
      }
    }

    /** Gives the unit that was found its short address and takes it out of the search. */
    method Assign(sa: nat)
      requires sa < 64
      modifies this
      ensures |log| == |old(log)| + 2
      ensures Now() == AfterAssign(old(Now()), sa)
      ensures Programmed(family, log) == old(Programmed(family, log)) + [sa]
      ensures Answered(family, log) == old(Answered(family, log))
      ensures Honest() ==> old(Honest())
    {
      hide FrameOf, BusAfter, Faithful, Programmed, Answered, Plausible, Send;
      var _ := Issue(Program(2 * sa + 1));
      var _ := Issue(Command.Withdraw);
    }
  }

  /** The first address not marked, or 64. */
  method FirstUnmarked(arr: array<bool>) returns (sa: nat)
    requires arr.Length == 64
    ensures sa <= 64 && (forall a | 0 <= a < sa :: arr[a]) && (sa < 64 ==> !arr[sa])
  {
    sa := 0;
    while sa < 64
      invariant sa <= 64 && forall a | 0 <= a < sa :: arr[a]
    {
      if !arr[sa] {
        return;
      }
      sa := sa + 1;
    }
  }

  // ------------------------------------------------------------------ facts about the pool of short addresses

  lemma KeptIs(family: Family, initArg: nat, answered: set<nat>)
    ensures family == InputDevice || initArg != 0 ==> Kept(family, initArg, answered) == answered
    ensures family == ControlGear && initArg == 0 ==> Kept(family, initArg, answered) == {}
  {
  }

  lemma GearIsCommissioned(before: Bus, initArg: nat, kept: set<nat>, after: Bus, cnt: nat, answered: set<nat>)
    requires Ready(before) && ScanFinds(answered, before, 64) && forall a | a in answered :: a < 64
    requires Commissioned(before, initArg, kept, after, cnt)
    requires initArg != 0 ==> kept == answered
    ensures (forall u | u in before :: u.conduct == Documented) ==>
              && (initArg == 0xFF ==> Joined(before, after))
              && (initArg == 0 && kept == {} && |before| <= 64 && 0 !in Drawn(before, 0) ==> Numbered(before, after))
  {
    hide Joined, Numbered, Commissioned, ScanFinds, Ready;
    if forall u | u in before :: u.conduct == Documented {
      if initArg == 0xFF {
        NewGearJoins(before, answered, after, cnt);
      }
      if initArg == 0 && kept == {} && |before| <= 64 && 0 !in Drawn(before, 0) {
        NobodyDrewZero(before);
        AllReaddressed(before, after, cnt);
      }
    }
  }

  /** What the units were before the first command does not matter, apart from what `CanStart` says. */
  lemma FromRest(family: Family, before: Bus, initArg: nat, kept: set<nat>, after: Bus, cnt: nat, answered: set<nat>)
    requires CanStart(family, before) && ScanFinds(answered, Rested(before), 64) && forall a | a in answered :: a < 64
    requires Commissioned(Rested(before), initArg, kept, after, cnt) && kept == Kept(family, initArg, answered)
    ensures ScanFinds(answered, before, 64) && Commissioned(before, initArg, kept, after, cnt)
    ensures family == ControlGear && (forall u | u in before :: u.conduct == Documented) ==>
              && (initArg == 0xFF ==> Joined(before, after))
              && (initArg == 0 && |before| <= 64 && 0 !in Drawn(before, 0) ==> Numbered(before, after))
  {
    hide Commissioned, ScanFinds, Rested, CanStart, Joined, Numbered, Drawn, Kept;
    KeptIs(family, initArg, answered);
    RestedIsReady(family, before);
    ScanFromRest(answered, before, 64);
    CommissionedFromRest(before, initArg, kept, after, cnt);
    if family == ControlGear {
      GearIsCommissioned(before, initArg, kept, after, cnt, answered);
    }
  }

  lemma NobodyDrewZero(bus: Bus)
    requires (forall u | u in bus :: u.conduct == Documented) && 0 !in Drawn(bus, 0)
    ensures forall i | 0 <= i < |bus| :: bus[i].drawn != 0
  {
    assert forall i | 0 <= i < |bus| :: bus[i] in bus && Addressed(0, bus[i]);
  }

  ghost predicate NoRepeats(s: seq<nat>) {
    forall i, j | 0 <= i < j < |s| :: s[i] != s[j]
  }

  /** How many addresses can still be given out. */
  function Unmarked(marks: seq<bool>): (n: nat)
    ensures n <= |marks|
  {
    if marks == [] then 0 else Unmarked(marks[1..]) + (if marks[0] then 0 else 1)
  }

  lemma {:induction false} MarkOne(marks: seq<bool>, a: nat)
    requires a < |marks| && !marks[a]
    ensures Unmarked(marks[a := true]) == Unmarked(marks) - 1
    decreases |marks|
  {
    if a > 0 {
      assert marks[a := true][1..] == marks[1..][a - 1 := true];
      MarkOne(marks[1..], a - 1);
    } else {
      assert marks[a := true][1..] == marks[1..];
    }
  }

  /** Addresses programmed so far are distinct and marked; addresses kept out of the pool are marked from the start. */
  ghost predicate Books(programmed: seq<nat>, kept: set<nat>, marks: seq<bool>) {
    && |marks| == 64 && |programmed| + Unmarked(marks) <= 64 && NoRepeats(programmed)
    && (forall a :: a in programmed ==> a < 64 && marks[a])
    && (forall a :: a in kept ==> a < 64 && marks[a] && a !in programmed)
  }

  lemma OpenBooks(kept: set<nat>, marks: seq<bool>)
    requires |marks| == 64 && (forall a :: a in kept ==> a < 64)
    requires forall a: nat | a < 64 :: marks[a] <==> a in kept
    ensures Books([], kept, marks)
  {
  }

  lemma BooksNext(programmed: seq<nat>, kept: set<nat>, marks: seq<bool>, sa: nat)
    requires Books(programmed, kept, marks) && sa < 64 && !marks[sa]
    ensures Books(programmed + [sa], kept, marks[sa := true])
    ensures Unmarked(marks[sa := true]) < Unmarked(marks)
  {
    MarkOne(marks, sa);
  }

  lemma BooksBalance(programmed: seq<nat>, kept: set<nat>, marks: seq<bool>)
    requires Books(programmed, kept, marks)
    ensures |programmed| <= 64 && NoRepeats(programmed)
    ensures forall a :: a in programmed ==> a < 64 && a !in kept
  {
  }

  /** The state between two rounds on an honest bus. */
  ghost predicate Assigning(before: Bus, arg: nat, kept: set<nat>, bus: Bus, done: set<nat>, marks: seq<bool>, cnt: nat) {
    && Marks(kept, marks, cnt)
    && if 0 in Drawn(before, arg) then StuckMidway(before, arg, kept, bus, cnt)
       else Midway(before, arg, kept, bus, done) && |done| == cnt
  }

  function AfterAssign(bus: Bus, sa: nat): (after: Bus)
    ensures |after| == |bus|
  {
    AfterCommand(AfterCommand(bus, Program(2 * sa + 1)), Command.Withdraw)
  }

  lemma StartAssigning(before: Bus, arg: nat, kept: set<nat>, bus: Bus, marks: seq<bool>)
    requires Ready(before) && Prepared(before, arg, bus) && AllWellFormed(bus)
    requires |marks| == 64 && forall a: nat | a < 64 :: marks[a] <==> a in kept
    ensures Assigning(before, arg, kept, bus, {}, marks, 0)
  {
    hide Free, Midway, StuckMidway, Ready, Prepared, Drawn;
    PreparedIsMidway(before, arg, kept, bus);
    PreparedIsStuck(before, arg, kept, bus);
  }

  lemma SearchKeepsAssigning(before: Bus, arg: nat, kept: set<nat>, bus: Bus, done: set<nat>, marks: seq<bool>, cnt: nat,
                             after: Bus)
    requires Assigning(before, arg, kept, bus, done, marks, cnt) && SameButSearch(bus, after)
    requires AllWellFormed(bus) ==> AllWellFormed(after)
    ensures Assigning(before, arg, kept, after, done, marks, cnt) && AllWellFormed(bus) && Target(after) == Target(bus)
  {
    hide Marks, Lowest, Drawn, UnitMidway, UnitStuck, Free;
    LowestSame(bus, after);
    if 0 in Drawn(before, arg) {
      SearchKeepsStuck(before, arg, kept, bus, cnt, after);
    } else {
      SearchKeepsMidway(before, arg, kept, bus, done, after);
    }
  }

  lemma SearchedOut(before: Bus, arg: nat, kept: set<nat>, bus: Bus, done: set<nat>, marks: seq<bool>, cnt: nat)
    requires Assigning(before, arg, kept, bus, done, marks, cnt) && Target(bus) == SPACE
    ensures Commissioned(before, arg, kept, AfterCommand(bus, Command.Terminate), cnt)
  {
    hide Marks, Target, Drawn, Midway, StuckMidway, Free, Commissioned;
    if 0 in Drawn(before, arg) {
      StuckAtOne(before, arg, kept, bus, cnt);
    } else {
      NobodyLeft(before, arg, kept, bus, done);
    }
  }

  lemma RunDry(before: Bus, arg: nat, kept: set<nat>, bus: Bus, done: set<nat>, marks: seq<bool>, cnt: nat)
    requires Assigning(before, arg, kept, bus, done, marks, cnt) && forall a | 0 <= a < 64 :: marks[a]
    ensures Commissioned(before, arg, kept, AfterCommand(bus, Command.Terminate), cnt)
  {
    hide Drawn, Midway, StuckMidway, Free, Commissioned;
    AllMarked(kept, marks, cnt);
    if 0 in Drawn(before, arg) {
      StuckRunsDry(before, arg, kept, bus, cnt);
    } else {
      NothingFree(before, arg, kept, bus, done);
    }
  }

  lemma AssignNext(before: Bus, arg: nat, kept: set<nat>, bus: Bus, done: set<nat>, marks: seq<bool>, cnt: nat,
                   adr: nat, sa: nat)
    requires Assigning(before, arg, kept, bus, done, marks, cnt)
    requires adr == Target(bus) && adr < SPACE && Register(bus, adr)
    requires sa < 64 && !marks[sa] && forall a | 0 <= a < sa :: marks[a]
    ensures Assigning(before, arg, kept, AfterAssign(bus, sa), done + {adr}, marks[sa := true], cnt + 1)
  {
    hide Drawn, Midway, StuckMidway, Marks, Target, Register, Free;
    MarksNext(kept, marks, cnt, sa);
    if 0 in Drawn(before, arg) {
      StuckAtOne(before, arg, kept, bus, cnt);
      AssignStuck(before, arg, kept, bus, cnt);
    } else {
      AssignOne(before, arg, kept, bus, done, adr);
    }
  }

  lemma NothingLogged(family: Family, bus: Bus)
    ensures Programmed(family, []) == [] && Answered(family, []) == {} && BusAfter(family, bus, []) == bus
    ensures Faithful(family, bus, [])
  {
  }

  /** Marked are the addresses kept out of the pool and the first `k` of the free ones. */
  ghost predicate Marks(kept: set<nat>, marks: seq<bool>, k: nat) {
    && |marks| == 64 && k <= |Free(kept, 64)|
    && forall a: nat | a < 64 :: marks[a] <==> a in kept || a in Free(kept, 64)[..k]
  }

  lemma SmallIsItself(v: nat)
    requires v < SPACE
    ensures v % SPACE == v
  {
  }

  /** Free addresses past the first `k` are not marked yet. */
  lemma StillUnmarked(kept: set<nat>, marks: seq<bool>, k: nat, i: nat)
    requires Marks(kept, marks, k) && k <= i < |Free(kept, 64)|
    ensures Free(kept, 64)[i] < 64 && !marks[Free(kept, 64)[i]]
  {
    var free := Free(kept, 64);
    assert free[i] in free;
    assert free[i] !in free[..k] by {
      assert forall j | 0 <= j < k :: free[..k][j] < free[i];
    }
  }

  /** If every address is marked, all the free ones have been given out. */
  lemma AllMarked(kept: set<nat>, marks: seq<bool>, k: nat)
    requires Marks(kept, marks, k) && forall a | 0 <= a < 64 :: marks[a]
    ensures k == |Free(kept, 64)|
  {
    hide Free;
    if k < |Free(kept, 64)| {
      StillUnmarked(kept, marks, k, k);
    }
  }

  /** The first unmarked address is the next free one. */
  lemma MarksNext(kept: set<nat>, marks: seq<bool>, k: nat, a: nat)
    requires Marks(kept, marks, k) && a < 64 && !marks[a] && forall b | 0 <= b < a :: marks[b]
    ensures k < |Free(kept, 64)| && Free(kept, 64)[k] == a && Marks(kept, marks[a := true], k + 1)
  {
    hide Free;
    var free := Free(kept, 64);
    assert a in free;
    var i :| 0 <= i < |free| && free[i] == a;
    assert i >= k by {
      assert forall j | 0 <= j < k :: free[..k][j] == free[j] && free[j] in free[..k];
    }
    StillUnmarked(kept, marks, k, k);
    assert free[..k + 1] == free[..k] + [a];
  }
}
