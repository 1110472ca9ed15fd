/** The poll scheduler: requests that are due now, requests that become due later, and a round robin when idle. */
module Scheduler {
  import opened Counting

  const ADDRESSES: nat := 64

  datatype Deferred = Deferred(address: nat, at: int)

  datatype State = State(queue: seq<nat>, members: set<nat>, deferred: seq<Deferred>, roundRobin: nat)

  ghost predicate Distinct(s: seq<nat>) {
    forall i, j | 0 <= i < j < |s| :: s[i] != s[j]
  }

  function Elements(s: seq<nat>): set<nat> {
    set a | a in s
  }

  /** The membership set mirrors the queue, which has no duplicates, and every address is a short address. */
  ghost predicate Inv(s: State) {
    && s.members == Elements(s.queue) && Distinct(s.queue)
    && (forall a | a in s.queue :: a < ADDRESSES)
    && (forall d | d in s.deferred :: d.address < ADDRESSES)
    && s.roundRobin < ADDRESSES
  }

  function Push(s: State, a: nat): State {
    if a in s.members then s else s.(queue := s.queue + [a], members := s.members + {a})
  }

  /** Moves the requests of `pending` that are due at `now` to the queue, in order. */
  function Promote(s: State, pending: seq<Deferred>, now: int): State
    decreases |pending|
  {
    if pending == [] then s
    else Promote(if now >= pending[0].at then Push(s, pending[0].address) else s, pending[1..], now)
  }

  function NotDue(pending: seq<Deferred>, now: int): (rest: seq<Deferred>)
    ensures forall d :: d in rest <==> d in pending && now < d.at
  {
    if pending == [] then []
    else if now >= pending[0].at then NotDue(pending[1..], now)
    else [pending[0]] + NotDue(pending[1..], now)
  }

  datatype Poll = Poll(address: nat, requested: bool, cycleDone: bool)

  lemma PromoteOne(s: State, kept: seq<Deferred>, rest: seq<Deferred>, now: int)
    requires rest != []
    ensures var d := rest[0];
            && Promote(s, rest, now) == Promote(if now >= d.at then Push(s, d.address) else s, rest[1..], now)
            && kept + NotDue(rest, now) == (if now >= d.at then kept else kept + [d]) + NotDue(rest[1..], now)
  {
  }

  lemma PromoteNone(s: State, rest: seq<Deferred>, now: int)
    requires rest == []
    ensures Promote(s, rest, now) == s && NotDue(rest, now) == []
  {
  }

  /** Every deferred request that is due has been moved to the queue. */
  function Promoted(s: State, now: int): State {
    Promote(s, s.deferred, now).(deferred := NotDue(s.deferred, now))
  }

  /** One turn of the loop: what is polled, and the state afterwards. */
  function Turn(s: State, now: int): (Poll, State) {
    var p := Promoted(s, now);
    if p.queue != [] then
      (Poll(p.queue[0], true, false), p.(queue := p.queue[1..], members := p.members - {p.queue[0]}))
    else
      var next := if p.roundRobin + 1 >= ADDRESSES then 0 else p.roundRobin + 1;
      (Poll(p.roundRobin, false, p.roundRobin + 1 >= ADDRESSES), p.(roundRobin := next))
  }

  function Request(s: State, a: nat, delay: nat, now: int): State {
    if a >= ADDRESSES then s
    else if delay == 0 then Push(s, a)
    else s.(deferred := s.deferred + [Deferred(a, now + delay)])
  }

  // ------------------------------------------------------------------ the scheduler object

  class SyncScheduler {
    var queue: seq<nat>
    var members: set<nat>
    var deferred: seq<Deferred>
    var roundRobin: nat

    ghost function View(): State
      reads this
    {
      State(queue, members, deferred, roundRobin)
    }

    ghost predicate Valid()
      reads this
    {
      Inv(View())
    }

    constructor ()
      ensures Valid() && View() == State([], {}, [], 0)
    {
      queue, members, deferred, roundRobin := [], {}, [], 0;
    }

    method RequestDeviceSync(address: nat, delay: nat, now: int)
      requires Valid()
      modifies this
      ensures Valid() && View() == Request(old(View()), address, delay, now)
    {
      RequestKeepsInv(View(), address, delay, now);
      if address >= 64 {
        return;
      }
      if delay == 0 {
        if address !in members {
          queue := queue + [address];
          members := members + {address};
        }
      } else {
        var targetTime := now + delay;
        deferred := deferred + [Deferred(address, targetTime)];
      }
    }

    /** Moves the deferred requests that are due to the priority queue. */
    method PromoteDue(now: int)
      modifies this
      ensures View() == Promoted(old(View()), now)
    {
      hide NotDue, Promote;
      ghost var s := View();
      ghost var kept: seq<Deferred>, rest := [], deferred;
      assert kept + NotDue(rest, now) == NotDue(s.deferred, now);
      var i := 0;
      while i < |deferred|
        invariant 0 <= i <= |deferred| && deferred == kept + rest && |kept| == i && roundRobin == s.roundRobin
        invariant Promote(State(queue, members, s.deferred, s.roundRobin), rest, now) == Promote(s, s.deferred, now)
        invariant kept + NotDue(rest, now) == NotDue(s.deferred, now)
        decreases |deferred| - i
      {
        assert rest[0] == deferred[i];
        PromoteOne(State(queue, members, s.deferred, s.roundRobin), kept, rest, now);
        if now >= deferred[i].at {
          if deferred[i].address !in members {
            queue := queue + [deferred[i].address];
            members := members + {deferred[i].address};
          }
          deferred := deferred[..i] + deferred[i + 1..];
        } else {
          kept := kept + [rest[0]];
          i := i + 1;
        }
        rest := rest[1..];
      }
      PromoteNone(State(queue, members, s.deferred, s.roundRobin), rest, now);
      assert kept + [] == kept;
    }

    /** One turn of the sync task up to the poll: which address to poll, and whether a round robin cycle ended. */
    method SyncTurn(now: int) returns (poll: Poll)
      requires Valid()
      modifies this
      ensures Valid() && (poll, View()) == Turn(old(View()), now)
    {
      TurnKeepsInv(View(), now);
      PromoteDue(now);
      if queue != [] {
        var address := queue[0];
        queue := queue[1..];
        members := members - {address};
        return Poll(address, true, false);
      }
      poll := Poll(roundRobin, false, false);
      roundRobin := roundRobin + 1;
      if roundRobin >= 64 {
        roundRobin := 0;
        poll := poll.(cycleDone := true);
      }
    }
  }

  // ------------------------------------------------------------------ every reachable state

  lemma PushKeepsInv(s: State, a: nat)
    requires Inv(s) && a < ADDRESSES
    ensures Inv(Push(s, a)) && a in Push(s, a).queue && s.queue <= Push(s, a).queue
  {
    var t := Push(s, a);
    if a in s.members {
    } else {
      assert t.queue[|s.queue|] == a;
      assert Elements(t.queue) == Elements(s.queue) + {a};
    }
  }

  /** Promotion appends the due addresses that are not queued yet, and nothing else. */
  lemma {:induction false} PromoteAppends(s: State, pending: seq<Deferred>, now: int)
    requires Inv(s) && forall d | d in pending :: d.address < ADDRESSES
    ensures var t := Promote(s, pending, now);
            && Inv(t) && s.queue <= t.queue && t.deferred == s.deferred && t.roundRobin == s.roundRobin
            && (forall d | d in pending && now >= d.at :: d.address in t.queue)
            && (forall a | a in t.queue && a !in s.queue :: exists d :: d in pending && now >= d.at && d.address == a)
    decreases |pending|
  {
    if pending != [] {
      var d0 := pending[0];
      if now >= d0.at {
        PushKeepsInv(s, d0.address);
      }
      var s1 := if now >= d0.at then Push(s, d0.address) else s;
      PromoteAppends(s1, pending[1..], now);
      var t := Promote(s, pending, now);
      forall a | a in t.queue && a !in s.queue ensures exists d :: d in pending && now >= d.at && d.address == a {
        if a in s1.queue {
          assert d0 in pending;
        } else {
          var d :| d in pending[1..] && now >= d.at && d.address == a;
          assert d in pending;
        }
      }
    }
  }

  lemma TurnKeepsInv(s: State, now: int)
    requires Inv(s)
    ensures Inv(Turn(s, now).1)
  {
    PromoteAppends(s, s.deferred, now);
    var p := Promote(s, s.deferred, now);
    if p.queue != [] {
      PopKeepsSet(p.queue);
      assert forall a | a in p.queue[1..] :: a in p.queue;
    }
  }

  lemma PopKeepsSet(q: seq<nat>)
    requires q != [] && Distinct(q)
    ensures Elements(q[1..]) == Elements(q) - {q[0]} && Distinct(q[1..])
  {
    forall a | a in Elements(q) - {q[0]} ensures a in q[1..] {
      var i :| 0 <= i < |q| && q[i] == a;
      assert q[1..][i - 1] == a;
    }
  }

  lemma RequestKeepsInv(s: State, a: nat, delay: nat, now: int)
    requires Inv(s)
    ensures Inv(Request(s, a, delay, now))
  {
    if a < ADDRESSES {
      PushKeepsInv(s, a);
    }
  }

  /**
   * No deferred request is lost or promoted early: one that is due is queued or polled, one that is not stays where it
   * is, and whatever is newly queued or polled on request was due.
   */
  lemma TurnIsFair(s: State, now: int)
    requires Inv(s)
    ensures var (poll, t) := Turn(s, now);
            && (forall d :: d in t.deferred <==> d in s.deferred && now < d.at)
            && (forall d | d in s.deferred && now >= d.at :: d.address in t.queue || poll.address == d.address)
            && (forall a | a in s.queue :: a in t.queue || poll.address == a)
            && (forall a | a in t.queue || (poll.requested && a == poll.address) ::
                  a in s.queue || exists d :: d in s.deferred && now >= d.at && d.address == a)
  {
    PromoteAppends(s, s.deferred, now);
    var q := Promote(s, s.deferred, now).queue;
    if q != [] {
      assert forall a | a in q :: a == q[0] || a in q[1..];
    }
  }

  // ------------------------------------------------------------------ bounded wait

  datatype Event = TurnAt(now: int) | Requested(address: nat, delay: nat, now: int)

  function Step(s: State, e: Event): State {
    match e
    case TurnAt(now) => Turn(s, now).1
    case Requested(a, delay, now) => Request(s, a, delay, now)
  }

  /** Addresses polled by the turns in `es`, one for each turn. */
  function Polls(s: State, es: seq<Event>): seq<nat>
    decreases |es|
  {
    if es == [] then []
    else (if es[0].TurnAt? then [Turn(s, es[0].now).0.address] else []) + Polls(Step(s, es[0]), es[1..])
  }

  function Turns(es: seq<Event>): nat {
    if es == [] then 0 else (if es[0].TurnAt? then 1 else 0) + Turns(es[1..])
  }

  lemma {:induction false} OnePollATurn(s: State, es: seq<Event>)
    ensures |Polls(s, es)| == Turns(es)
    decreases |es|
  {
    if es != [] { OnePollATurn(Step(s, es[0]), es[1..]); }
  }

  /** Every state of every run satisfies the invariant. */
  lemma {:induction false} RunKeepsInv(s: State, es: seq<Event>, k: nat)
    requires Inv(s) && k <= |es|
    ensures Inv(StateAfter(s, es, k))
    decreases k
  {
    if k > 0 {
      RunKeepsInv(s, es, k - 1);
      var u := StateAfter(s, es, k - 1);
      match es[k - 1] {
        case TurnAt(now) => TurnKeepsInv(u, now);
        case Requested(a, delay, now) => RequestKeepsInv(u, a, delay, now);
      }
    }
  }

  function StateAfter(s: State, es: seq<Event>, k: nat): State
    requires k <= |es|
  {
    if k == 0 then s else Step(StateAfter(s, es, k - 1), es[k - 1])
  }

  /** An address at place `i` of the queue is polled by one of the next `i + 1` turns, whatever is requested meanwhile. */
  lemma {:induction false} QueuedIsPolled(s: State, es: seq<Event>, i: nat)
    requires Inv(s) && i < |s.queue| && Turns(es) > i
    ensures |Polls(s, es)| > i && s.queue[i] in Polls(s, es)[..i + 1]
    decreases |es|
  {
    OnePollATurn(s, es);
    var a := s.queue[i];
    var t := Step(s, es[0]);
    match es[0] {
      case Requested(b, delay, now) =>
        RequestKeepsInv(s, b, delay, now);
        QueuedIsPolled(t, es[1..], i);
        assert Polls(s, es) == Polls(t, es[1..]);
      case TurnAt(now) =>
        TurnKeepsInv(s, now);
        PromoteAppends(s, s.deferred, now);
        var p := Promote(s, s.deferred, now);
        assert p.queue[i] == a;
        var rest := Polls(t, es[1..]);
        assert Polls(s, es) == [p.queue[0]] + rest;
        if i == 0 {
          assert Polls(s, es)[..1][0] == a;
        } else {
          QueuedIsPolled(t, es[1..], i - 1);
          assert t.queue[i - 1] == a;
          assert Polls(s, es)[..i + 1] == [p.queue[0]] + rest[..i];
        }
    }
  }

  lemma {:induction false} DistinctFits(q: seq<nat>, n: nat)
    requires Distinct(q) && forall a | a in q :: a < n
    ensures |q| <= n
  {
    DistinctSize(q);
    SubsetSize(Elements(q), Interval(n));
  }

  lemma {:induction false} DistinctSize(q: seq<nat>)
    requires Distinct(q)
    ensures |Elements(q)| == |q|
    decreases |q|
  {
    if q != [] {
      PopKeepsSet(q);
      DistinctSize(q[1..]);
      assert q[0] in Elements(q);
    }
  }

  function Interval(n: nat): (r: set<nat>)
    ensures |r| == n && forall a: nat :: a in r <==> a < n
  {
    if n == 0 then {} else Interval(n - 1) + {n - 1}
  }

  /**
   * Bounded wait: an accepted request, whether it was queued at once or deferred, is polled within 64 turns of the
   * first turn that finds it due, no matter what other requests arrive.
   */
  lemma DueIsPolled(s: State, es: seq<Event>, a: nat)
    requires Inv(s) && Turns(es) >= ADDRESSES && es[0].TurnAt?
    requires a in s.queue || exists d :: d in s.deferred && d.at <= es[0].now && d.address == a
    ensures |Polls(s, es)| >= ADDRESSES && a in Polls(s, es)[..ADDRESSES]
  {
    hide Polls, Inv;
    OnePollATurn(s, es);
    var p := Promoted(s, es[0].now);
    DueIsQueued(s, es[0].now, a);
    SameAfterPromotion(s, es);
    assert |p.queue| <= ADDRESSES by { QueueFits(p); }
    var i :| 0 <= i < |p.queue| && p.queue[i] == a;
    QueuedIsPolled(p, es, i);
    assert forall b | b in Polls(s, es)[..i + 1] :: b in Polls(s, es)[..ADDRESSES];
  }

  lemma QueueFits(s: State)
    requires Inv(s)
    ensures |s.queue| <= ADDRESSES
  {
    DistinctFits(s.queue, ADDRESSES);
  }

  lemma DueIsQueued(s: State, now: int, a: nat)
    requires Inv(s) && (a in s.queue || exists d :: d in s.deferred && d.at <= now && d.address == a)
    ensures Inv(Promoted(s, now)) && a in Promoted(s, now).queue
  {
    PromoteAppends(s, s.deferred, now);
  }

  lemma {:induction false} NothingDue(s: State, pending: seq<Deferred>, now: int)
    requires forall d | d in pending :: now < d.at
    ensures Promote(s, pending, now) == s && NotDue(pending, now) == pending
    decreases |pending|
  {
    if pending != [] {
      assert pending[0] in pending;
      NothingDue(s, pending[1..], now);
    }
  }

  /** A turn at the same time after promoting does what it would have done anyway. */
  lemma SameAfterPromotion(s: State, es: seq<Event>)
    requires es != [] && es[0].TurnAt?
    ensures Polls(Promoted(s, es[0].now), es) == Polls(s, es)
  {
    var now := es[0].now;
    var p := Promoted(s, now);
    NothingDue(p, p.deferred, now);
    assert Promoted(p, now) == p && Turn(p, now) == Turn(s, now);
  }

  /** A request is accepted exactly for short addresses, and then it is queued or deferred until its time. */
  lemma RequestIsKept(s: State, a: nat, delay: nat, now: int)
    requires Inv(s)
    ensures var t := Request(s, a, delay, now);
            && (a < ADDRESSES && delay == 0 ==> a in t.queue)
            && (a < ADDRESSES && delay > 0 ==> Deferred(a, now + delay) in t.deferred)
            && (a >= ADDRESSES ==> t == s)
            && s.queue <= t.queue && s.deferred <= t.deferred
  {
    if a < ADDRESSES {
      PushKeepsInv(s, a);
    }
  }

  /** A deferred request waits in every run as long as no turn finds it due. */
  lemma {:induction false} DeferredWaits(s: State, es: seq<Event>, k: nat, d: Deferred)
    requires Inv(s) && d in s.deferred && k <= |es|
    requires forall i | 0 <= i < k && es[i].TurnAt? :: es[i].now < d.at
    ensures d in StateAfter(s, es, k).deferred
    decreases k
  {
    if k > 0 {
      DeferredWaits(s, es, k - 1, d);
      RunKeepsInv(s, es, k - 1);
      var u := StateAfter(s, es, k - 1);
      match es[k - 1] {
        case TurnAt(now) => TurnIsFair(u, now);
        case Requested(a, delay, now) => RequestIsKept(u, a, delay, now);
      }
    }
  }

  /**
   * The two together: a delayed request for a short address is polled within 64 turns of the first turn, the one at
   * `k`, that finds it due, in every run.
   */
  lemma AcceptedIsPolled(s: State, a: nat, delay: nat, now: int, es: seq<Event>, k: nat)
    requires Inv(s) && a < ADDRESSES && delay > 0
    requires k < |es| && es[k].TurnAt? && es[k].now >= now + delay && Turns(es[k..]) >= ADDRESSES
    requires forall i | 0 <= i < k && es[i].TurnAt? :: es[i].now < now + delay
    ensures var u := StateAfter(Request(s, a, delay, now), es, k);
            |Polls(u, es[k..])| >= ADDRESSES && a in Polls(u, es[k..])[..ADDRESSES]
  {
    hide Inv, Polls, Turns;
    var d := Deferred(a, now + delay);
    RequestKeepsInv(s, a, delay, now);
    RequestIsKept(s, a, delay, now);
    DeferredWaits(Request(s, a, delay, now), es, k, d);
    RunKeepsInv(Request(s, a, delay, now), es, k);
    DueIsPolled(StateAfter(Request(s, a, delay, now), es, k), es[k..], a);
  }

  // ------------------------------------------------------------------ the round robin in every run

  /** What is polled by the turns in `es`. */
  function PollsMade(s: State, es: seq<Event>): seq<Poll>
    decreases |es|
  {
    if es == [] then []
    else (if es[0].TurnAt? then [Turn(s, es[0].now).0] else []) + PollsMade(Step(s, es[0]), es[1..])
  }

  /** The addresses of the polls nobody asked for. */
  function Unrequested(polls: seq<Poll>): (r: seq<nat>)
    ensures |r| <= |polls|
  {
    if polls == [] then []
    else (if polls[0].requested then [] else [polls[0].address]) + Unrequested(polls[1..])
  }

  /** The place `n` steps on from `place`. */
  function PlaceAfter(place: nat, n: nat): nat {
    (place + n) % 64
  }

  /** Addresses one after the other from `place` on, with 0 after 63. */
  ghost predicate GoesRound(idle: seq<nat>, place: nat) {
    forall i | 0 <= i < |idle| :: idle[i] == PlaceAfter(place, i)
  }

  lemma RoundOneOn(idle: seq<nat>, place: nat)
    requires place < 64 && GoesRound(idle, PlaceAfter(place, 1))
    ensures GoesRound([place] + idle, place)
    ensures PlaceAfter(PlaceAfter(place, 1), |idle|) == PlaceAfter(place, |idle| + 1)
  {
    hide PlaceAfter;
    forall i | 0 <= i < |idle| + 1 ensures ([place] + idle)[i] == PlaceAfter(place, i) {
      PlaceOneOn(place, if i > 0 then i - 1 else 0);
    }
    PlaceOneOn(place, |idle|);
  }

  lemma PlaceOneOn(place: nat, n: nat)
    requires place < 64
    ensures PlaceAfter(place, 0) == place && PlaceAfter(PlaceAfter(place, 1), n) == PlaceAfter(place, n + 1)
  {
  }

  lemma RoundRest(idle: seq<nat>, place: nat)
    requires place < 64 && idle != [] && GoesRound(idle, place)
    ensures idle[0] == place && GoesRound(idle[1..], PlaceAfter(place, 1))
  {
    assert idle[0] == PlaceAfter(place, 0);
    forall i | 0 <= i < |idle| - 1 ensures idle[1..][i] == PlaceAfter(PlaceAfter(place, 1), i) {
      assert idle[1..][i] == idle[i + 1] == PlaceAfter(place, i + 1);
    }
  }

  /** Promotion and requests leave the round robin alone. */
  lemma {:induction false} PromoteKeepsPlace(s: State, pending: seq<Deferred>, now: int)
    ensures Promote(s, pending, now).roundRobin == s.roundRobin
    decreases |pending|
  {
    if pending != [] {
      PromoteKeepsPlace(if now >= pending[0].at then Push(s, pending[0].address) else s, pending[1..], now);
    }
  }

  /** A requested poll neither moves the place of the round robin nor ends a cycle; any other is of that place. */
  lemma TurnKeepsPlace(s: State, now: int)
    requires s.roundRobin < 64
    ensures var (poll, t) := Turn(s, now);
            if poll.requested then t.roundRobin == s.roundRobin && !poll.cycleDone
            else poll.address == s.roundRobin && t.roundRobin == PlaceAfter(s.roundRobin, 1)
                 && (poll.cycleDone <==> s.roundRobin == 63)
  {
    PromoteKeepsPlace(s, s.deferred, now);
  }

  /**
   * Whatever is requested meanwhile, the polls nobody asked for go round all addresses without leaving one out, and a
   * cycle ends exactly with that of address 63.
   */
  lemma {:induction false} RoundRobinGoesRound(s: State, es: seq<Event>)
    requires s.roundRobin < 64
    ensures var polls := PollsMade(s, es);
            var idle := Unrequested(polls);
            && GoesRound(idle, s.roundRobin)
            && (forall k | 0 <= k < |polls| :: polls[k].cycleDone <==> !polls[k].requested && polls[k].address == 63)
            && StateAfter(s, es, |es|).roundRobin == PlaceAfter(s.roundRobin, |idle|)
    decreases |es|
  {
    hide Turn, PlaceAfter, GoesRound;
    RoundStarts(s.roundRobin);
    if es != [] {
      var t := Step(s, es[0]);
      if es[0].TurnAt? { TurnKeepsPlace(s, es[0].now); PlaceInRange(s.roundRobin); }
      RoundRobinGoesRound(t, es[1..]);
      FirstStepFirst(s, es, |es|);
      if es[0].TurnAt? {
        var poll, rest := Turn(s, es[0].now).0, PollsMade(t, es[1..]);
        assert PollsMade(s, es) == [poll] + rest && ([poll] + rest)[1..] == rest;
        if poll.requested {
          assert Unrequested([poll] + rest) == [] + Unrequested(rest) == Unrequested(rest);
        } else {
          assert Unrequested([poll] + rest) == [s.roundRobin] + Unrequested(rest);
          RoundOneOn(Unrequested(rest), s.roundRobin);
        }
      } else {
        assert PollsMade(s, es) == [] + PollsMade(t, es[1..]) == PollsMade(t, es[1..]);
      }
    }
  }

  lemma RoundStarts(place: nat)
    requires place < 64
    ensures GoesRound([], place) && PlaceAfter(place, 0) == place
  {
  }

  lemma PlaceInRange(place: nat)
    ensures PlaceAfter(place, 1) < 64
  {
  }

  lemma {:induction false} FirstStepFirst(s: State, es: seq<Event>, k: nat)
    requires 0 < k <= |es|
    ensures StateAfter(s, es, k) == StateAfter(Step(s, es[0]), es[1..], k - 1)
    decreases k
  {
    if k > 1 { FirstStepFirst(s, es, k - 1); }
  }

  /** The first poll, and the places of the ones after it. */
  lemma RoundOf(polls: seq<Poll>, place: nat)
    requires place < 64 && polls != [] && GoesRound(Unrequested(polls), place)
    ensures polls[0].requested ==> GoesRound(Unrequested(polls[1..]), place)
    ensures !polls[0].requested ==>
              polls[0].address == place && GoesRound(Unrequested(polls[1..]), PlaceAfter(place, 1))
  {
    hide PlaceAfter, GoesRound;
    var idle, rest := Unrequested(polls), Unrequested(polls[1..]);
    if polls[0].requested {
      assert idle == [] + rest == rest;
    } else {
      assert idle == [polls[0].address] + rest && idle[1..] == rest;
      RoundRest(idle, place);
    }
  }

  /** Each place that is passed on the way to 63 has been polled. */
  lemma {:induction false} PassedIsPolled(polls: seq<Poll>, place: nat, a: nat, j: nat) returns (k: nat)
    requires place <= a < 64 && j < |polls| && !polls[j].requested && polls[j].address == 63
    requires GoesRound(Unrequested(polls), place)
    ensures k <= j && !polls[k].requested && polls[k].address == a
    decreases |polls|
  {
    hide GoesRound, Unrequested;
    RoundOf(polls, place);
    if !polls[0].requested && place == a {
      k := 0;
    } else {
      var rest := PassedIsPolled(polls[1..], if polls[0].requested then place else place + 1, a, j - 1);
      k := rest + 1;
    }
  }

  /** After the poll of 63 the round robin is back at 0. */
  lemma {:induction false} StartsAgain(polls: seq<Poll>, place: nat, i: nat)
    requires place < 64 && i < |polls| && !polls[i].requested && polls[i].address == 63
    requires GoesRound(Unrequested(polls), place)
    ensures GoesRound(Unrequested(polls[i + 1..]), 0)
    decreases i
  {
    hide GoesRound, Unrequested;
    RoundOf(polls, place);
    if i > 0 {
      StartsAgain(polls[1..], if polls[0].requested then place else PlaceAfter(place, 1), i - 1);
      assert polls[1..][i..] == polls[i + 1..];
    }
  }

  /** Between two ends of a cycle every address has been polled, whatever was requested meanwhile. */
  lemma CyclePollsAll(s: State, es: seq<Event>, i: nat, j: nat, a: nat) returns (k: nat)
    requires s.roundRobin < 64 && a < 64
    requires var polls := PollsMade(s, es); i < j < |polls| && polls[i].cycleDone && polls[j].cycleDone
    ensures i < k <= j && PollsMade(s, es)[k].address == a && !PollsMade(s, es)[k].requested
  {
    hide PollsMade, Unrequested, GoesRound;
    var polls := PollsMade(s, es);
    RoundRobinGoesRound(s, es);
    StartsAgain(polls, s.roundRobin, i);
    var rest := PassedIsPolled(polls[i + 1..], 0, a, j - (i + 1));
    k := i + 1 + rest;
  }

  /** With nothing requested, the turns poll the short addresses one after the other, and every 64th ends a cycle. */
  lemma {:induction false} IdleTurnsGoRound(s: State, es: seq<Event>, i: nat)
    requires s.queue == [] && s.deferred == [] && s.roundRobin < ADDRESSES && i < |es|
    requires forall j | 0 <= j < |es| :: es[j].TurnAt?
    ensures |Polls(s, es)| == |es| && Polls(s, es)[i] == (s.roundRobin + i) % ADDRESSES
    ensures Turn(s, es[0].now).0.cycleDone <==> s.roundRobin == ADDRESSES - 1
    decreases |es|
  {
    var t := Step(s, es[0]);
    var rest := Polls(t, es[1..]);
    assert Polls(s, es) == [s.roundRobin] + rest;
    if i > 0 {
      IdleTurnsGoRound(t, es[1..], i - 1);
    } else if |es| > 1 {
      IdleTurnsGoRound(t, es[1..], 0);
    } else {
      assert rest == [];
    }
  }
}
