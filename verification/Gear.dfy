/**
 * The units on the bus during commissioning: each one keeps a random address, a short address, a search register and
 * how far it is in the initialisation, and steps on every frame it hears.
 */
module Gear {
  import opened Addressing

  /** Control gear hears 16 bit frames, input devices hear 24 bit frames. */
  datatype Family = ControlGear | InputDevice

  datatype Mode = Disabled | Enabled | Withdrawn

  datatype Command =
    | Terminate
    | Initialise(arg: nat)
    | Randomise
    | Compare
    | Withdraw
    | SearchH(byte: nat)
    | SearchM(byte: nat)
    | SearchL(byte: nat)
    | Program(data: nat)
    | QueryStatus(address: nat)
    | Other

  const NONE: nat := 255
  const QUERY_STATUS: nat := 144

  /**
   * What a unit does where that is not the same for all. Control gear is documented: the argument of INITIALISE names
   * the units it is for, and every gear answers QUERY STATUS. Of an input device it is left open whether the
   * INITIALISE of this round is for it, and whether it answers the query of the scan, which uses the code of gear.
   */
  datatype Conduct = Documented | LeftOpen(joins: bool, answersScan: bool)

  /** `drawn` is the random address the unit will pick when it is told to randomise. */
  datatype Unit = Unit(random: nat, drawn: nat, shortAddr: nat, mode: Mode, search: nat, armed: Option<Command>,
                       conduct: Conduct)

  type Bus = seq<Unit>

  predicate WellFormed(u: Unit) {
    u.random < SPACE && u.drawn < SPACE && u.search < SPACE && (u.shortAddr < 64 || u.shortAddr == NONE)
  }

  // ------------------------------------------------------------------ frames

  function Meaning(family: Family, f: Frame): Command {
    match family
    case ControlGear =>
      if |f| != 2 then Other
      else if f[0] == 0xA1 then Terminate
      else if f[0] == 0xA5 then Initialise(f[1])
      else if f[0] == 0xA7 then Randomise
      else if f[0] == 0xA9 then Compare
      else if f[0] == 0xAB then Withdraw
      else if f[0] == 0xB1 then SearchH(f[1])
      else if f[0] == 0xB3 then SearchM(f[1])
      else if f[0] == 0xB5 then SearchL(f[1])
      else if f[0] == 0xB7 then Program(f[1])
      else if f[0] < 128 && f[0] % 2 == 1 && f[1] == QUERY_STATUS then QueryStatus(f[0] / 2)
      else Other
    case InputDevice =>
      if |f| != 3 then Other
      else if f[0] == 0xFF then
        if f[1] == 0x00 then Initialise(f[2])
        else if f[1] == 0x01 then Randomise
        else if f[1] == 0x02 then Compare
        else if f[1] == 0x03 then Withdraw
        else if f[1] == 0x06 then Terminate
        else if f[1] == 0x07 then Program(f[2])
        else if f[1] == 0x08 then SearchH(f[2])
        else if f[1] == 0x09 then SearchM(f[2])
        else if f[1] == 0x0A then SearchL(f[2])
        else Other
      else if f[0] < 128 && f[0] % 2 == 1 && f[1] == QUERY_STATUS then QueryStatus(f[0] / 2)
      else Other
  }

  /** Commands a unit acts on only when it hears them twice in a row. */
  predicate NeedsRepeat(c: Command) {
    c.Initialise? || c.Randomise?
  }

  // ------------------------------------------------------------------ one unit

  /** Which units INITIALISE addresses; of documented ones all, those without a short address, or the one named. */
  predicate Addressed(arg: nat, u: Unit) {
    match u.conduct
    case Documented =>
      arg == 0 || (arg == 0xFF && u.shortAddr == NONE) || (arg < 128 && arg % 2 == 1 && u.shortAddr == arg / 2)
    case LeftOpen(joins, _) => joins
  }

  /** A unit that answers the scan of address `a`. */
  predicate AnswersScan(u: Unit, a: nat) {
    u.shortAddr == a && (u.conduct.Documented? || u.conduct.answersScan)
  }

  function Execute(u: Unit, c: Command): Unit {
    match c
    case Terminate => u.(mode := Disabled)
    case Initialise(arg) => if u.mode == Disabled && Addressed(arg, u) then u.(mode := Enabled) else u
    case Randomise => if u.mode != Disabled then u.(random := u.drawn) else u
    case Withdraw => if u.mode == Enabled && u.random == u.search then u.(mode := Withdrawn) else u
    case SearchH(b) => if u.mode != Disabled then u.(search := b * 0x10000 + u.search % 0x10000) else u
    case SearchM(b) =>
      if u.mode != Disabled then u.(search := u.search / 0x10000 * 0x10000 + b * 0x100 + u.search % 0x100) else u
    case SearchL(b) => if u.mode != Disabled then u.(search := u.search / 0x100 * 0x100 + b) else u
    case Program(data) =>
      if u.mode != Disabled && u.random == u.search && data < 128 && data % 2 == 1 then u.(shortAddr := data / 2)
      else if u.mode != Disabled && u.random == u.search && data == 0xFF then u.(shortAddr := NONE)
      else u
    case _ => u
  }

  function Deliver(u: Unit, c: Command): Unit {
    if NeedsRepeat(c) then
      if u.armed == Some(c) then Execute(u, c).(armed := None) else u.(armed := Some(c))
    else Execute(u, c).(armed := None)
  }

  /** A unit that answers COMPARE. */
  predicate Answers(u: Unit) {
    u.mode == Enabled && u.random <= u.search
  }

  // ------------------------------------------------------------------ the whole bus

  function Send(bus: Bus, c: Command): (after: Bus)
    ensures |after| == |bus|
  {
    seq(|bus|, i requires 0 <= i < |bus| => Deliver(bus[i], c))
  }

  /** A frame on the bus and what the sender made of the reply. */
  datatype Exchange = Exchange(frame: Frame, reply: int)

  const NO_REPLY: int := -101
  const COLLISION: int := -3
  const INVALID_REPLY: int := -105

  /** The bus after the frames of `log`. */
  function BusAfter(family: Family, bus: Bus, log: seq<Exchange>): (after: Bus)
    ensures |after| == |bus|
    decreases |log|
  {
    if log == [] then bus
    else Send(BusAfter(family, bus, log[..|log| - 1]), Meaning(family, log[|log| - 1].frame))
  }

  /**
   * What answers to a request can be taken for: the one clean answer, or several on top of each other. With which byte
   * input devices answer is left open.
   */
  predicate Heard(family: Family, reply: int) {
    reply == 255 || reply == COLLISION || reply == INVALID_REPLY || (family == InputDevice && 0 <= reply < 256)
  }

  /** The previous frame was a COMPARE that brought no reply. */
  predicate MissedCompare(family: Family, log: seq<Exchange>) {
    |log| > 0 && Meaning(family, log[|log| - 1].frame) == Compare && log[|log| - 1].reply == NO_REPLY
  }

  predicate Present(bus: Bus, a: nat) {
    exists i | 0 <= i < |bus| :: AnswersScan(bus[i], a)
  }

  /** Several units answer the scan of address `a`. */
  predicate Shared(bus: Bus, a: nat) {
    exists i, j | 0 <= i < j < |bus| :: AnswersScan(bus[i], a) && AnswersScan(bus[j], a)
  }

  /**
   * A reply the units in state `bus` can cause after the frames of `log`. No reply means no unit answered, except
   * that the reply to a COMPARE may be lost once, but not to two COMPAREs in a row.
   */
  predicate Plausible(family: Family, bus: Bus, log: seq<Exchange>, e: Exchange) {
    match Meaning(family, e.frame)
    case Compare =>
      if exists i | 0 <= i < |bus| :: Answers(bus[i]) then
        Heard(family, e.reply) || (e.reply == NO_REPLY && !MissedCompare(family, log))
      else e.reply == NO_REPLY
    case QueryStatus(a) =>
      if Present(bus, a) then e.reply >= 0 || (Shared(bus, a) && Heard(family, e.reply)) else e.reply == NO_REPLY
    case _ => true
  }

  /** All replies in `log` are plausible for units that start out as `bus`. */
  predicate Faithful(family: Family, bus: Bus, log: seq<Exchange>)
    decreases |log|
  {
    log == [] ||
    (var k := |log| - 1;
     Faithful(family, bus, log[..k]) && Plausible(family, BusAfter(family, bus, log[..k]), log[..k], log[k]))
  }

  /** Whatever has happened so far and whatever frame comes next, some reply to it is plausible. */
  lemma SomeReplyIsPlausible(family: Family, bus: Bus, log: seq<Exchange>, f: Frame) returns (reply: int)
    requires Faithful(family, bus, log)
    ensures Faithful(family, bus, log + [Exchange(f, reply)])
  {
    hide Meaning, BusAfter, Present, Shared, Answers;
    var now := BusAfter(family, bus, log);
    var c := Meaning(family, f);
    reply := match c
             case Compare => if exists i | 0 <= i < |now| :: Answers(now[i]) then 255 else NO_REPLY
             case QueryStatus(a) => if Present(now, a) then 0 else NO_REPLY
             case _ => 0;
    assert (log + [Exchange(f, reply)])[..|log|] == log;
  }

  // ------------------------------------------------------------------ the address a search is after

  /** The smallest random address still taking part in the search, or `SPACE` if there is none. */
  function Lowest(bus: Bus): (m: nat)
    ensures m <= SPACE
  {
    if bus == [] then SPACE
    else
      var rest := Lowest(bus[1..]);
      if bus[0].mode == Enabled && bus[0].random < rest then bus[0].random else rest
  }

  /** `Lowest` is a lower bound, and it is attained unless nobody takes part. */
  lemma {:induction false} LowestIsMinimum(bus: Bus)
    requires forall i | 0 <= i < |bus| :: WellFormed(bus[i])
    ensures forall i | 0 <= i < |bus| && bus[i].mode == Enabled :: Lowest(bus) <= bus[i].random
    ensures Lowest(bus) == SPACE || exists i | 0 <= i < |bus| :: bus[i].mode == Enabled && bus[i].random == Lowest(bus)
    ensures Lowest(bus) == SPACE <==> forall i | 0 <= i < |bus| :: bus[i].mode != Enabled
    decreases |bus|
  {
    if bus != [] {
      var rest := bus[1..];
      assert forall i | 0 <= i < |rest| :: rest[i] == bus[i + 1];
      LowestIsMinimum(rest);
      forall i | 0 <= i < |bus| && bus[i].mode == Enabled ensures Lowest(bus) <= bus[i].random {
        if i > 0 { assert rest[i - 1] == bus[i]; }
      }
      if Lowest(bus) != SPACE {
        if Lowest(bus) != bus[0].random || bus[0].mode != Enabled {
          var i :| 0 <= i < |rest| && rest[i].mode == Enabled && rest[i].random == Lowest(rest);
          assert bus[i + 1].mode == Enabled && bus[i + 1].random == Lowest(bus);
        }
      }
    }
  }
}
