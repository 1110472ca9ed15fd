/** The frames of the commissioning commands, and what can be read off a log of them. */
module CommandLog {
  import opened Addressing
  import opened Gear

  // ------------------------------------------------------------------ commands as frames

  predicate ValidCommand(c: Command) {
    match c
    case Initialise(b) => b < 256
    case SearchH(b) => b < 256
    case SearchM(b) => b < 256
    case SearchL(b) => b < 256
    case Program(b) => b < 256
    case QueryStatus(a) => a < 64
    case Other => false
    case _ => true
  }

  /** The 16 bit command codes; 0x100 marks a special command, 0x200 one that is sent twice. */
  function GearCode(c: Command): nat
    requires ValidCommand(c)
  {
    match c
    case Terminate => 0x01A1
    case Initialise(_) => 0x03A5
    case Randomise => 0x03A7
    case Compare => 0x01A9
    case Withdraw => 0x01AB
    case SearchH(_) => 0x01B1
    case SearchM(_) => 0x01B3
    case SearchL(_) => 0x01B5
    case Program(_) => 0x01B7
    case QueryStatus(_) => QUERY_STATUS
  }

  /** The operation codes of the 24 bit commands. */
  function InputCode(c: Command): nat
    requires ValidCommand(c) && !c.QueryStatus?
  {
    match c
    case Initialise(_) => 0x00
    case Randomise => 0x01
    case Compare => 0x02
    case Withdraw => 0x03
    case Terminate => 0x06
    case Program(_) => 0x07
    case SearchH(_) => 0x08
    case SearchM(_) => 0x09
    case SearchL(_) => 0x0A
  }

  function Argument(c: Command): nat
    requires ValidCommand(c)
  {
    match c
    case Initialise(b) => b
    case SearchH(b) => b
    case SearchM(b) => b
    case SearchL(b) => b
    case Program(b) => b
    case QueryStatus(a) => a
    case _ => 0
  }

  function FrameOf(family: Family, c: Command): Frame
    requires ValidCommand(c)
  {
    match family
    case ControlGear => if c.QueryStatus? then [2 * c.address + 1, QUERY_STATUS] else [GearCode(c) % 256, Argument(c)]
    case InputDevice =>
      if c.QueryStatus? then [2 * c.address + 1, QUERY_STATUS, 0] else [0xFF, InputCode(c), Argument(c)]
  }

  /** Units understand every command the master sends. */
  lemma FrameMeans(family: Family, c: Command)
    requires ValidCommand(c)
    ensures Meaning(family, FrameOf(family, c)) == c
  {
  }

  lemma GearFrames(c: Command)
    requires ValidCommand(c)
    ensures CmdFrame(GearCode(c), Argument(c)) == Some(FrameOf(ControlGear, c))
    ensures SentTwice(GearCode(c)) <==> NeedsRepeat(c)
  {
  }

  // ------------------------------------------------------------------ reading the log

  /** Short addresses programmed in `log`, in order. */
  function Programmed(family: Family, log: seq<Exchange>): seq<nat>
    decreases |log|
  {
    if log == [] then []
    else
      var k := |log| - 1;
      var rest := Programmed(family, log[..k]);
      match Meaning(family, log[k].frame)
      case Program(data) => rest + [data / 2]
      case _ => rest
  }

  /** Short addresses that answered QUERY STATUS in `log`. */
  function Answered(family: Family, log: seq<Exchange>): set<nat>
    decreases |log|
  {
    if log == [] then {}
    else
      var k := |log| - 1;
      var rest := Answered(family, log[..k]);
      match Meaning(family, log[k].frame)
      case QueryStatus(a) => if log[k].reply >= 0 then rest + {a} else rest
      case _ => rest
  }

  lemma LogGrows(family: Family, bus: Bus, log: seq<Exchange>, e: Exchange)
    ensures var c := Meaning(family, e.frame);
            && BusAfter(family, bus, log + [e]) == Send(BusAfter(family, bus, log), c)
            && Programmed(family, log + [e]) == Programmed(family, log) + (if c.Program? then [c.data / 2] else [])
            && Answered(family, log + [e])
               == Answered(family, log) + (if c.QueryStatus? && e.reply >= 0 then {c.address} else {})
            && (Faithful(family, bus, log + [e]) <==>
                Faithful(family, bus, log) && Plausible(family, BusAfter(family, bus, log), log, e))
  {
    hide Meaning, Plausible, Send;
    assert (log + [e])[..|log|] == log;
  }

  /** Bus states a command leads to, counting a command that is sent twice as one. */
  function AfterCommand(bus: Bus, c: Command): (after: Bus)
    ensures |after| == |bus|
  {
    if NeedsRepeat(c) then Send(Send(bus, c), c) else Send(bus, c)
  }

  lemma SmallCode(c: Command)
    requires ValidCommand(c)
    ensures GearCode(c) < 0x10000 && Argument(c) < 256
  {
  }

  lemma InputFrames(c: Command)
    requires ValidCommand(c)
    ensures FrameOf(InputDevice, c)
         == if c.QueryStatus? then [2 * c.address + 1, QUERY_STATUS, 0] else [0xFF, InputCode(c), Argument(c)]
  {
  }
}
