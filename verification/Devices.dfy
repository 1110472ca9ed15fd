/** Known devices, and how a reported state goes into the cache and out to the subscribers. */
module Devices {
  import opened Addressing

  type Long = nat

  datatype Rgb = Rgb(r: nat, g: nat, b: nat)

  datatype ColorMode = UnknownMode | TcMode | RgbMode

  datatype Color = Color(mode: ColorMode, tc: Option<nat>, rgb: Option<Rgb>, supportsRgb: bool, supportsTc: bool)

  const DEFAULT_COLOR := Color(TcMode, None, None, false, false)

  datatype Device =
    | Gear(longAddress: Long, shortAddress: nat, gtin: string, available: bool, currentLevel: nat, lastLevel: nat,
           statusByte: nat, minLevel: nat, maxLevel: nat, powerOnLevel: nat, systemFailureLevel: nat,
           deviceType: Option<nat>, color: Option<Color>, staticDataLoaded: bool, initialSyncNeeded: bool)
    | Input(longAddress: Long, shortAddress: nat, gtin: string, available: bool)

  type DeviceMap = map<Long, Device>

  function NewGear(long: Long, short: nat): Device {
    Gear(long, short, "", true, 0, 254, 0, 1, 254, 254, 254, None, None, false, true)
  }

  /** A reported state; absent parts are not known. */
  datatype Update = Update(level: Option<nat>, status: Option<nat>, tc: Option<nat>, rgb: Option<Rgb>,
                           mode: Option<ColorMode>)

  const NO_UPDATE := Update(None, None, None, None, None)

  function LevelUpdate(level: nat): Update {
    NO_UPDATE.(level := Some(level))
  }

  /** What a state message says about a gear. */
  datatype Shown = Shown(level: nat, status: nat, tc: Option<nat>, rgb: Option<Rgb>)

  const MASK: nat := 255

  function Show(g: Device): Shown
    requires g.Gear?
  {
    Shown(g.currentLevel, g.statusByte, if g.color.Some? then g.color.value.tc else None,
          if g.color.Some? then g.color.value.rgb else None)
  }

  datatype Message = Message(address: Long, shown: Shown)

  // ------------------------------------------------------------------ one update

  function OrElse<T>(update: Option<T>, old_: T): T {
    if update.Some? then update.value else old_
  }

  function UpdatedColor(color: Option<Color>, u: Update): Option<Color> {
    if u.tc.Some? || u.rgb.Some? || u.mode.Some? then
      var c := OrElse(color, DEFAULT_COLOR);
      Some(c.(tc := if u.tc.Some? then u.tc else c.tc, rgb := if u.rgb.Some? then u.rgb else c.rgb,
              mode := OrElse(u.mode, c.mode)))
    else color
  }

  /** The gear after an update: present parts replace the cached ones, and a positive level is remembered. */
  function Updated(g: Device, u: Update): (h: Device)
    requires g.Gear?
    ensures h.Gear? && h.shortAddress == g.shortAddress && h.longAddress == g.longAddress
  {
    g.(currentLevel := OrElse(u.level, g.currentLevel),
       lastLevel := if u.level.Some? && u.level.value > 0 then u.level.value else g.lastLevel,
       statusByte := OrElse(u.status, g.statusByte),
       color := UpdatedColor(g.color, u),
       initialSyncNeeded := false)
  }

  /** The most recent value of a part in a run of updates. */
  function Latest<T>(us: seq<Update>, part: Update -> Option<T>): Option<T>
    decreases |us|
  {
    if us == [] then None
    else if part(us[|us| - 1]).Some? then part(us[|us| - 1])
    else Latest(us[..|us| - 1], part)
  }

  function LevelPart(u: Update): Option<nat> { u.level }

  function PositivePart(u: Update): Option<nat> {
    if u.level.Some? && u.level.value == 0 then None else u.level
  }

  function StatusPart(u: Update): Option<nat> { u.status }

  function TcPart(u: Update): Option<nat> { u.tc }

  function RgbPart(u: Update): Option<Rgb> { u.rgb }

  function ModePart(u: Update): Option<ColorMode> { u.mode }

  /** The gear after a run of updates. */
  function AfterUpdates(g: Device, us: seq<Update>): (h: Device)
    requires g.Gear?
    ensures h.Gear?
    decreases |us|
  {
    if us == [] then g else Updated(AfterUpdates(g, us[..|us| - 1]), us[|us| - 1])
  }

  /** What a colour with no part known is taken to be. */
  function ColorOrDefault(color: Option<Color>): Color {
    if color.Some? then color.value else Color(TcMode, None, None, false, false)
  }

  /**
   * Over any run of updates each part of the state is the one reported last, or what it was; the last level is the most
   * recent positive one. A gear gets a colour with the first report about it. Nothing else ever changes.
   */
  lemma {:induction false} UpdatesAreLatest(g: Device, us: seq<Update>)
    requires g.Gear?
    ensures var h, c := AfterUpdates(g, us), ColorOrDefault(g.color);
            var tc, rgb, mode := Latest(us, TcPart), Latest(us, RgbPart), Latest(us, ModePart);
            h == g.(currentLevel := OrElse(Latest(us, LevelPart), g.currentLevel),
                    lastLevel := OrElse(Latest(us, PositivePart), g.lastLevel),
                    statusByte := OrElse(Latest(us, StatusPart), g.statusByte),
                    color := if tc.None? && rgb.None? && mode.None? then g.color
                             else Some(c.(tc := if tc.Some? then tc else c.tc, rgb := if rgb.Some? then rgb else c.rgb,
                                          mode := OrElse(mode, c.mode))),
                    initialSyncNeeded := us == [] && g.initialSyncNeeded)
    decreases |us|
  {
    if us != [] {
      UpdatesAreLatest(g, us[..|us| - 1]);
    }
  }

  /** Whether the update touches a part of the cached state that is shown. */
  predicate ShowsChange(g: Device, u: Update)
    requires g.Gear?
  {
    || (u.level.Some? && u.level.value != g.currentLevel)
    || (u.status.Some? && u.status.value != g.statusByte)
    || (u.tc.Some? && (g.color.None? || g.color.value.tc != u.tc))
    || (u.rgb.Some? && (g.color.None? || g.color.value.rgb != u.rgb))
  }

  /** Messages an update causes: none for an unknown level, one if something shown changed or was never shown. */
  function Messages(a: Long, g: Device, u: Update): seq<Message>
    requires g.Gear?
  {
    if (g.initialSyncNeeded || ShowsChange(g, u)) && Updated(g, u).currentLevel != MASK
    then [Message(a, Show(Updated(g, u)))] else []
  }

  function UpdatedMap(m: DeviceMap, a: Long, u: Update): DeviceMap {
    if a in m && m[a].Gear? then m[a := Updated(m[a], u)] else m
  }

  function MapMessages(m: DeviceMap, a: Long, u: Update): seq<Message> {
    if a in m && m[a].Gear? then Messages(a, m[a], u) else []
  }

  // ------------------------------------------------------------------ published state agrees with the cache

  /** The last message about `a`. */
  function LastShown(log: seq<Message>, a: Long): Option<Shown>
    decreases |log|
  {
    if log == [] then None
    else if log[|log| - 1].address == a then Some(log[|log| - 1].shown)
    else LastShown(log[..|log| - 1], a)
  }

  lemma {:induction false} LastShownAppend(log: seq<Message>, more: seq<Message>, a: Long)
    ensures LastShown(log + more, a) == if LastShown(more, a).Some? then LastShown(more, a) else LastShown(log, a)
    decreases |more|
  {
    if more == [] {
      assert log + more == log;
    } else {
      var k := |more| - 1;
      assert (log + more)[..|log| + k] == log + more[..k];
      LastShownAppend(log, more[..k], a);
    }
  }

  /** The last message about every gear that was synchronised and has a known level shows the cached state. */
  ghost predicate Agrees(m: DeviceMap, log: seq<Message>) {
    forall a | a in m && m[a].Gear? && !m[a].initialSyncNeeded && m[a].currentLevel != MASK ::
         LastShown(log, a) == Some(Show(m[a]))
  }

  /** An update changes what is shown exactly if it says so. */
  lemma ShownChanges(g: Device, u: Update)
    requires g.Gear?
    ensures ShowsChange(g, u) <==> Show(Updated(g, u)) != Show(g)
  {
  }

  lemma UpdateKeepsAgreement(m: DeviceMap, log: seq<Message>, a: Long, u: Update)
    requires Agrees(m, log)
    ensures Agrees(UpdatedMap(m, a, u), log + MapMessages(m, a, u))
  {
    var n := UpdatedMap(m, a, u);
    var more := MapMessages(m, a, u);
    if a in m && m[a].Gear? {
      ShownChanges(m[a], u);
    }
    forall b | b in n && n[b].Gear? && !n[b].initialSyncNeeded && n[b].currentLevel != MASK
      ensures LastShown(log + more, b) == Some(Show(n[b]))
    {
      LastShownAppend(log, more, b);
      assert more == [] || more == [more[0]];
    }
  }

  /** An update is about the one gear: nothing happens to others, and nothing at all for what is no known gear. */
  lemma UpdateIsLocal(m: DeviceMap, a: Long, u: Update)
    ensures UpdatedMap(m, a, u).Keys == m.Keys
    ensures forall b | b in m && b != a :: UpdatedMap(m, a, u)[b] == m[b]
    ensures forall e | e in MapMessages(m, a, u) :: e.address == a
    ensures a !in m || m[a].Input? ==> UpdatedMap(m, a, u) == m && MapMessages(m, a, u) == []
  {
  }

  datatype Report = Report(address: Long, update: Update)

  /** Cache and message log after a run of updates. */
  function AfterReports(m: DeviceMap, log: seq<Message>, reports: seq<Report>): (DeviceMap, seq<Message>)
    decreases |reports|
  {
    if reports == [] then (m, log)
    else
      var r := reports[0];
      AfterReports(UpdatedMap(m, r.address, r.update), log + MapMessages(m, r.address, r.update), reports[1..])
  }

  /** Over any run of updates, starting before anything was published, messages and cache agree. */
  lemma {:induction false} RunsAgree(m: DeviceMap, log: seq<Message>, reports: seq<Report>)
    requires Agrees(m, log)
    ensures Agrees(AfterReports(m, log, reports).0, AfterReports(m, log, reports).1)
    decreases |reports|
  {
    if reports != [] {
      var r := reports[0];
      UpdateKeepsAgreement(m, log, r.address, r.update);
      RunsAgree(UpdatedMap(m, r.address, r.update), log + MapMessages(m, r.address, r.update), reports[1..]);
    }
  }

  /**
   * A gear is published, once, exactly when what is shown changes to a known level, and with the first update that has
   * one.
   */
  lemma PublishedWhenChanged(a: Long, g: Device, u: Update)
    requires g.Gear?
    ensures var shown := Show(Updated(g, u));
            Messages(a, g, u) == if (g.initialSyncNeeded || shown != Show(g)) && shown.level != 255
                                 then [Message(a, shown)] else []
  {
    ShownChanges(g, u);
  }
}
