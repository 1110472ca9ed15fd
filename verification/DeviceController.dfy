/** The device controller: the caches it keeps, the frames it overhears, and the polls it asks for. */
module DeviceController {
  import opened Addressing
  import opened Ordered
  import opened Devices
  import opened Discovery
  import opened GroupAssignments
  import L = GroupLevels
  import S = Scheduler

  datatype BusFrame = BusFrame(data: nat, backward: bool)

  datatype Target = One(short: nat) | InGroup(group: nat) | Everyone | Nobody

  const OFF: nat := 0x00
  const UP: nat := 0x01
  const DOWN: nat := 0x02
  const STEP_UP: nat := 0x03
  const STEP_DOWN: nat := 0x04
  const RECALL_MAX: nat := 0x05
  const RECALL_MIN: nat := 0x06
  const STEP_DOWN_AND_OFF: nat := 0x07
  const ON_AND_STEP_UP: nat := 0x08
  const GO_TO_SCENE_0: nat := 0x10
  const GO_TO_SCENE_15: nat := 0x1F

  const BASE_DELAY: nat := 400
  const STAGGER: nat := 150

  /** A device entry that was never filled in. */
  const UNASSIGNED := Gear(0, 255, "", false, 0, 254, 0, 1, 254, 254, 254, None, None, false, true)

  // ------------------------------------------------------------------ what a frame does

  function TargetOf(addr: nat): Target {
    if addr < 0x80 then One(addr / 2)
    else if addr < 0xA0 then InGroup(addr / 2 % 16)
    else if addr == 0xFE || addr == 0xFF then Everyone
    else Nobody
  }

  function GroupAction(dacp: bool, cmd: nat): Option<L.Action> {
    if dacp then Some(L.Set(LevelUpdate(cmd)))
    else if cmd == OFF || cmd == STEP_DOWN_AND_OFF then Some(L.Set(LevelUpdate(0)))
    else if cmd == RECALL_MAX then Some(L.Set(LevelUpdate(254)))
    else if cmd == RECALL_MIN then Some(L.Set(LevelUpdate(1)))
    else if cmd == ON_AND_STEP_UP then Some(L.Restore)
    else if cmd == UP || cmd == STEP_UP then Some(L.Step(true))
    else if cmd == DOWN || cmd == STEP_DOWN then Some(L.Step(false))
    else None
  }

  function MembersOf(m: Assignments, order: seq<Long>, n: nat, g: nat): seq<Long>
    requires n <= |order| && forall a | a in order :: a in m
  {
    if n == 0 then []
    else MembersOf(m, order, n - 1, g) + (if g in m[order[n - 1]] then [order[n - 1]] else [])
  }

  /** The devices a frame is about, in the order in which they are handled. */
  function Affected(devices: DeviceMap, index: Index, m: Assignments, t: Target): seq<Long> {
    match t
    case One(short) => if short in index then [index[short]] else []
    case InGroup(g) => var order := Ascending(m.Keys); MembersOf(m, order, |order|, g)
    case Everyone => Ascending(devices.Keys)
    case Nobody => []
  }

  /** Recalling a level for a single device looks its entry up in a way that creates a missing one. */
  function Touched(devices: DeviceMap, affected: seq<Long>, dacp: bool, cmd: nat): DeviceMap {
    if !dacp && (cmd == RECALL_MAX || cmd == RECALL_MIN) && |affected| == 1 && affected[0] !in devices
    then devices[affected[0] := UNASSIGNED] else devices
  }

  function RestoreLevel(g: Device): nat
    requires g.Gear?
  {
    if g.lastLevel > 0 then g.lastLevel else 254
  }

  function KnownLevel(devices: DeviceMap, affected: seq<Long>, dacp: bool, cmd: nat): Option<nat> {
    if dacp then Some(cmd)
    else if cmd == OFF || cmd == STEP_DOWN_AND_OFF then Some(0)
    else if cmd == RECALL_MAX || cmd == RECALL_MIN then
      if |affected| == 1 then
        if affected[0] in devices && devices[affected[0]].Gear? then
          Some(if cmd == RECALL_MAX then devices[affected[0]].maxLevel else devices[affected[0]].minLevel)
        else None
      else Some(if cmd == RECALL_MAX then 254 else 1)
    else None
  }

  predicate IsOff(devices: DeviceMap, a: Long) {
    a in devices && devices[a].Gear? && devices[a].currentLevel == 0
  }

  predicate IsOn(devices: DeviceMap, a: Long) {
    a in devices && devices[a].Gear? && devices[a].currentLevel != 0
  }

  function Restored(devices: DeviceMap, affected: seq<Long>, n: nat): seq<Report>
    requires n <= |affected|
  {
    if n == 0 then []
    else
      var a := affected[n - 1];
      Restored(devices, affected, n - 1) +
      (if IsOff(devices, a) then [Report(a, LevelUpdate(RestoreLevel(devices[a])))] else [])
  }

  function SameLevel(affected: seq<Long>, n: nat, level: nat): seq<Report>
    requires n <= |affected|
  {
    seq(n, i requires 0 <= i < n => Report(affected[i], LevelUpdate(level)))
  }

  function Reports(devices: DeviceMap, affected: seq<Long>, dacp: bool, cmd: nat): seq<Report> {
    var level := KnownLevel(devices, affected, dacp, cmd);
    if level.Some? then SameLevel(affected, |affected|, level.value)
    else if cmd == ON_AND_STEP_UP then Restored(devices, affected, |affected|)
    else []
  }

  predicate NeedsQuery(devices: DeviceMap, affected: seq<Long>, dacp: bool, cmd: nat) {
    && !dacp
    && ((cmd == ON_AND_STEP_UP && exists i :: 0 <= i < |affected| && IsOn(devices, affected[i]))
        || UP <= cmd <= STEP_DOWN || GO_TO_SCENE_0 <= cmd <= GO_TO_SCENE_15)
  }

  /** The short addresses of the known ones among the first `n` devices. */
  function Shorts(devices: DeviceMap, affected: seq<Long>, n: nat): seq<nat>
    requires n <= |affected|
  {
    if n == 0 then []
    else
      Shorts(devices, affected, n - 1) +
      (if affected[n - 1] in devices then [devices[affected[n - 1]].shortAddress] else [])
  }

  /** Requests one after the other, each `step` later than the one before. */
  function Staggered(s: S.State, shorts: seq<nat>, base: nat, step: nat, now: int): S.State
    decreases |shorts|
  {
    if shorts == [] then s
    else
      var k := |shorts| - 1;
      S.Request(Staggered(s, shorts[..k], base, step, now), shorts[k], base + k * step, now)
  }

  function GearShorts(devices: DeviceMap, order: seq<Long>, n: nat): seq<nat>
    requires n <= |order| && forall a | a in order :: a in devices
  {
    if n == 0 then []
    else
      var d := devices[order[n - 1]];
      GearShorts(devices, order, n - 1) + (if d.Gear? then [d.shortAddress] else [])
  }

  datatype View = View(devices: DeviceMap, published: seq<Message>, groups: L.Board, sync: S.State)

  function GroupsAfter(groups: L.Board, t: Target, dacp: bool, cmd: nat): L.Board {
    if t.InGroup? && GroupAction(dacp, cmd).Some? then L.Acted(groups, t.group, GroupAction(dacp, cmd).value) else groups
  }

  /** Caches and scheduler once the devices that are affected by a command have been dealt with. */
  function Reacted(v: View, affected: seq<Long>, dacp: bool, cmd: nat, now: int): View {
    if affected == [] then v
    else
      var touched := Touched(v.devices, affected, dacp, cmd);
      var (devices, published) := AfterReports(touched, v.published, Reports(touched, affected, dacp, cmd));
      View(devices, published, v.groups,
           if NeedsQuery(touched, affected, dacp, cmd)
           then Staggered(v.sync, Shorts(devices, affected, |affected|), BASE_DELAY, STAGGER, now) else v.sync)
  }

  function Sniffed(v: View, index: Index, m: Assignments, f: BusFrame, now: int): View {
    if f.backward then v
    else
      var addr, cmd := f.data / 256 % 256, f.data % 256;
      var t := TargetOf(addr);
      Reacted(v.(groups := GroupsAfter(v.groups, t, addr % 2 == 0, cmd)), Affected(v.devices, index, m, t),
              addr % 2 == 0, cmd, now)
  }

  /** What a poll brought back: nothing at all from a device that does not respond. */
  datatype PollReply = PollReply(level: Option<nat>, status: Option<nat>, tc: Option<nat>, rgb: Option<Rgb>)

  /** The cached level stands in for an unknown one, and a dark gear is not asked for its colour. */
  function UpdateFrom(g: Device, r: PollReply): Update
    requires g.Gear? && r.level.Some?
  {
    var level := if r.level.value == MASK then g.currentLevel else r.level.value;
    Update(Some(level), r.status, if level == 0 then None else r.tc, if level == 0 then None else r.rgb, None)
  }

  function Polled(v: View, index: Index, short: nat, r: PollReply): View {
    if short in index && index[short] in v.devices then
      var a := index[short];
      var d := v.devices[a].(available := r.level.Some?);
      var devices := v.devices[a := d];
      if d.Gear? && r.level.Some? then
        v.(devices := UpdatedMap(devices, a, UpdateFrom(d, r)),
           published := v.published + MapMessages(devices, a, UpdateFrom(d, r)))
      else v.(devices := devices)
    else v
  }

  /** One turn of the sync task: the poll that is next, and at the end of a cycle the groups. */
  function TaskTurn(v: View, index: Index, m: Assignments, now: int, r: PollReply): View {
    var (poll, sync) := S.Turn(v.sync, now);
    var w := Polled(v.(sync := sync), index, poll.address, r);
    if poll.cycleDone then w.(groups := L.BoardSynced(w.groups, w.devices, m)) else w
  }

  lemma {:induction false} OneMoreReport(m: DeviceMap, log: seq<Message>, rs: seq<Report>, r: Report)
    ensures var (m1, log1) := AfterReports(m, log, rs);
            AfterReports(m, log, rs + [r]) ==
            (UpdatedMap(m1, r.address, r.update), log1 + MapMessages(m1, r.address, r.update))
    decreases |rs|
  {
    hide Updated, MapMessages, UpdatedMap;
    if rs == [] {
      assert rs + [r] == [r] && [r][1..] == [];
    } else {
      assert (rs + [r])[1..] == rs[1..] + [r] && (rs + [r])[0] == rs[0];
      var m1, log1 := UpdatedMap(m, rs[0].address, rs[0].update), log + MapMessages(m, rs[0].address, rs[0].update);
      OneMoreReport(m1, log1, rs[1..], r);
    }
  }

  // ------------------------------------------------------------------ the controller object

  class Controller {
    var devices: DeviceMap
    var index: Index
    ghost var published: seq<Message>
    const groups: L.GroupManager
    const scheduler: S.SyncScheduler

    ghost predicate Valid()
      reads this, groups, scheduler
    {
      groups.Valid() && scheduler.Valid()
    }

    ghost function Now(): View
      reads this, groups, groups.states, scheduler
    {
      View(devices, published, groups.View(), scheduler.View())
    }

    constructor ()
      ensures Valid() && fresh(groups) && fresh(groups.states) && fresh(scheduler)
      ensures index == map[]
      ensures Now() == View(map[], [], L.NEW_BOARD, S.State([], {}, [], 0))
    {
      devices, index, published := map[], map[], [];
      groups := new L.GroupManager();
      scheduler := new S.SyncScheduler();
    }

    function GetShortAddress(longAddress: Long): Option<nat>
      reads this
    {
      if longAddress in devices then Some(devices[longAddress].shortAddress) else None
    }

    function GetLongAddress(shortAddress: nat): Option<Long>
      reads this
    {
      if shortAddress in index then Some(index[shortAddress]) else None
    }

    /** Puts a reported state into the cache and publishes it if something shown changed. */
    method UpdateDeviceState(longAddr: Long, state: Update)
      modifies this`devices, this`published
      ensures devices == UpdatedMap(old(devices), longAddr, state)
      ensures published == old(published) + MapMessages(old(devices), longAddr, state)
    {
      hide ShowsChange, Updated;
      if longAddr in devices && devices[longAddr].Gear? {
        var gear, stateChanged := ChangeState(devices[longAddr], state);
        if stateChanged || gear.initialSyncNeeded {
          PublishState(longAddr, gear);
          gear := gear.(initialSyncNeeded := false);
        }
        devices := devices[longAddr := gear];
      }
    }

    method ChangeState(device: Device, state: Update) returns (gear: Device, stateChanged: bool)
      requires device.Gear?
      ensures gear.Gear? && gear.initialSyncNeeded == device.initialSyncNeeded
      ensures gear.(initialSyncNeeded := false) == Updated(device, state)
      ensures stateChanged <==> ShowsChange(device, state)
    {
      var level, last, status := device.currentLevel, device.lastLevel, device.statusByte;
      stateChanged := false;
      if state.level.Some? {
        var lvl := state.level.value;
        if lvl > 0 {
          last := lvl;
        }
        if level != lvl {
          level := lvl;
          stateChanged := true;
        }
      }
      if state.status.Some? && status != state.status.value {
        status := state.status.value;
        stateChanged := true;
      }
      hide UpdatedColor;
      var color, colorChanged := ChangeColor(device.color, state);
      stateChanged := stateChanged || colorChanged;
      gear := device.(currentLevel := level, lastLevel := last, statusByte := status, color := color);
    }

    method ChangeColor(color: Option<Color>, state: Update) returns (changed: Option<Color>, colorChanged: bool)
      ensures changed == UpdatedColor(color, state)
      ensures colorChanged <==> || (state.tc.Some? && (color.None? || color.value.tc != state.tc))
                                || (state.rgb.Some? && (color.None? || color.value.rgb != state.rgb))
    {
      changed, colorChanged := color, false;
      if state.tc.Some? || state.rgb.Some? || state.mode.Some? {
        var c := if color.Some? then color.value else DEFAULT_COLOR;
        if state.tc.Some? && c.tc != state.tc {
          c := c.(tc := state.tc);
          colorChanged := true;
        }
        if state.rgb.Some? && c.rgb != state.rgb {
          c := c.(rgb := state.rgb);
          colorChanged := true;
        }
        if state.mode.Some? {
          c := c.(mode := state.mode.value);
        }
        changed := Some(c);
      }
    }

    method PublishState(longAddr: Long, gear: Device)
      requires gear.Gear?
      modifies this`published
      ensures published == old(published) + (if gear.currentLevel == MASK then [] else [Message(longAddr, Show(gear))])
    {
      if gear.currentLevel == 255 {
        return;
      }
      published := published + [Message(longAddr, Show(gear))];
    }

    /** Keeps levels that a frame tells, and schedules polls of the devices whose level it leaves open. */
    method SnifferProcessFrame(frame: BusFrame, assignments: Assignments, now: int)
      requires Valid()
      modifies this`devices, this`published, groups, groups.states, scheduler
      ensures Valid() && Now() == Sniffed(old(Now()), index, assignments, frame, now)
    {
      hide Affected, GroupAction, Reacted;
      if frame.backward {
        return;
      }
      var addrByte, cmdByte := frame.data / 256 % 256, frame.data % 256;
      var affected, targetGroup := CollectTargets(addrByte, assignments);
      if targetGroup.Some? {
        UpdateTargetGroup(targetGroup.value, addrByte, cmdByte);
      }
      if affected == [] {
        NothingToReact(Now(), addrByte % 2 == 0, cmdByte, now);
        return;
      }
      React(affected, addrByte, cmdByte, now);
    }

    lemma NothingToReact(v: View, dacp: bool, cmd: nat, now: int)
      ensures Reacted(v, [], dacp, cmd, now) == v
    {
    }

    method CollectTargets(addrByte: nat, assignments: Assignments) returns (affected: seq<Long>, targetGroup: Option<nat>)
      requires addrByte < 256
      ensures affected == Affected(devices, index, assignments, TargetOf(addrByte))
      ensures targetGroup == if TargetOf(addrByte).InGroup? then Some(TargetOf(addrByte).group) else None
    {
      hide Ascending, MembersOf;
      affected, targetGroup := [], None;
      if !HasBit(addrByte, 0x01) {
        if !HasBit(addrByte, 0x80) {
          var longAddr := GetLongAddress(addrByte / 2 % 64);
          if longAddr.Some? {
            affected := affected + [longAddr.value];
          }
        } else if addrByte / 32 == 4 {
          targetGroup := Some(addrByte / 2 % 16);
        } else if addrByte == 0xFE {
          affected := Ascending(devices.Keys);
        }
      } else {
        if !HasBit(addrByte, 0x80) {
          var longAddr := GetLongAddress(addrByte / 2 % 64);
          if longAddr.Some? {
            affected := affected + [longAddr.value];
          }
        } else if addrByte / 32 == 4 {
          targetGroup := Some(addrByte / 2 % 16);
        } else if addrByte == 0xFF {
          affected := Ascending(devices.Keys);
        }
      }
      if targetGroup.Some? {
        affected := CollectMembers(targetGroup.value, assignments);
      }
    }

    method CollectMembers(group: nat, assignments: Assignments) returns (affected: seq<Long>)
      ensures affected == Affected(devices, index, assignments, InGroup(group))
    {
      affected := [];
      var order := Ascending(assignments.Keys);
      hide Ascending;
      for n := 0 to |order|
        invariant affected == MembersOf(assignments, order, n, group)
      {
        if group in assignments[order[n]] {
          affected := affected + [order[n]];
        }
      }
    }

    method UpdateTargetGroup(group: nat, addrByte: nat, cmdByte: nat)
      requires Valid() && group < GROUPS
      modifies groups, groups.states
      ensures Valid()
      ensures groups.View() == GroupsAfter(old(groups.View()), InGroup(group), addrByte % 2 == 0, cmdByte)
    {
      hide L.Acted;
      if !HasBit(addrByte, 0x01) {
        groups.UpdateGroupState(group, LevelUpdate(cmdByte));
      } else if cmdByte == OFF || cmdByte == STEP_DOWN_AND_OFF {
        groups.UpdateGroupState(group, LevelUpdate(0));
      } else if cmdByte == RECALL_MAX {
        groups.UpdateGroupState(group, LevelUpdate(254));
      } else if cmdByte == RECALL_MIN {
        groups.UpdateGroupState(group, LevelUpdate(1));
      } else if cmdByte == ON_AND_STEP_UP {
        groups.RestoreGroupLevel(group);
      } else if cmdByte == UP || cmdByte == STEP_UP {
        groups.StepGroupLevel(group, true);
      } else if cmdByte == DOWN || cmdByte == STEP_DOWN {
        groups.StepGroupLevel(group, false);
      }
    }

    method React(affected: seq<Long>, addrByte: nat, cmdByte: nat, now: int)
      requires Valid() && affected != []
      modifies this`devices, this`published, scheduler
      ensures Valid() && Now() == Reacted(old(Now()), affected, addrByte % 2 == 0, cmdByte, now)
    {
      hide AfterReports, Staggered, SameLevel;
      var knownLevel: Option<nat> := None;
      var needsQuery := false;
      if !HasBit(addrByte, 0x01) {
        knownLevel := Some(cmdByte);
      } else if cmdByte == OFF || cmdByte == STEP_DOWN_AND_OFF {
        knownLevel := Some(0);
      } else if cmdByte == ON_AND_STEP_UP {
        needsQuery := OnAndStepUp(affected);
      } else if cmdByte == RECALL_MAX || cmdByte == RECALL_MIN {
        if |affected| == 1 {
          if affected[0] !in devices {
            devices := devices[affected[0] := UNASSIGNED];
          }
          var device := devices[affected[0]];
          if device.Gear? {
            knownLevel := Some(if cmdByte == RECALL_MAX then device.maxLevel else device.minLevel);
          }
        } else {
          knownLevel := Some(if cmdByte == RECALL_MAX then 254 else 1);
        }
      } else if (UP <= cmdByte <= STEP_DOWN) || (GO_TO_SCENE_0 <= cmdByte <= GO_TO_SCENE_15) {
        needsQuery := true;
      } else {
        NoReports(devices, published);
        return;
      }
      if knownLevel.Some? {
        ApplyLevel(affected, knownLevel.value);
      } else {
        NoReports(devices, published);
        if needsQuery {
          SchedulePolls(affected, now);
        }
      }
    }

    lemma NoReports(m: DeviceMap, log: seq<Message>)
      ensures AfterReports(m, log, []) == (m, log)
    {
    }

    method ApplyLevel(affected: seq<Long>, level: nat)
      modifies this`devices, this`published
      ensures (devices, published) == AfterReports(old(devices), old(published), SameLevel(affected, |affected|, level))
    {
      hide AfterReports, UpdatedMap, MapMessages;
      NoReports(devices, published);
      assert SameLevel(affected, 0, level) == [];
      for n := 0 to |affected|
        invariant (devices, published) == AfterReports(old(devices), old(published), SameLevel(affected, n, level))
      {
        assert SameLevel(affected, n + 1, level) == SameLevel(affected, n, level) + [Report(affected[n], LevelUpdate(level))];
        OneMoreReport(old(devices), old(published), SameLevel(affected, n, level), Report(affected[n], LevelUpdate(level)));
        UpdateDeviceState(affected[n], LevelUpdate(level));
      }
    }

    /** Gears that are off are taken to go back to their last level; the others have to be asked. */
    method OnAndStepUp(affected: seq<Long>) returns (anyRequiresQuery: bool)
      modifies this`devices, this`published
      ensures (devices, published) == AfterReports(old(devices), old(published), Restored(old(devices), affected, |affected|))
      ensures anyRequiresQuery <==> exists i :: 0 <= i < |affected| && IsOn(old(devices), affected[i])
    {
      hide AfterReports, UpdatedMap, MapMessages;
      anyRequiresQuery := false;
      var updates: seq<Report> := [];
      for n := 0 to |affected|
        invariant updates == Restored(devices, affected, n)
        invariant anyRequiresQuery <==> exists i :: 0 <= i < n && IsOn(devices, affected[i])
        invariant devices == old(devices) && published == old(published)
      {
        var a := affected[n];
        if a in devices && devices[a].Gear? {
          var gear := devices[a];
          if gear.currentLevel == 0 {
            updates := updates + [Report(a, LevelUpdate(if gear.lastLevel > 0 then gear.lastLevel else 254))];
          } else {
            assert IsOn(devices, affected[n]);
            anyRequiresQuery := true;
          }
        }
      }
      NoReports(devices, published);
      for n := 0 to |updates|
        invariant (devices, published) == AfterReports(old(devices), old(published), updates[..n])
      {
        assert updates[..n + 1] == updates[..n] + [updates[n]];
        OneMoreReport(old(devices), old(published), updates[..n], updates[n]);
        UpdateDeviceState(updates[n].address, updates[n].update);
      }
      assert updates[..|updates|] == updates;
    }

    lemma OneMorePoll(s: S.State, before: seq<nat>, short: nat, base: nat, step: nat, now: int)
      ensures Staggered(s, before + [short], base, step, now) ==
              S.Request(Staggered(s, before, base, step, now), short, base + |before| * step, now)
    {
      assert (before + [short])[..|before|] == before;
    }

    method SchedulePolls(affected: seq<Long>, now: int)
      requires Valid()
      modifies scheduler
      ensures Valid()
      ensures scheduler.View() ==
              Staggered(old(scheduler.View()), Shorts(devices, affected, |affected|), BASE_DELAY, STAGGER, now)
    {
      hide S.Request, S.Inv;
      var currentDelay := 400;
      assert Shorts(devices, affected, 0) == [];
      for n := 0 to |affected|
        invariant Valid()
        invariant currentDelay == BASE_DELAY + |Shorts(devices, affected, n)| * STAGGER
        invariant scheduler.View() ==
                  Staggered(old(scheduler.View()), Shorts(devices, affected, n), BASE_DELAY, STAGGER, now)
      {
        var short := GetShortAddress(affected[n]);
        if short.Some? {
          var before, shorts := Shorts(devices, affected, n), Shorts(devices, affected, n + 1);
          assert shorts == before + [short.value];
          OneMorePoll(old(scheduler.View()), before, short.value, BASE_DELAY, STAGGER, now);
          scheduler.RequestDeviceSync(short.value, currentDelay, now);
          assert scheduler.View() == Staggered(old(scheduler.View()), shorts, BASE_DELAY, STAGGER, now);
          currentDelay := currentDelay + 150;
        } else {
          assert Shorts(devices, affected, n + 1) == Shorts(devices, affected, n);
        }
      }
    }

    /** Polls of all known control gear, one after the other. */
    method RequestBroadcastSync(baseDelay: nat, stagger: nat, now: int)
      requires Valid()
      modifies scheduler
      ensures Valid()
      ensures var order := Ascending(devices.Keys);
              scheduler.View() ==
              Staggered(old(scheduler.View()), GearShorts(devices, order, |order|), baseDelay, stagger, now)
    {
      var currentDelay: nat := baseDelay;
      var order := Ascending(devices.Keys);
      hide S.Request, S.Inv, Ascending, Staggered;
      NoPolls(scheduler.View(), baseDelay, stagger, now);
      for n := 0 to |order|
        invariant Valid()
        invariant currentDelay == baseDelay + |GearShorts(devices, order, n)| * stagger
        invariant scheduler.View() ==
                  Staggered(old(scheduler.View()), GearShorts(devices, order, n), baseDelay, stagger, now)
      {
        var device := devices[order[n]];
        if device.Gear? {
          OneMorePoll(old(scheduler.View()), GearShorts(devices, order, n), device.shortAddress, baseDelay, stagger, now);
          Multiple(|GearShorts(devices, order, n)|, stagger);
          scheduler.RequestDeviceSync(device.shortAddress, currentDelay, now);
          currentDelay := currentDelay + stagger;
        } else {
          assert GearShorts(devices, order, n + 1) == GearShorts(devices, order, n);
        }
      }
    }

    lemma NoPolls(s: S.State, base: nat, step: nat, now: int)
      ensures Staggered(s, [], base, step, now) == s
    {
    }

    lemma Multiple(k: nat, step: nat)
      ensures (k + 1) * step == k * step + step
    {
    }

    /** Asks every short address for a gear and an input device, and replaces both maps by what answered. */
    method DiscoverAndMapDevices(bus: Answers) returns (found: set<nat>)
      modifies this`devices, this`index
      ensures (devices, index) == Discovered(bus, SHORTS)
      ensures found == set sa | 0 <= sa < SHORTS && bus[sa].gear
    {
      var newDevices: DeviceMap := map[];
      var newIndex: Index := map[];
      found := {};
      for sa := 0 to 64
        invariant (newDevices, newIndex) == Discovered(bus, sa)
        invariant found == set s | 0 <= s < sa && bus[s].gear
      {
        if bus[sa].gear {
          found := found + {sa};
          if bus[sa].gearLong.Some? {
            var longAddr := bus[sa].gearLong.value;
            if longAddr !in newDevices {
              newDevices := newDevices[longAddr := NewGear(longAddr, sa)];
            }
            newIndex := newIndex[sa := longAddr];
          }
        }
        if bus[sa].input {
          var longAddr := if bus[sa].inputLong.Some? then bus[sa].inputLong.value else PSEUDO_ADDRESS + sa;
          if longAddr !in newDevices {
            newDevices := newDevices[longAddr := Input(longAddr, sa, "", true)];
          }
          newIndex := newIndex[sa + 0x80 := longAddr];
        }
      }
      devices, index := newDevices, newIndex;
    }

    /** Notes whether the device responds; its level, or the cached one if it does not know. */
    method PollAvailabilityAndLevel(longAddr: Long, level: Option<nat>) returns (known: Option<nat>)
      modifies this`devices
      ensures devices == if longAddr in old(devices)
                         then old(devices)[longAddr := old(devices)[longAddr].(available := level.Some?)] else old(devices)
      ensures known == if longAddr !in old(devices) || level.None? then None
                       else if level.value != MASK then level
                       else Some(if old(devices)[longAddr].Gear? then old(devices)[longAddr].currentLevel else 0)
    {
      if longAddr !in devices {
        return None;
      }
      var device := devices[longAddr];
      if device.available != level.Some? {
        device := device.(available := level.Some?);
      }
      devices := devices[longAddr := device];
      if level.None? {
        return None;
      }
      var cachedLevel := if device.Gear? then device.currentLevel else 0;
      return if level.value == 255 then Some(cachedLevel) else level;
    }

    method PollSingleDevice(shortAddr: nat, reply: PollReply)
      requires Valid()
      modifies this`devices, this`published
      ensures Valid() && Now() == Polled(old(Now()), index, shortAddr, reply)
    {
      hide UpdatedMap, MapMessages;
      if shortAddr !in index {
        return;
      }
      var longAddr := index[shortAddr];
      var level := PollAvailabilityAndLevel(longAddr, reply.level);
      if level.None? {
        return;
      }
      if !devices[longAddr].Gear? {
        return;
      }
      var tc, rgb := None, None;
      if level.value != 0 {
        tc, rgb := reply.tc, reply.rgb;
      }
      UpdateDeviceState(longAddr, Update(level, reply.status, tc, rgb, None));
    }

    /** One turn of the endless loop of the sync task; `reply` is what the poll of this turn brings back. */
    method SyncTaskTurn(assignments: Assignments, now: int, reply: PollReply)
      requires Valid()
      modifies this`devices, this`published, groups, groups.states, scheduler
      ensures Valid() && Now() == TaskTurn(old(Now()), index, assignments, now, reply)
    {
      hide S.Turn, Polled, S.Inv, L.BoardSynced;
      var poll := scheduler.SyncTurn(now);
      PollSingleDevice(poll.address, reply);
      if poll.cycleDone {
        groups.SyncGroups(devices, assignments);
      }
    }
  }
}
