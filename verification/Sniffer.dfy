/** What overhearing a frame guarantees for the devices the frame is about. */
module Sniffer {
  import opened Addressing
  import opened Adapter
  import opened Ordered
  import opened Devices
  import opened Discovery
  import opened GroupAssignments
  import opened DeviceController
  import L = GroupLevels
  import S = Scheduler

  // ------------------------------------------------------------------ decoding inverts encoding

  function FrameOn(f: Frame): BusFrame
    requires |f| == 2
  {
    BusFrame(f[0] * 256 + f[1], false)
  }

  function Meant(t: AddressType, addr: nat): Target {
    match t
    case Short => One(addr)
    case Group => InGroup(addr)
    case Broadcast => Everyone
    case Special => Nobody
  }

  predicate Addressable(t: AddressType, addr: nat) {
    match t
    case Short => addr < 64
    case Group => addr < GROUPS
    case Broadcast => true
    case Special => false
  }

  /** The frame of a level (`dacp`) or of a command. */
  function Sent(t: AddressType, addr: nat, dacp: bool, cmd: nat): Frame
    requires Addressable(t, addr) && cmd < 256
    ensures |Sent(t, addr, dacp, cmd)| == 2
  {
    [2 * AddressByte(t, addr) + (if dacp then 0 else 1), cmd]
  }

  /** What the adapter puts on the bus. */
  lemma FramesSent(t: AddressType, addr: nat, dacp: bool, cmd: nat)
    requires Addressable(t, addr) && cmd < 256
    ensures var f := Sent(t, addr, dacp, cmd);
            if dacp then DacpFrames(t, addr, cmd) == [f]
            else CommandFrames(t, addr, cmd, false) == [f] && CommandFrames(t, addr, cmd, true) == [f, f]
  {
    var y := AddressByte(t, addr);
    assert y < 80 || y == 127;
    assert 2 * y % 256 == 2 * y && (2 * y + 1) % 256 == 2 * y + 1;
    hide AddressByte;
  }

  /** What is put on the bus is decoded to the kind of frame, the target and the command the adapter was given. */
  lemma TargetRoundTrip(t: AddressType, addr: nat, dacp: bool, cmd: nat)
    requires Addressable(t, addr) && cmd < 256
    ensures var f := Sent(t, addr, dacp, cmd);
            && FrameOn(f).data / 256 % 256 == f[0] && FrameOn(f).data % 256 == cmd
            && TargetOf(f[0]) == Meant(t, addr) && (f[0] % 2 == 0 <==> dacp)
  {
    var b := Sent(t, addr, dacp, cmd)[0];
    assert b < 256 && TargetOf(b) == Meant(t, addr);
    ByteOnBus(b, cmd);
  }

  lemma ByteOnBus(b: nat, cmd: nat)
    requires b < 256 && cmd < 256
    ensures (b * 256 + cmd) / 256 % 256 == b && (b * 256 + cmd) % 256 == cmd
  {
  }

  predicate Aims(b: nat, t: AddressType, addr: nat) {
    Addressable(t, addr) && TargetOf(b) == Meant(t, addr) && Sent(t, addr, b % 2 == 0, 0)[0] == b
  }

  /** And every address byte that is taken for a target is the one the adapter uses for it. */
  lemma TargetByteIsSent(b: nat)
    requires b < 256 && TargetOf(b) != Nobody
    ensures exists t, addr :: Aims(b, t, addr)
  {
    match TargetOf(b)
    case One(short) => assert Aims(b, Short, short);
    case InGroup(g) => assert Aims(b, Group, g);
    case Everyone => assert Aims(b, Broadcast, 0);
  }

  /**
   * A special command is overheard without effect exactly if its code is one of 0xA0 to 0xFD; the driver accepts
   * smaller codes too, and those look like frames to a short address or a group.
   */
  lemma SpecialIsIgnored(arg: nat, code: nat, sendTwice: bool)
    requires arg < 256 && code < 256
    ensures var frames := CommandFrames(Special, arg, code, sendTwice);
            && (frames == [] <==> code >= 0xFE)
            && (forall f | f in frames :: f == [code, arg])
            && (code < 0xFE ==> (TargetOf(code) == Nobody <==> 0xA0 <= code))
  {
  }

  lemma NobodyIsAffected(v: View, index: Index, m: Assignments, f: BusFrame, now: int)
    requires f.backward || TargetOf(f.data / 256 % 256) == Nobody
    ensures Sniffed(v, index, m, f, now) == v
  {
  }

  // ------------------------------------------------------------------ whom a frame is about

  function Targeted(devices: DeviceMap, index: Index, m: Assignments, t: Target): set<Long> {
    match t
    case One(short) => if short in index then {index[short]} else {}
    case InGroup(g) => set a | a in m && g in m[a]
    case Everyone => devices.Keys
    case Nobody => {}
  }

  ghost predicate Increasing(s: seq<nat>) {
    forall i, j | 0 <= i < j < |s| :: s[i] < s[j]
  }

  lemma {:induction false} MembersOfIs(m: Assignments, order: seq<Long>, n: nat, g: nat)
    requires n <= |order| && Increasing(order) && forall a | a in order :: a in m
    ensures var s := MembersOf(m, order, n, g);
            && Increasing(s)
            && (forall a :: a in s <==> a in order[..n] && g in m[a])
    decreases n
  {
    if n > 0 {
      MembersOfIs(m, order, n - 1, g);
      assert order[..n] == order[..n - 1] + [order[n - 1]];
      var before := MembersOf(m, order, n - 1, g);
      assert forall i | 0 <= i < |before| :: before[i] in before;
    }
  }

  /** Each targeted device is handled exactly once. */
  lemma AffectedIsTargeted(devices: DeviceMap, index: Index, m: Assignments, t: Target)
    ensures var s := Affected(devices, index, m, t);
            && Increasing(s)
            && (forall a :: a in s <==> a in Targeted(devices, index, m, t))
            && |s| == |Targeted(devices, index, m, t)|
  {
    hide Ascending;
    if t.InGroup? {
      var order := Ascending(m.Keys);
      MembersOfIs(m, order, |order|, t.group);
      assert order[..|order|] == order;
    }
    IncreasingSize(Affected(devices, index, m, t), Targeted(devices, index, m, t));
  }

  lemma {:induction false} IncreasingSize(s: seq<nat>, keys: set<nat>)
    requires Increasing(s) && forall a :: a in s <==> a in keys
    ensures |s| == |keys|
    decreases |s|
  {
    if s == [] {
      assert keys == {};
    } else {
      var k := |s| - 1;
      assert forall a | a in s :: a == s[k] || a in s[..k];
      assert forall a | a in s[..k] :: a < s[k];
      IncreasingSize(s[..k], keys - {s[k]});
    }
  }

  // ------------------------------------------------------------------ a batch of reports

  ghost predicate OncePerDevice(rs: seq<Report>) {
    forall i, j | 0 <= i < j < |rs| :: rs[i].address != rs[j].address
  }

  lemma {:induction false} ReportReaches(m: DeviceMap, log: seq<Message>, rs: seq<Report>, a: Long, u: Update)
    requires OncePerDevice(rs) && a in m && m[a].Gear? && Report(a, u) in rs
    ensures var after := AfterReports(m, log, rs).0; a in after && after[a] == Updated(m[a], u)
    decreases |rs|
  {
    hide Updated, MapMessages;
    var r := rs[0];
    var m1, log1 := UpdatedMap(m, r.address, r.update), log + MapMessages(m, r.address, r.update);
    if r == Report(a, u) {
      assert forall q | q in rs[1..] :: q.address != a;
      ReportsSpare(m1, log1, rs[1..], a);
    } else {
      assert r.address != a;
      ReportReaches(m1, log1, rs[1..], a, u);
    }
  }

  lemma {:induction false} ReportsSpare(m: DeviceMap, log: seq<Message>, rs: seq<Report>, a: Long)
    requires forall r | r in rs :: r.address != a
    ensures var after := AfterReports(m, log, rs).0; (a in after <==> a in m) && (a in m ==> after[a] == m[a])
    decreases |rs|
  {
    hide Updated, MapMessages;
    if rs != [] {
      ReportsSpare(UpdatedMap(m, rs[0].address, rs[0].update), log + MapMessages(m, rs[0].address, rs[0].update), rs[1..], a);
    }
  }

  /** Reports never add a device, remove one or move it to another address. */
  lemma {:induction false} ReportsKeepAddresses(m: DeviceMap, log: seq<Message>, rs: seq<Report>)
    ensures var after := AfterReports(m, log, rs).0;
            && after.Keys == m.Keys
            && forall a | a in m :: after[a].shortAddress == m[a].shortAddress && (after[a].Gear? <==> m[a].Gear?)
                                    && after[a].longAddress == m[a].longAddress
    decreases |rs|
  {
    hide MapMessages;
    if rs != [] {
      ReportsKeepAddresses(UpdatedMap(m, rs[0].address, rs[0].update), log + MapMessages(m, rs[0].address, rs[0].update), rs[1..]);
    }
  }

  lemma {:induction false} RestoredIs(devices: DeviceMap, affected: seq<Long>, n: nat)
    requires n <= |affected| && Increasing(affected)
    ensures var rs := Restored(devices, affected, n);
            && OncePerDevice(rs)
            && (forall r | r in rs :: r.address in affected[..n] && IsOff(devices, r.address))
            && (forall a | a in affected[..n] && IsOff(devices, a) ::
                  Report(a, LevelUpdate(RestoreLevel(devices[a]))) in rs)
    decreases n
  {
    if n > 0 {
      RestoredIs(devices, affected, n - 1);
      assert affected[..n] == affected[..n - 1] + [affected[n - 1]];
      var before := Restored(devices, affected, n - 1);
      assert forall i | 0 <= i < |before| :: before[i] in before;
    }
  }

  // ------------------------------------------------------------------ staggered polls

  lemma {:induction false} StaggeredSchedules(s: S.State, shorts: seq<nat>, base: nat, step: nat, now: int)
    requires S.Inv(s)
    ensures var r := Staggered(s, shorts, base, step, now);
            && S.Inv(r) && s.queue <= r.queue && s.deferred <= r.deferred
            && (forall k | 0 <= k < |shorts| && shorts[k] < S.ADDRESSES ::
                  if base + k * step == 0 then shorts[k] in r.queue
                  else S.Deferred(shorts[k], now + base + k * step) in r.deferred)
    decreases |shorts|
  {
    hide S.Inv;
    if shorts != [] {
      var k := |shorts| - 1;
      StaggeredSchedules(s, shorts[..k], base, step, now);
      var t := Staggered(s, shorts[..k], base, step, now);
      S.RequestKeepsInv(t, shorts[k], base + k * step, now);
      S.RequestIsKept(t, shorts[k], base + k * step, now);
      assert forall i | 0 <= i < k :: shorts[..k][i] == shorts[i];
    }
  }

  /** A poll of one of the addresses, at its place in the stagger. */
  ghost predicate IsPollOf(d: S.Deferred, shorts: seq<nat>, base: nat, step: nat, now: int) {
    exists k :: 0 <= k < |shorts| && d == S.Deferred(shorts[k], now + base + k * step)
  }

  /** With a positive delay nothing is queued at once, and each new poll is due later than the one before. */
  lemma {:induction false} StaggeredIncreases(s: S.State, shorts: seq<nat>, base: nat, step: nat, now: int)
    requires base > 0 && step > 0
    ensures var r := Staggered(s, shorts, base, step, now);
            && r.queue == s.queue && r.members == s.members && r.roundRobin == s.roundRobin
            && |s.deferred| <= |r.deferred| && r.deferred[..|s.deferred|] == s.deferred
            && (forall i | |s.deferred| <= i < |r.deferred| ::
                  r.deferred[i].at < now + base + |shorts| * step && IsPollOf(r.deferred[i], shorts, base, step, now))
            && (forall i, j | |s.deferred| <= i < j < |r.deferred| :: r.deferred[i].at < r.deferred[j].at)
    decreases |shorts|
  {
    if shorts != [] {
      var n := |shorts| - 1;
      StaggeredIncreases(s, shorts[..n], base, step, now);
      var t, r := Staggered(s, shorts[..n], base, step, now), Staggered(s, shorts, base, step, now);
      assert |shorts| * step == n * step + step;
      forall i | |s.deferred| <= i < |r.deferred|
        ensures r.deferred[i].at < now + base + |shorts| * step
        ensures IsPollOf(r.deferred[i], shorts, base, step, now)
      {
        if i < |t.deferred| {
          assert t.deferred[i] == r.deferred[i] && IsPollOf(t.deferred[i], shorts[..n], base, step, now);
          var k :| 0 <= k < n && t.deferred[i] == S.Deferred(shorts[..n][k], now + base + k * step);
          assert shorts[k] == shorts[..n][k];
        } else {
          assert r.deferred[i] == S.Deferred(shorts[n], now + base + n * step);
        }
      }
    }
  }

  /** Nothing else is queued or deferred. */
  lemma {:induction false} StaggeredOnly(s: S.State, shorts: seq<nat>, base: nat, step: nat, now: int)
    ensures var r := Staggered(s, shorts, base, step, now);
            && (forall a | a in r.queue :: a in s.queue || (a in shorts && a < 64))
            && (forall d | d in r.deferred :: d in s.deferred || (IsPollOf(d, shorts, base, step, now) && d.address < 64))
            && |r.deferred| <= |s.deferred| + |shorts| && r.roundRobin == s.roundRobin
    decreases |shorts|
  {
    if shorts != [] {
      var k := |shorts| - 1;
      StaggeredOnly(s, shorts[..k], base, step, now);
      var t, r := Staggered(s, shorts[..k], base, step, now), Staggered(s, shorts, base, step, now);
      assert shorts[k] in shorts && forall a | a in shorts[..k] :: a in shorts;
      forall d | d in r.deferred
        ensures d in s.deferred || (IsPollOf(d, shorts, base, step, now) && d.address < 64)
      {
        if d in t.deferred && d !in s.deferred {
          PollOfPrefix(d, shorts, base, step, now);
        } else if d !in s.deferred {
          assert d == S.Deferred(shorts[k], now + base + k * step);
        }
      }
    }
  }

  lemma PollOfPrefix(d: S.Deferred, shorts: seq<nat>, base: nat, step: nat, now: int)
    requires shorts != [] && IsPollOf(d, shorts[..|shorts| - 1], base, step, now)
    ensures IsPollOf(d, shorts, base, step, now)
  {
    var k :| 0 <= k < |shorts| - 1 && d == S.Deferred(shorts[..|shorts| - 1][k], now + base + k * step);
    assert shorts[..|shorts| - 1][k] == shorts[k];
  }

  /** The addresses polled are those of the known devices among the affected ones, in their order. */
  lemma {:induction false} ShortsOnly(devices: DeviceMap, affected: seq<Long>, n: nat)
    requires n <= |affected|
    ensures forall s | s in Shorts(devices, affected, n) ::
              exists a :: a in affected[..n] && a in devices && devices[a].shortAddress == s
    ensures |Shorts(devices, affected, n)| <= n
    decreases n
  {
    if n > 0 {
      ShortsOnly(devices, affected, n - 1);
      assert affected[..n] == affected[..n - 1] + [affected[n - 1]];
      forall s | s in Shorts(devices, affected, n)
        ensures exists a :: a in affected[..n] && a in devices && devices[a].shortAddress == s
      {
        if s in Shorts(devices, affected, n - 1) {
          var a :| a in affected[..n - 1] && a in devices && devices[a].shortAddress == s;
          assert a in affected[..n];
        } else {
          assert affected[n - 1] in affected[..n];
        }
      }
    }
  }

  lemma {:induction false} ShortsIs(devices: DeviceMap, affected: seq<Long>, n: nat, a: Long)
    requires n <= |affected| && a in affected[..n] && a in devices
    ensures devices[a].shortAddress in Shorts(devices, affected, n)
    decreases n
  {
    assert affected[..n] == affected[..n - 1] + [affected[n - 1]];
    if a != affected[n - 1] {
      ShortsIs(devices, affected, n - 1, a);
    }
  }

  // ------------------------------------------------------------------ coverage

  /** OFF, UP, DOWN, the steps, the recalled levels, and the scenes. */
  predicate IsLevelCommand(cmd: nat) {
    cmd <= 0x08 || 0x10 <= cmd <= 0x1F
  }

  /** The level a gear is taken to be at after a frame; none if that cannot be told without asking. */
  function LevelMeant(g: Device, dacp: bool, cmd: nat, alone: bool): Option<nat>
    requires g.Gear?
  {
    if dacp then Some(cmd)
    else if cmd == 0x00 || cmd == 0x07 then Some(0)
    else if cmd == 0x05 then Some(if alone then g.maxLevel else 254)
    else if cmd == 0x06 then Some(if alone then g.minLevel else 1)
    else if cmd == 0x08 && g.currentLevel == 0 then Some(if g.lastLevel > 0 then g.lastLevel else 254)
    else None
  }

  /** A level puts a gear to that level, and is what it goes back to if it is positive; nothing else changes. */
  lemma LevelIsCached(g: Device, level: nat)
    requires g.Gear?
    ensures Updated(g, LevelUpdate(level)) ==
            g.(currentLevel := level, lastLevel := if level > 0 then level else g.lastLevel, initialSyncNeeded := false)
  {
  }

  /** The cached level of `g` is the one meant, or else `g` is as it was and a poll of it has been scheduled. */
  ghost predicate Covered(g: Device, h: Device, meant: Option<nat>, sync: S.State, now: int)
    requires g.Gear?
  {
    if meant.Some? then
      h == g.(currentLevel := meant.value, lastLevel := if meant.value > 0 then meant.value else g.lastLevel,
              initialSyncNeeded := false)
    else
      && h == g
      && (g.shortAddress < S.ADDRESSES ==>
            exists k: nat :: S.Deferred(g.shortAddress, now + 400 + k * 150) in sync.deferred)
  }

  lemma ReportedIsCovered(devices: DeviceMap, log: seq<Message>, affected: seq<Long>, dacp: bool, cmd: nat, a: Long)
    requires Increasing(affected) && a in affected && a in devices && devices[a].Gear?
    ensures var after := AfterReports(devices, log, Reports(devices, affected, dacp, cmd)).0;
            var meant := LevelMeant(devices[a], dacp, cmd, |affected| == 1);
            a in after && after[a] == if meant.Some? then Updated(devices[a], LevelUpdate(meant.value)) else devices[a]
  {
    hide Updated, AfterReports;
    var rs := Reports(devices, affected, dacp, cmd);
    var meant := LevelMeant(devices[a], dacp, cmd, |affected| == 1);
    if |affected| == 1 { assert a == affected[0]; }
    if meant.None? {
      RestoredIs(devices, affected, |affected|);
      ReportsSpare(devices, log, rs, a);
    } else if !dacp && cmd == ON_AND_STEP_UP {
      RestoredIs(devices, affected, |affected|);
      assert affected[..|affected|] == affected;
      ReportReaches(devices, log, rs, a, LevelUpdate(meant.value));
    } else {
      assert rs == SameLevel(affected, |affected|, meant.value);
      var i :| 0 <= i < |affected| && affected[i] == a;
      assert rs[i] == Report(a, LevelUpdate(meant.value));
      ReportReaches(devices, log, rs, a, LevelUpdate(meant.value));
    }
  }

  lemma ReactedCovers(v: View, affected: seq<Long>, dacp: bool, cmd: nat, now: int, a: Long)
    requires S.Inv(v.sync) && Increasing(affected) && a in affected && a in v.devices && v.devices[a].Gear?
    requires dacp || IsLevelCommand(cmd)
    ensures var w := Reacted(v, affected, dacp, cmd, now);
            && a in w.devices
            && Covered(v.devices[a], w.devices[a], LevelMeant(v.devices[a], dacp, cmd, |affected| == 1), w.sync, now)
  {
    hide Updated, AfterReports, Staggered, S.Inv;
    var rs := Reports(v.devices, affected, dacp, cmd);
    if |affected| == 1 { assert a == affected[0]; }
    assert Touched(v.devices, affected, dacp, cmd) == v.devices;
    ReportedIsCovered(v.devices, v.published, affected, dacp, cmd, a);
    ReportsKeepAddresses(v.devices, v.published, rs);
    if LevelMeant(v.devices[a], dacp, cmd, |affected| == 1).Some? {
      LevelIsCached(v.devices[a], LevelMeant(v.devices[a], dacp, cmd, |affected| == 1).value);
    } else {
      var i :| 0 <= i < |affected| && affected[i] == a;
      assert cmd == ON_AND_STEP_UP ==> IsOn(v.devices, affected[i]);
      var after := AfterReports(v.devices, v.published, rs).0;
      var shorts := Shorts(after, affected, |affected|);
      assert affected[..|affected|] == affected;
      ShortsIs(after, affected, |affected|, a);
      StaggeredSchedules(v.sync, shorts, BASE_DELAY, STAGGER, now);
      var k :| 0 <= k < |shorts| && shorts[k] == v.devices[a].shortAddress;
    }
  }

  /**
   * Coverage: whatever level or level command the adapter sends to whatever address, every known control gear it is
   * about ends up with the level meant in the cache, or with a poll scheduled.
   */
  lemma SniffedCovers(v: View, index: Index, m: Assignments, t: AddressType, addr: nat, dacp: bool, cmd: nat,
                      now: int, a: Long)
    requires S.Inv(v.sync) && Addressable(t, addr) && cmd < 256 && (dacp || IsLevelCommand(cmd))
    requires a in Targeted(v.devices, index, m, Meant(t, addr)) && a in v.devices && v.devices[a].Gear?
    ensures var w := Sniffed(v, index, m, FrameOn(Sent(t, addr, dacp, cmd)), now);
            var alone := |Targeted(v.devices, index, m, Meant(t, addr))| == 1;
            && a in w.devices
            && Covered(v.devices[a], w.devices[a], LevelMeant(v.devices[a], dacp, cmd, alone), w.sync, now)
  {
    hide Reacted, Covered, Affected, Targeted, LevelMeant;
    TargetRoundTrip(t, addr, dacp, cmd);
    AffectedIsTargeted(v.devices, index, m, Meant(t, addr));
    var groups := GroupsAfter(v.groups, Meant(t, addr), dacp, cmd);
    ReactedCovers(v.(groups := groups), Affected(v.devices, index, m, Meant(t, addr)), dacp, cmd, now, a);
  }

  /** Group `g` has gone to `level` and was published so; its colour and all other groups are as they were. */
  predicate GroupAt(before: L.Board, after: L.Board, g: nat, level: nat)
    requires g < |before.states|
  {
    var state := before.states[g];
    var now := state.(currentLevel := level, lastLevel := if level > 0 then level else state.lastLevel);
    after == L.Board(before.states[g := now], before.published + [L.GroupMessage(g, now)])
  }

  /**
   * What a frame does to the group it is about: a direct level is taken over; OFF and STEP DOWN AND OFF are 0, RECALL
   * MAX is 254, RECALL MIN is 1, ON AND STEP UP is the level the group had last; UP, DOWN and the steps move a group
   * that is on by ten within 1 to 254; anything else leaves it alone.
   */
  lemma SniffedGroup(v: View, index: Index, m: Assignments, g: nat, dacp: bool, cmd: nat, now: int)
    requires g < GROUPS == |v.groups.states| && cmd < 256
    ensures var before := v.groups;
            var after := Sniffed(v, index, m, FrameOn(Sent(Group, g, dacp, cmd)), now).groups;
            var level, last := before.states[g].currentLevel, before.states[g].lastLevel;
            if dacp then GroupAt(before, after, g, cmd)
            else if cmd == 0x00 || cmd == 0x07 then GroupAt(before, after, g, 0)
            else if cmd == 0x05 then GroupAt(before, after, g, 254)
            else if cmd == 0x06 then GroupAt(before, after, g, 1)
            else if cmd == 0x08 then GroupAt(before, after, g, if last > 0 then last else 254)
            else if (cmd == 0x01 || cmd == 0x03) && level > 0 && level != 254 then
              GroupAt(before, after, g, if level > 244 then 254 else level + 10)
            else if (cmd == 0x02 || cmd == 0x04) && level > 1 then
              GroupAt(before, after, g, if level < 11 then 1 else level - 10)
            else after == before
  {
    hide Affected, Reacted, TargetOf, AddressByte;
    TargetRoundTrip(Group, g, dacp, cmd);
    ReactedKeepsGroups(v.(groups := GroupsAfter(v.groups, InGroup(g), dacp, cmd)),
                       Affected(v.devices, index, m, InGroup(g)), dacp, cmd, now);
    assert v.groups.published + [] == v.groups.published;
  }

  lemma ReactedKeepsGroups(v: View, affected: seq<Long>, dacp: bool, cmd: nat, now: int)
    ensures Reacted(v, affected, dacp, cmd, now).groups == v.groups
  {
  }

  // ------------------------------------------------------------------ and nothing else

  /** Devices a frame is not about keep their entry, groups it is not about keep their state, and none goes missing. */
  lemma SniffedLeavesOthers(v: View, index: Index, m: Assignments, f: BusFrame, now: int)
    ensures var w := Sniffed(v, index, m, f, now);
            var t := TargetOf(f.data / 256 % 256);
            && (forall a | a !in Targeted(v.devices, index, m, t) ::
                  (a in w.devices <==> a in v.devices) && (a in v.devices ==> w.devices[a] == v.devices[a]))
            && v.devices.Keys <= w.devices.Keys
            && |w.groups.states| == |v.groups.states|
            && (forall g: nat | g < |v.groups.states| && t != InGroup(g) :: w.groups.states[g] == v.groups.states[g])
  {
    hide AfterReports, Updated, Affected, Targeted, Staggered;
    if !f.backward {
      var addr, cmd := f.data / 256 % 256, f.data % 256;
      var t := TargetOf(addr);
      var affected := Affected(v.devices, index, m, t);
      AffectedIsTargeted(v.devices, index, m, t);
      if affected != [] {
        var touched := Touched(v.devices, affected, addr % 2 == 0, cmd);
        var rs := Reports(touched, affected, addr % 2 == 0, cmd);
        ReportsKeepAddresses(touched, v.published, rs);
        assert touched.Keys <= v.devices.Keys + {affected[0]};
        forall a | a !in affected
          ensures var after := AfterReports(touched, v.published, rs).0;
                  (a in after <==> a in v.devices) && (a in v.devices ==> after[a] == v.devices[a])
        {
          ReportsAreAffected(touched, affected, addr % 2 == 0, cmd, a);
          ReportsSpare(touched, v.published, rs, a);
        }
      }
    }
  }

  lemma ReportsAreAffected(devices: DeviceMap, affected: seq<Long>, dacp: bool, cmd: nat, a: Long)
    requires Increasing(affected) && a !in affected
    ensures forall r | r in Reports(devices, affected, dacp, cmd) :: r.address != a
  {
    RestoredIs(devices, affected, |affected|);
    assert affected[..|affected|] == affected;
  }

  /** A frame that recalls a level for one device only, which is not known. */
  ghost predicate AddsEntry(devices: DeviceMap, index: Index, m: Assignments, f: BusFrame) {
    var addr, cmd := f.data / 256 % 256, f.data % 256;
    var targeted := Targeted(devices, index, m, TargetOf(addr));
    && !f.backward && addr % 2 == 1 && (cmd == RECALL_MAX || cmd == RECALL_MIN)
    && |targeted| == 1 && targeted !! devices.Keys
  }

  /** The entry that looking up a missing one creates, once it has been brought to a level. */
  function Added(cmd: nat): Device {
    var level := if cmd == 0x05 then 254 else 1;
    Gear(0, 255, "", false, level, level, 0, 1, 254, 254, 254, None, None, false, false)
  }

  lemma ReactedAddsEntry(v: View, affected: seq<Long>, dacp: bool, cmd: nat, now: int)
    requires Increasing(affected)
    ensures var w := Reacted(v, affected, dacp, cmd, now).devices;
            var adds := !dacp && (cmd == RECALL_MAX || cmd == RECALL_MIN) && |affected| == 1
                        && affected[0] !in v.devices;
            && w.Keys == v.devices.Keys + (if adds then {affected[0]} else {})
            && (forall a | a in v.devices :: w[a].longAddress == v.devices[a].longAddress)
            && (adds ==> w[affected[0]] == Added(cmd))
  {
    hide AfterReports, Staggered, NeedsQuery, Reports, Shorts, Updated;
    var touched := Touched(v.devices, affected, dacp, cmd);
    ReportsKeepAddresses(touched, v.published, Reports(touched, affected, dacp, cmd));
    if affected != [] && touched != v.devices {
      ReportedIsCovered(touched, v.published, affected, dacp, cmd, affected[0]);
      LevelIsCached(UNASSIGNED, if cmd == RECALL_MAX then 254 else 1);
    }
  }

  /**
   * Such a frame, and no other, adds an entry: one for the device it is about, with default values, no address of its
   * own and the level recalled. All other entries keep their long addresses.
   */
  lemma SniffedAddsEntry(v: View, index: Index, m: Assignments, f: BusFrame, now: int)
    ensures var w := Sniffed(v, index, m, f, now).devices;
            var targeted := Targeted(v.devices, index, m, TargetOf(f.data / 256 % 256));
            && w.Keys == v.devices.Keys + (if AddsEntry(v.devices, index, m, f) then targeted else {})
            && (forall a | a in v.devices :: w[a].longAddress == v.devices[a].longAddress)
            && (forall a | a in w && a !in v.devices :: w[a] == Added(f.data % 256))
  {
    hide Affected, Targeted, Reacted, GroupsAfter, Added;
    if !f.backward {
      var addr, cmd := f.data / 256 % 256, f.data % 256;
      var t := TargetOf(addr);
      var affected := Affected(v.devices, index, m, t);
      AffectedIsTargeted(v.devices, index, m, t);
      ReactedAddsEntry(v.(groups := GroupsAfter(v.groups, t, addr % 2 == 0, cmd)), affected, addr % 2 == 0, cmd, now);
      OnlyAffected(affected, Targeted(v.devices, index, m, t));
    }
  }

  lemma OnlyAffected(affected: seq<Long>, targeted: set<Long>)
    requires |affected| == |targeted| && forall a :: a in affected <==> a in targeted
    ensures |affected| == 1 ==> targeted == {affected[0]}
  {
  }

  /** New polls are each for a device the frame is about, due 400 ms plus a multiple of 150 ms later, all different. */
  lemma SniffedPolls(v: View, index: Index, m: Assignments, f: BusFrame, now: int)
    ensures var r, s := Sniffed(v, index, m, f, now).sync, v.sync;
            var affected := Affected(v.devices, index, m, TargetOf(f.data / 256 % 256));
            && r.queue == s.queue && r.members == s.members && r.roundRobin == s.roundRobin
            && |s.deferred| <= |r.deferred| && r.deferred[..|s.deferred|] == s.deferred
            && (forall i | |s.deferred| <= i < |r.deferred| ::
                  IsPollOf(r.deferred[i], Shorts(Sniffed(v, index, m, f, now).devices, affected, |affected|),
                           400, 150, now))
            && (forall i, j | |s.deferred| <= i < j < |r.deferred| :: r.deferred[i].at < r.deferred[j].at)
  {
    hide AfterReports, Affected, Staggered, NeedsQuery, Reports, Shorts;
    if !f.backward {
      var addr, cmd := f.data / 256 % 256, f.data % 256;
      var affected := Affected(v.devices, index, m, TargetOf(addr));
      if affected != [] {
        var touched := Touched(v.devices, affected, addr % 2 == 0, cmd);
        var after := AfterReports(touched, v.published, Reports(touched, affected, addr % 2 == 0, cmd)).0;
        var shorts := Shorts(after, affected, |affected|);
        StaggeredIncreases(v.sync, shorts, BASE_DELAY, STAGGER, now);
      }
    }
  }

  /** And each is for a known device the frame is about; there is at most one for each of them. */
  lemma SniffedPollsTargeted(v: View, index: Index, m: Assignments, f: BusFrame, now: int)
    ensures var w := Sniffed(v, index, m, f, now);
            var targeted := Targeted(v.devices, index, m, TargetOf(f.data / 256 % 256));
            && |w.sync.deferred| <= |v.sync.deferred| + |targeted|
            && (forall d | d in w.sync.deferred && d !in v.sync.deferred ::
                  d.address < 64 && exists a :: a in targeted && a in w.devices && w.devices[a].shortAddress == d.address)
  {
    hide AfterReports, Affected, Targeted, Staggered, NeedsQuery, Reports, Shorts, TargetOf;
    var addr, cmd := f.data / 256 % 256, f.data % 256;
    var w := Sniffed(v, index, m, f, now);
    var affected := Affected(v.devices, index, m, TargetOf(addr));
    AffectedIsTargeted(v.devices, index, m, TargetOf(addr));
    if !f.backward && affected != [] {
      var shorts, targeted := Shorts(w.devices, affected, |affected|), Targeted(v.devices, index, m, TargetOf(addr));
      assert affected[..|affected|] == affected;
      ShortsOnly(w.devices, affected, |affected|);
      StaggeredOnly(v.sync, Shorts(w.devices, affected, |affected|), BASE_DELAY, STAGGER, now);
      ReactedSync(v.(groups := w.groups), affected, addr % 2 == 0, cmd, now);
      hide Sniffed, Reacted;
      forall d | d in w.sync.deferred && d !in v.sync.deferred
        ensures d.address < 64 && exists a :: a in targeted && a in w.devices && w.devices[a].shortAddress == d.address
      {
        var k :| 0 <= k < |shorts| && d == S.Deferred(shorts[k], now + BASE_DELAY + k * STAGGER);
        assert shorts[k] in shorts;
      }
    }
  }

  lemma ReactedSync(v: View, affected: seq<Long>, dacp: bool, cmd: nat, now: int)
    requires affected != []
    ensures var w := Reacted(v, affected, dacp, cmd, now);
            || w.sync == v.sync
            || w.sync == Staggered(v.sync, Shorts(w.devices, affected, |affected|), BASE_DELAY, STAGGER, now)
  {
    hide AfterReports, Staggered, NeedsQuery, Reports, Shorts;
  }

  /** Whether the command leaves the level of a device open: a step, a scene, or ON AND STEP UP for one that is on. */
  ghost predicate LeavesOpen(devices: DeviceMap, targeted: set<Long>, cmd: nat) {
    || 0x01 <= cmd <= 0x04 || 0x10 <= cmd <= 0x1F
    || (cmd == 0x08 && exists a :: a in targeted && a in devices && devices[a].Gear? && devices[a].currentLevel > 0)
  }

  /** A frame that leaves no level open schedules nothing. */
  lemma NothingToPoll(v: View, index: Index, m: Assignments, f: BusFrame, now: int)
    ensures var addr, cmd := f.data / 256 % 256, f.data % 256;
            var targeted := Targeted(v.devices, index, m, TargetOf(addr));
            f.backward || addr % 2 == 0 || !LeavesOpen(v.devices, targeted, cmd) ==>
              Sniffed(v, index, m, f, now).sync == v.sync
  {
    hide AfterReports, Affected, Targeted, Staggered, Shorts, TargetOf;
    var addr, cmd := f.data / 256 % 256, f.data % 256;
    var affected := Affected(v.devices, index, m, TargetOf(addr));
    AffectedIsTargeted(v.devices, index, m, TargetOf(addr));
    assert forall i | 0 <= i < |affected| :: affected[i] in affected;
  }

  /** Commands that are about no level change nothing at all, whoever they are for. */
  lemma OthersIgnored(v: View, index: Index, m: Assignments, f: BusFrame, now: int)
    requires (f.data / 256 % 256) % 2 == 1 && !IsLevelCommand(f.data % 256)
    ensures Sniffed(v, index, m, f, now) == v
  {
    hide Affected, Staggered, Shorts, TargetOf;
  }

  /** Input devices have no level: a frame changes nothing about them. */
  lemma InputsIgnored(v: View, index: Index, m: Assignments, f: BusFrame, now: int, a: Long)
    requires a in v.devices && v.devices[a].Input?
    ensures var w := Sniffed(v, index, m, f, now).devices; a in w && w[a] == v.devices[a]
  {
    hide Affected, Staggered, Shorts, TargetOf, Reports, GroupsAfter, NeedsQuery, Updated;
    if !f.backward {
      var addr, cmd := f.data / 256 % 256, f.data % 256;
      var affected := Affected(v.devices, index, m, TargetOf(addr));
      var touched := Touched(v.devices, affected, addr % 2 == 0, cmd);
      ReportsSkipInputs(touched, v.published, Reports(touched, affected, addr % 2 == 0, cmd), a);
    }
  }

  lemma {:induction false} ReportsSkipInputs(m: DeviceMap, log: seq<Message>, rs: seq<Report>, a: Long)
    requires a in m && m[a].Input?
    ensures var after := AfterReports(m, log, rs).0; a in after && after[a] == m[a]
    decreases |rs|
  {
    hide Updated, MapMessages;
    if rs != [] {
      ReportsSkipInputs(UpdatedMap(m, rs[0].address, rs[0].update), log + MapMessages(m, rs[0].address, rs[0].update),
                        rs[1..], a);
    }
  }

  /** What holds between frames: a sound scheduler, and messages about devices and groups that agree with the caches. */
  ghost predicate Sound(v: View) {
    && S.Inv(v.sync) && Agrees(v.devices, v.published)
    && L.BoardSound(v.groups)
  }

  lemma SniffedKeepsSound(v: View, index: Index, m: Assignments, f: BusFrame, now: int)
    requires Sound(v)
    ensures Sound(Sniffed(v, index, m, f, now))
  {
    hide AfterReports, Affected, Staggered, NeedsQuery, Reports, Shorts, Agrees, S.Inv, L.BoardSound, L.Acted, GroupAction;
    if !f.backward {
      var addr, cmd := f.data / 256 % 256, f.data % 256;
      var t := TargetOf(addr);
      if t.InGroup? && GroupAction(addr % 2 == 0, cmd).Some? {
        L.ActedKeepsSound(v.groups, t.group, GroupAction(addr % 2 == 0, cmd).value);
      }
      var affected := Affected(v.devices, index, m, TargetOf(addr));
      if affected != [] {
        var touched := Touched(v.devices, affected, addr % 2 == 0, cmd);
        TouchedAgrees(v.devices, v.published, affected, addr % 2 == 0, cmd);
        RunsAgree(touched, v.published, Reports(touched, affected, addr % 2 == 0, cmd));
        var after := AfterReports(touched, v.published, Reports(touched, affected, addr % 2 == 0, cmd)).0;
        StaggeredSchedules(v.sync, Shorts(after, affected, |affected|), BASE_DELAY, STAGGER, now);
      }
    }
  }

  lemma TouchedAgrees(devices: DeviceMap, log: seq<Message>, affected: seq<Long>, dacp: bool, cmd: nat)
    requires Agrees(devices, log)
    ensures Agrees(Touched(devices, affected, dacp, cmd), log)
  {
  }

  /** With the maps of a discovery that found no address twice, a short address is about the gear that has it. */
  lemma ShortTargetsTheGear(bus: Answers, m: Assignments, short: nat)
    requires FoundOnce(bus) && short < SHORTS
    ensures var (devices, index) := Discovered(bus, SHORTS);
            forall a :: a in Targeted(devices, index, m, One(short)) <==>
                        a in devices && devices[a].Gear? && devices[a].shortAddress == short
  {
    hide Discovered;
    var (devices, index) := Discovered(bus, SHORTS);
    InverseIffFoundOnce(bus);
    DiscoveredMaps(bus, SHORTS);
    forall a
      ensures a in Targeted(devices, index, m, One(short)) <==>
              a in devices && devices[a].Gear? && devices[a].shortAddress == short
    {
      assert short in index && index[short] == a <==> a in devices && KeyOf(devices[a]) == short;
    }
  }

  // ------------------------------------------------------------------ polling everything

  lemma {:induction false} GearShortsIs(devices: DeviceMap, order: seq<Long>, n: nat, a: Long)
    requires n <= |order| && (forall b | b in order :: b in devices) && a in order[..n] && devices[a].Gear?
    ensures devices[a].shortAddress in GearShorts(devices, order, n)
    decreases n
  {
    assert order[..n] == order[..n - 1] + [order[n - 1]];
    if a != order[n - 1] {
      GearShortsIs(devices, order, n - 1, a);
    }
  }

  /** A broadcast sync asks for polls of known gear only. */
  lemma BroadcastReachesGear(devices: DeviceMap, s: S.State, base: nat, step: nat, now: int)
    ensures var order := Ascending(devices.Keys);
            var shorts := GearShorts(devices, order, |order|);
            var r := Staggered(s, shorts, base, step, now);
            && (forall a | a in r.queue :: a in s.queue || HasGearAt(devices, a))
            && (forall d | d in r.deferred :: d in s.deferred || HasGearAt(devices, d.address))
  {
    hide Staggered, Ascending, GearShorts;
    var order := Ascending(devices.Keys);
    GearShortsOnly(devices, order, |order|);
    StaggeredOnly(s, GearShorts(devices, order, |order|), base, step, now);
  }

  predicate HasGearAt(devices: DeviceMap, short: nat) {
    exists a :: a in devices && devices[a].Gear? && devices[a].shortAddress == short
  }

  lemma {:induction false} GearShortsOnly(devices: DeviceMap, order: seq<Long>, n: nat)
    requires n <= |order| && forall b | b in order :: b in devices
    ensures forall s | s in GearShorts(devices, order, n) :: HasGearAt(devices, s)
    decreases n
  {
    if n > 0 {
      GearShortsOnly(devices, order, n - 1);
      assert order[n - 1] in devices;
    }
  }

  /** A broadcast sync leaves no gear out: each one is queued, or deferred by the base delay and some staggering. */
  lemma BroadcastReachesAll(devices: DeviceMap, s: S.State, base: nat, step: nat, now: int, a: Long)
    requires S.Inv(s) && a in devices && devices[a].Gear? && devices[a].shortAddress < S.ADDRESSES
    ensures var order := Ascending(devices.Keys);
            var shorts := GearShorts(devices, order, |order|);
            var r := Staggered(s, shorts, base, step, now);
            && S.Inv(r)
            && (devices[a].shortAddress in r.queue ||
                exists k :: 0 <= k < |shorts| && S.Deferred(devices[a].shortAddress, now + base + k * step) in r.deferred)
  {
    hide S.Inv, Staggered, Ascending;
    var order := Ascending(devices.Keys);
    var shorts := GearShorts(devices, order, |order|);
    assert order[..|order|] == order;
    GearShortsIs(devices, order, |order|, a);
    StaggeredSchedules(s, shorts, base, step, now);
    var k :| 0 <= k < |shorts| && shorts[k] == devices[a].shortAddress;
  }
}
