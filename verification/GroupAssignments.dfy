/** Changing group assignments: the commands sent are the difference between the old and the new assignments. */
module GroupAssignments {
  import opened Addressing
  import opened Adapter
  import opened Ordered
  import opened Devices

  const GROUPS: nat := 16

  type Groups = s: set<nat> | forall g | g in s :: g < GROUPS

  type Assignments = map<Long, Groups>

  /** Absent devices are in no group. */
  function GroupsOf(m: Assignments, a: Long): Groups {
    if a in m then m[a] else {}
  }

  datatype Change = Change(short: nat, group: nat, assign: bool)

  /** Changes for one gear, for the groups below `n`. */
  function ChangesFor(short: nat, from: Groups, to: Groups, n: nat): seq<Change> {
    if n == 0 then []
    else ChangesFor(short, from, to, n - 1)
         + (if (n - 1 in from) != (n - 1 in to) then [Change(short, n - 1, n - 1 in to)] else [])
  }

  /** Changes for one address; an address that is not a known device is skipped. */
  function ChangesOf(devices: DeviceMap, from: Assignments, to: Assignments, a: Long): seq<Change> {
    if a in devices then ChangesFor(devices[a].shortAddress, GroupsOf(from, a), GroupsOf(to, a), GROUPS) else []
  }

  /** Changes for the first `n` addresses of `order`. */
  function ChangesUpTo(devices: DeviceMap, from: Assignments, to: Assignments, order: seq<Long>, n: nat): seq<Change>
    requires n <= |order|
  {
    if n == 0 then []
    else ChangesUpTo(devices, from, to, order, n - 1) + ChangesOf(devices, from, to, order[n - 1])
  }

  function Mentioned(from: Assignments, to: Assignments): seq<Long> {
    Ascending(from.Keys + to.Keys)
  }

  function AllChanges(devices: DeviceMap, from: Assignments, to: Assignments): seq<Change> {
    var order := Mentioned(from, to);
    ChangesUpTo(devices, from, to, order, |order|)
  }

  function FramesFor(changes: seq<Change>): seq<Frame>
    decreases |changes|
  {
    if changes == [] then []
    else
      var k := |changes| - 1;
      FramesFor(changes[..k]) + GroupCommand(changes[k].short, changes[k].group, changes[k].assign)
  }

  // ------------------------------------------------------------------ the manager object

  class GroupAssigner {
    var assignments: Assignments
    ghost var frames: seq<Frame>

    constructor ()
      ensures assignments == map[] && frames == []
    {
      assignments := map[];
      frames := [];
    }

    /** The commands that lead from the stored assignments to the new ones. */
    method CollectChanges(newAssignments: Assignments, devices: DeviceMap) returns (commandsToSend: seq<Change>)
      ensures commandsToSend == AllChanges(devices, assignments, newAssignments)
    {
      commandsToSend := [];
      var order := Ascending(assignments.Keys + newAssignments.Keys);
      hide Ascending, ChangesOf;
      for n := 0 to |order|
        invariant commandsToSend == ChangesUpTo(devices, assignments, newAssignments, order, n)
      {
        var changes := CollectDeviceChanges(newAssignments, devices, order[n]);
        commandsToSend := commandsToSend + changes;
      }
    }

    method CollectDeviceChanges(newAssignments: Assignments, devices: DeviceMap, a: Long) returns (changes: seq<Change>)
      ensures changes == ChangesOf(devices, assignments, newAssignments, a)
    {
      changes := [];
      var oldGroups := GroupsOf(assignments, a);
      var newGroups := GroupsOf(newAssignments, a);
      if oldGroups == newGroups {
        NoChanges(if a in devices then devices[a].shortAddress else 0, oldGroups, GROUPS);
        return;
      }
      if a !in devices {
        return;
      }
      for i := 0 to 16
        invariant changes == ChangesFor(devices[a].shortAddress, oldGroups, newGroups, i)
      {
        if (i in oldGroups) != (i in newGroups) {
          changes := changes + [Change(devices[a].shortAddress, i, i in newGroups)];
        }
      }
    }

    /** Replaces all assignments and sends what has to change on the bus. */
    method SetAllAssignments(newAssignments: Assignments, devices: DeviceMap)
      modifies this
      ensures assignments == newAssignments
      ensures frames == old(frames) + FramesFor(AllChanges(devices, old(assignments), newAssignments))
    {
      hide AllChanges, GroupCommand;
      var commandsToSend := CollectChanges(newAssignments, devices);
      assignments := newAssignments;
      for k := 0 to |commandsToSend|
        invariant assignments == newAssignments
        invariant frames == old(frames) + FramesFor(commandsToSend[..k])
      {
        var c := commandsToSend[k];
        assert commandsToSend[..k + 1][..k] == commandsToSend[..k];
        frames := frames + GroupCommand(c.short, c.group, c.assign);
      }
      assert commandsToSend[..|commandsToSend|] == commandsToSend;
    }
  }

  lemma {:induction false} NoChanges(short: nat, g: Groups, n: nat)
    ensures ChangesFor(short, g, g, n) == []
    decreases n
  {
    if n > 0 { NoChanges(short, g, n - 1); }
  }

  // ------------------------------------------------------------------ what the gear makes of it

  /** A gear as far as group membership goes: configuration frames take effect when heard twice in a row. */
  datatype Member = Member(short: nat, groups: set<nat>, armed: Option<Frame>)

  predicate Hears(m: Member, f: Frame) {
    |f| == 2 && (f[0] == 2 * m.short + 1 || f[0] == 255) && ADD_TO_GROUP_0 <= f[1] < REMOVE_FROM_GROUP_0 + 16
  }

  function Hear(m: Member, f: Frame): Member {
    if !Hears(m, f) then m.(armed := None)
    else if m.armed != Some(f) then m.(armed := Some(f))
    else if f[1] < REMOVE_FROM_GROUP_0 then m.(groups := m.groups + {f[1] - ADD_TO_GROUP_0}, armed := None)
    else m.(groups := m.groups - {f[1] - REMOVE_FROM_GROUP_0}, armed := None)
  }

  function HearAll(m: Member, frames: seq<Frame>): Member
    decreases |frames|
  {
    if frames == [] then m else Hear(HearAll(m, frames[..|frames| - 1]), frames[|frames| - 1])
  }

  function Obey(groups: set<nat>, short: nat, c: Change): set<nat> {
    if c.short != short then groups else if c.assign then groups + {c.group} else groups - {c.group}
  }

  function ObeyAll(groups: set<nat>, short: nat, changes: seq<Change>): set<nat>
    decreases |changes|
  {
    if changes == [] then groups
    else Obey(ObeyAll(groups, short, changes[..|changes| - 1]), short, changes[|changes| - 1])
  }

  ghost predicate Sendable(changes: seq<Change>) {
    forall c | c in changes :: c.short < 64 && c.group < GROUPS
  }

  lemma HearTwice(m: Member, c: Change)
    requires m.short < 64 && m.armed == None && c.short < 64 && c.group < GROUPS
    ensures var f := [2 * c.short + 1, (if c.assign then ADD_TO_GROUP_0 else REMOVE_FROM_GROUP_0) + c.group];
            Hear(Hear(m, f), f) == m.(groups := Obey(m.groups, m.short, c))
  {
  }

  lemma HearPair(m: Member, before: seq<Frame>, f: Frame)
    ensures HearAll(m, before + [f, f]) == Hear(Hear(HearAll(m, before), f), f)
  {
    hide Hear;
    assert (before + [f, f])[..|before| + 1] == before + [f];
    assert (before + [f])[..|before|] == before;
  }

  lemma OneMoreObeyed(m: Member, before: seq<Frame>, c: Change)
    requires m.short < 64 && c.short < 64 && c.group < GROUPS
    requires var h := HearAll(m, before); h.short == m.short && h.armed == None
    ensures var h := HearAll(m, before);
            HearAll(m, before + GroupCommand(c.short, c.group, c.assign)) == h.(groups := Obey(h.groups, m.short, c))
  {
    hide GroupCommand, Hear, HearAll, Obey;
    var f := [2 * c.short + 1, (if c.assign then ADD_TO_GROUP_0 else REMOVE_FROM_GROUP_0) + c.group];
    GroupCommandIs(c.short, c.group, c.assign);
    HearPair(m, before, f);
    HearTwice(HearAll(m, before), c);
  }

  /** On the wire, a change takes effect at exactly the gear it names. */
  lemma {:induction false} FramesAreObeyed(m: Member, changes: seq<Change>)
    requires m.short < 64 && m.armed == None && Sendable(changes)
    ensures HearAll(m, FramesFor(changes)) == Member(m.short, ObeyAll(m.groups, m.short, changes), None)
    decreases |changes|
  {
    if changes != [] {
      hide GroupCommand, Hear, HearAll, Obey;
      var k := |changes| - 1;
      var c := changes[k];
      FramesAreObeyed(m, changes[..k]);
      OneMoreObeyed(m, FramesFor(changes[..k]), c);
    } else {
      assert HearAll(m, []) == m;
    }
  }

  lemma {:induction false} ObeyAppend(groups: set<nat>, short: nat, xs: seq<Change>, ys: seq<Change>)
    ensures ObeyAll(groups, short, xs + ys) == ObeyAll(ObeyAll(groups, short, xs), short, ys)
    decreases |ys|
  {
    if ys == [] {
      assert xs + ys == xs;
    } else {
      assert (xs + ys)[..|xs + ys| - 1] == xs + ys[..|ys| - 1];
      ObeyAppend(groups, short, xs, ys[..|ys| - 1]);
    }
  }

  /** The new groups below `n`, and the old ones from there on. */
  function Mixed(from: Groups, to: Groups, n: nat): set<nat> {
    (set g | g in to && g < n) + (set g | g in from && g >= n)
  }

  lemma MixedNext(from: Groups, to: Groups, n: nat)
    ensures Mixed(from, to, n + 1) == if n in to then Mixed(from, to, n) + {n} else Mixed(from, to, n) - {n}
    ensures n in Mixed(from, to, n) <==> n in from
  {
  }

  lemma MixedEnds(from: Groups, to: Groups)
    ensures Mixed(from, to, 0) == from && Mixed(from, to, GROUPS) == to
  {
  }

  /** The changes for one gear turn its old groups into its new ones. */
  lemma {:induction false} ChangesForEffect(short: nat, from: Groups, to: Groups, n: nat)
    ensures ObeyAll(from, short, ChangesFor(short, from, to, n)) == Mixed(from, to, n)
    decreases n
  {
    hide ObeyAll, Mixed;
    if n == 0 {
      MixedEnds(from, to);
      assert ObeyAll(from, short, []) == from by { ObeyNone(from, short); }
    } else {
      ChangesForEffect(short, from, to, n - 1);
      MixedNext(from, to, n - 1);
      var rest := ChangesFor(short, from, to, n - 1);
      if (n - 1 in from) != (n - 1 in to) {
        ObeyOneMore(from, short, rest, Change(short, n - 1, n - 1 in to));
      } else {
        assert rest + [] == rest;
      }
    }
  }

  lemma ObeyNone(groups: set<nat>, short: nat)
    ensures ObeyAll(groups, short, []) == groups
  {
  }

  lemma ChangesReach(short: nat, from: Groups, to: Groups)
    ensures ObeyAll(from, short, ChangesFor(short, from, to, GROUPS)) == to
  {
    hide ObeyAll, ChangesFor, Mixed;
    ChangesForEffect(short, from, to, GROUPS);
    MixedEnds(from, to);
  }

  /** They leave every other gear alone. */
  lemma {:induction false} ChangesForOthers(short: nat, from: Groups, to: Groups, n: nat, other: nat, groups: set<nat>)
    requires n <= GROUPS && other != short
    ensures ObeyAll(groups, other, ChangesFor(short, from, to, n)) == groups
    ensures short < 64 ==> Sendable(ChangesFor(short, from, to, n))
    decreases n
  {
    if n > 0 {
      ChangesForOthers(short, from, to, n - 1, other, groups);
      var rest := ChangesFor(short, from, to, n - 1);
      hide ObeyAll;
      if (n - 1 in from) != (n - 1 in to) {
        ObeyOneMore(groups, other, rest, Change(short, n - 1, n - 1 in to));
      } else {
        assert rest + [] == rest;
      }
    }
  }

  lemma ObeyOneMore(groups: set<nat>, short: nat, changes: seq<Change>, c: Change)
    ensures ObeyAll(groups, short, changes + [c]) == Obey(ObeyAll(groups, short, changes), short, c)
  {
    assert (changes + [c])[..|changes|] == changes;
  }

  // ------------------------------------------------------------------ correctness

  function KeysOf(order: seq<Long>): set<Long> {
    set a | a in order
  }

  /** The mentioned devices are control gear on the bus, each with a short address of its own. */
  ghost predicate Addressable(devices: DeviceMap, mentioned: set<Long>) {
    && (forall a | a in mentioned && a in devices :: devices[a].Gear? && devices[a].shortAddress < 64)
    && (forall a, b | a in mentioned && a in devices && b in mentioned && b in devices && a != b ::
          devices[a].shortAddress != devices[b].shortAddress)
  }

  lemma DistinctShorts(devices: DeviceMap, order: seq<Long>, a: Long, b: Long)
    requires Addressable(devices, KeysOf(order)) && a in order && b in order
    ensures a in devices ==> devices[a].shortAddress < 64
    ensures a in devices && b in devices && a != b ==> devices[a].shortAddress != devices[b].shortAddress
  {
    assert a in KeysOf(order) && b in KeysOf(order);
  }

  /** The changes for one address leave gear with another short address alone. */
  lemma OthersAlone(devices: DeviceMap, from: Assignments, to: Assignments, b: Long, other: nat, groups: set<nat>)
    requires b in devices ==> devices[b].shortAddress != other
    ensures ObeyAll(groups, other, ChangesOf(devices, from, to, b)) == groups
    ensures b in devices && devices[b].shortAddress < 64 ==> Sendable(ChangesOf(devices, from, to, b))
    ensures b !in devices ==> Sendable(ChangesOf(devices, from, to, b))
  {
    hide ChangesFor, GroupsOf;
    if b in devices {
      ChangesForOthers(devices[b].shortAddress, GroupsOf(from, b), GroupsOf(to, b), GROUPS, other, groups);
    }
  }

  lemma ChangesOfReach(devices: DeviceMap, from: Assignments, to: Assignments, a: Long)
    requires a in devices
    ensures ObeyAll(GroupsOf(from, a), devices[a].shortAddress, ChangesOf(devices, from, to, a)) == GroupsOf(to, a)
  {
    hide ObeyAll, GroupsOf, ChangesFor;
    ChangesReach(devices[a].shortAddress, GroupsOf(from, a), GroupsOf(to, a));
  }

  lemma OneMoreReached(devices: DeviceMap, from: Assignments, to: Assignments, rest: seq<Change>, a: Long, b: Long)
    requires a in devices && (b in devices && a != b ==> devices[a].shortAddress != devices[b].shortAddress)
    ensures var now := ObeyAll(GroupsOf(from, a), devices[a].shortAddress, rest);
            (b == a ==> now == GroupsOf(from, a)) ==>
              ObeyAll(GroupsOf(from, a), devices[a].shortAddress, rest + ChangesOf(devices, from, to, b)) ==
              if b == a then GroupsOf(to, a) else now
  {
    hide ChangesOf, ObeyAll, GroupsOf;
    ObeyAppend(GroupsOf(from, a), devices[a].shortAddress, rest, ChangesOf(devices, from, to, b));
    if b == a {
      ChangesOfReach(devices, from, to, a);
    } else {
      OthersAlone(devices, from, to, b, devices[a].shortAddress,
                  ObeyAll(GroupsOf(from, a), devices[a].shortAddress, rest));
    }
  }

  /** After the first `n` addresses, gear `a` has its new groups if it was among them. */
  lemma {:induction false} UpToReached(devices: DeviceMap, from: Assignments, to: Assignments, order: seq<Long>, n: nat,
                                       a: Long)
    requires n <= |order| && (forall i, j | 0 <= i < j < |order| :: order[i] < order[j])
    requires Addressable(devices, KeysOf(order)) && a in order && a in devices
    ensures ObeyAll(GroupsOf(from, a), devices[a].shortAddress, ChangesUpTo(devices, from, to, order, n))
         == if a in order[..n] then GroupsOf(to, a) else GroupsOf(from, a)
    decreases n
  {
    if n > 0 {
      hide ChangesOf, ObeyAll, GroupsOf, Addressable, KeysOf;
      UpToReached(devices, from, to, order, n - 1, a);
      var b := order[n - 1];
      PrefixGrows(order, n - 1);
      assert b in order;
      DistinctShorts(devices, order, a, b);
      OneMoreReached(devices, from, to, ChangesUpTo(devices, from, to, order, n - 1), a, b);
    }
  }

  /** A gear whose short address belongs to none of the addresses keeps its groups. */
  lemma {:induction false} UpToOthers(devices: DeviceMap, from: Assignments, to: Assignments, order: seq<Long>, n: nat,
                                      other: nat, groups: set<nat>)
    requires n <= |order| && Addressable(devices, KeysOf(order))
    requires forall b | b in order && b in devices :: devices[b].shortAddress != other
    ensures var changes := ChangesUpTo(devices, from, to, order, n);
            Sendable(changes) && ObeyAll(groups, other, changes) == groups
    decreases n
  {
    if n > 0 {
      hide ChangesOf, ObeyAll, Addressable;
      UpToOthers(devices, from, to, order, n - 1, other, groups);
      var b := order[n - 1];
      assert b in order;
      DistinctShorts(devices, order, b, b);
      ObeyAppend(groups, other, ChangesUpTo(devices, from, to, order, n - 1), ChangesOf(devices, from, to, b));
      OthersAlone(devices, from, to, b, other, groups);
    }
  }

  lemma AddressableShorts(devices: DeviceMap, mentioned: set<Long>)
    requires Addressable(devices, mentioned)
    ensures forall a | a in mentioned && a in devices :: devices[a].shortAddress < 64
  {
  }

  /**
   * Group diff correctness: the frames sent for a change of assignments leave every reachable gear that had its old
   * groups with exactly its new ones; no groups at all if the new assignments do not mention it.
   */
  lemma DiffReachesTarget(devices: DeviceMap, from: Assignments, to: Assignments, a: Long, m: Member)
    requires Addressable(devices, from.Keys + to.Keys) && a in from.Keys + to.Keys && a in devices
    requires m == Member(devices[a].shortAddress, if a in from then from[a] else {}, None)
    ensures HearAll(m, FramesFor(AllChanges(devices, from, to))) == m.(groups := if a in to then to[a] else {})
  {
    hide HearAll, FramesFor, ChangesUpTo, ObeyAll, Ascending, Addressable, Sendable, Mentioned;
    var order := Mentioned(from, to);
    MentionedKeys(from, to);
    AddressableShorts(devices, from.Keys + to.Keys);
    UpToOthers(devices, from, to, order, |order|, 64, {});
    FramesAreObeyed(m, AllChanges(devices, from, to));
    assert order[..|order|] == order;
    UpToReached(devices, from, to, order, |order|, a);
  }

  /** Gear with a short address that no mentioned device has does not notice. */
  lemma DiffLeavesOthers(devices: DeviceMap, from: Assignments, to: Assignments, m: Member)
    requires Addressable(devices, from.Keys + to.Keys) && m.short < 64 && m.armed == None
    requires forall a | a in from.Keys + to.Keys && a in devices :: devices[a].shortAddress != m.short
    ensures HearAll(m, FramesFor(AllChanges(devices, from, to))) == m
  {
    hide HearAll, FramesFor, ChangesUpTo, ObeyAll, Ascending;
    var order := Mentioned(from, to);
    MentionedKeys(from, to);
    UpToOthers(devices, from, to, order, |order|, m.short, m.groups);
    FramesAreObeyed(m, AllChanges(devices, from, to));
  }

  lemma MentionedKeys(from: Assignments, to: Assignments)
    ensures var order := Mentioned(from, to);
            && KeysOf(order) == from.Keys + to.Keys
            && (forall i, j | 0 <= i < j < |order| :: order[i] < order[j])
  {
  }

  // ------------------------------------------------------------------ cost

  function Distance(from: Groups, to: Groups): nat {
    |(from - to) + (to - from)|
  }

  function TotalDistance(devices: DeviceMap, from: Assignments, to: Assignments, order: seq<Long>, n: nat): nat
    requires n <= |order|
  {
    if n == 0 then 0
    else TotalDistance(devices, from, to, order, n - 1)
         + (if order[n - 1] in devices then Distance(GroupsOf(from, order[n - 1]), GroupsOf(to, order[n - 1])) else 0)
  }

  lemma {:induction false} ChangesForCount(short: nat, from: Groups, to: Groups, n: nat)
    ensures |ChangesFor(short, from, to, n)| == |set g | g in (from - to) + (to - from) && g < n|
    decreases n
  {
    if n > 0 {
      ChangesForCount(short, from, to, n - 1);
      var diff := (from - to) + (to - from);
      var less := set g | g in diff && g < n - 1;
      var all := set g | g in diff && g < n;
      if (n - 1 in from) != (n - 1 in to) {
        assert all == less + {n - 1};
      } else {
        assert all == less;
      }
    } else {
      assert (set g | g in (from - to) + (to - from) && g < 0) == {};
    }
  }

  /** One command for every membership that changes, and no other. */
  lemma {:induction false} DiffIsMinimal(devices: DeviceMap, from: Assignments, to: Assignments, order: seq<Long>, n: nat)
    requires n <= |order|
    ensures |ChangesUpTo(devices, from, to, order, n)| == TotalDistance(devices, from, to, order, n)
    decreases n
  {
    if n > 0 {
      DiffIsMinimal(devices, from, to, order, n - 1);
      var a := order[n - 1];
      if a in devices {
        ChangesForCount(devices[a].shortAddress, GroupsOf(from, a), GroupsOf(to, a), GROUPS);
        var diff := (GroupsOf(from, a) - GroupsOf(to, a)) + (GroupsOf(to, a) - GroupsOf(from, a));
        assert diff == set g | g in diff && g < GROUPS;
      }
    }
  }
}
