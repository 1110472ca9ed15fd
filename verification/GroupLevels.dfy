/** The state shown for each group: explicit updates, restoring, stepping, and the aggregate over its members. */
module GroupLevels {
  import opened Addressing
  import opened Ordered
  import opened Devices
  import opened GroupAssignments

  datatype GroupState = GroupState(currentLevel: nat, lastLevel: nat, tc: Option<nat>, rgb: Option<Rgb>)

  const FRESH := GroupState(0, 254, None, None)
  const STEP_SIZE: nat := 10

  function UpdatedGroup(g: GroupState, u: Update): GroupState {
    GroupState(OrElse(u.level, g.currentLevel),
               if u.level.Some? && u.level.value > 0 then u.level.value else g.lastLevel,
               if u.tc.Some? then u.tc else g.tc,
               if u.rgb.Some? then u.rgb else g.rgb)
  }

  function RestoreTarget(g: GroupState): nat {
    if g.lastLevel > 0 then g.lastLevel else 254
  }

  function StepTarget(level: nat, up: bool): nat {
    if up then if level + STEP_SIZE > 254 then 254 else level + STEP_SIZE
    else if level < STEP_SIZE + 1 then 1 else level - STEP_SIZE
  }

  datatype Action = Set(u: Update) | Restore | Step(up: bool)

  /** The level an action passes on to the group state, if any. */
  function LevelOf(g: GroupState, act: Action): Option<nat> {
    match act
    case Set(u) => u.level
    case Restore => Some(RestoreTarget(g))
    case Step(up) =>
      if g.currentLevel == 0 || StepTarget(g.currentLevel, up) == g.currentLevel then None
      else Some(StepTarget(g.currentLevel, up))
  }

  function After(g: GroupState, act: Action): GroupState {
    match act
    case Set(u) => UpdatedGroup(g, u)
    case _ => UpdatedGroup(g, NO_UPDATE.(level := LevelOf(g, act)))
  }

  // ------------------------------------------------------------------ over any run of actions

  function AfterAll(g: GroupState, acts: seq<Action>): GroupState
    decreases |acts|
  {
    if acts == [] then g else After(AfterAll(g, acts[..|acts| - 1]), acts[|acts| - 1])
  }

  /** The levels the group was set to, one after the other. */
  function LevelsSet(g: GroupState, acts: seq<Action>): seq<nat>
    decreases |acts|
  {
    if acts == [] then []
    else
      var before := AfterAll(g, acts[..|acts| - 1]);
      var l := LevelOf(before, acts[|acts| - 1]);
      LevelsSet(g, acts[..|acts| - 1]) + (if l.Some? then [l.value] else [])
  }

  /** The most recent positive level, or 254 if there was none. */
  function LastPositive(levels: seq<nat>): nat
    decreases |levels|
  {
    if levels == [] then 254
    else if levels[|levels| - 1] > 0 then levels[|levels| - 1]
    else LastPositive(levels[..|levels| - 1])
  }

  /** `lastLevel` is always the most recent positive level, so restoring goes back to it; `currentLevel` is the last one. */
  lemma {:induction false} LastLevelIsLastPositive(acts: seq<Action>)
    ensures var levels := LevelsSet(FRESH, acts);
            var g := AfterAll(FRESH, acts);
            && g.lastLevel == LastPositive(levels) > 0
            && g.currentLevel == (if levels == [] then 0 else levels[|levels| - 1])
            && RestoreTarget(g) == LastPositive(levels)
    decreases |acts|
  {
    if acts != [] {
      var k := |acts| - 1;
      LastLevelIsLastPositive(acts[..k]);
      var before := LevelsSet(FRESH, acts[..k]);
      var l := LevelOf(AfterAll(FRESH, acts[..k]), acts[k]);
      if l.Some? {
        assert (before + [l.value])[..|before|] == before;
      } else {
        assert before + [] == before;
      }
    }
  }

  /** The updates among the actions. */
  function UpdatesOf(acts: seq<Action>): seq<Update> {
    if acts == [] then []
    else
      var last := acts[|acts| - 1];
      UpdatesOf(acts[..|acts| - 1]) + (if last.Set? then [last.u] else [])
  }

  /** The colour of a group is the one it was given last; restoring and stepping leave it alone. */
  lemma {:induction false} ColourIsLatest(acts: seq<Action>)
    ensures var g := AfterAll(FRESH, acts);
            g.tc == Latest(UpdatesOf(acts), TcPart) && g.rgb == Latest(UpdatesOf(acts), RgbPart)
    decreases |acts|
  {
    if acts != [] {
      var k := |acts| - 1;
      ColourIsLatest(acts[..k]);
      var before := UpdatesOf(acts[..k]);
      if acts[k].Set? {
        assert (before + [acts[k].u])[..|before|] == before;
      } else {
        assert before + [] == before;
      }
    }
  }

  /** Stepping moves a group that is on by ten, but not beyond 1 and 254, and never turns one on or off. */
  lemma StepNeverSwitches(g: GroupState, up: bool)
    ensures var h := After(g, Step(up));
            && (up && 0 < g.currentLevel <= 244 ==> h.currentLevel == g.currentLevel + 10)
            && (up && g.currentLevel > 244 ==> h.currentLevel == 254)
            && (!up && g.currentLevel > 10 ==> h.currentLevel == g.currentLevel - 10)
            && (!up && 0 < g.currentLevel <= 10 ==> h.currentLevel == 1)
            && (h.currentLevel == 0 <==> g.currentLevel == 0)
            && (g.currentLevel <= 254 ==> h.currentLevel <= 254)
            && (up && g.currentLevel <= 254 ==> g.currentLevel <= h.currentLevel <= g.currentLevel + STEP_SIZE)
            && (!up ==> h.currentLevel <= g.currentLevel <= h.currentLevel + STEP_SIZE)
  {
  }

  // ------------------------------------------------------------------ the aggregate

  predicate IsMember(devices: DeviceMap, m: Assignments, a: Long, g: nat) {
    a in m && a in devices && devices[a].Gear? && devices[a].available && g in m[a]
  }

  /** The available control gear among the devices of a group. */
  function Members(devices: DeviceMap, m: Assignments, g: nat): set<Long> {
    set a | a in m && a in devices && devices[a].Gear? && devices[a].available && g in m[a]
  }

  ghost predicate IsMaxLevel(devices: DeviceMap, members: set<Long>, level: nat)
    requires forall a | a in members :: a in devices && devices[a].Gear?
  {
    && (forall a | a in members :: devices[a].currentLevel <= level)
    && exists a :: a in members && devices[a].currentLevel == level
  }

  function Lookup<T>(m: map<nat, T>, k: nat): Option<T> {
    if k in m then Some(m[k]) else None
  }

  /** A group's pending update with one more member: the higher level wins, and the last known colour. */
  function Merged(before: Option<Update>, gear: Device): Update
    requires gear.Gear?
  {
    var u := OrElse(before, LevelUpdate(0));
    var c := gear.color;
    u.(level := if gear.currentLevel > OrElse(u.level, 0) then Some(gear.currentLevel) else u.level,
       rgb := if c.Some? && c.value.supportsRgb && c.value.rgb.Some? then c.value.rgb else u.rgb,
       tc := if c.Some? && c.value.supportsTc && c.value.tc.Some? then c.value.tc else u.tc)
  }

  function MergedUpTo(devices: DeviceMap, m: Assignments, order: seq<Long>, n: nat, g: nat): Option<Update>
    requires n <= |order|
  {
    if n == 0 then None
    else
      var before := MergedUpTo(devices, m, order, n - 1, g);
      if IsMember(devices, m, order[n - 1], g) then Some(Merged(before, devices[order[n - 1]])) else before
  }

  /** The update a group gets at the end of a cycle. */
  function Aggregate(devices: DeviceMap, m: Assignments, g: nat): Option<Update> {
    var order := Ascending(m.Keys);
    MergedUpTo(devices, m, order, |order|, g)
  }

  function Synced(before: GroupState, u: Option<Update>): GroupState {
    if u.Some? then After(before, Set(u.value)) else before
  }

  lemma {:induction false} MergedIsMax(devices: DeviceMap, m: Assignments, order: seq<Long>, n: nat, g: nat)
    requires n <= |order|
    ensures var members := set a | a in order[..n] && IsMember(devices, m, a, g);
            var u := MergedUpTo(devices, m, order, n, g);
            && (u.None? <==> members == {})
            && (u.Some? ==> u.value.level.Some? && IsMaxLevel(devices, members, u.value.level.value))
    decreases n
  {
    if n > 0 {
      MergedIsMax(devices, m, order, n - 1, g);
      var a := order[n - 1];
      assert order[..n] == order[..n - 1] + [a];
      var before := set b | b in order[..n - 1] && IsMember(devices, m, b, g);
      var members := set b | b in order[..n] && IsMember(devices, m, b, g);
      if IsMember(devices, m, a, g) {
        assert members == before + {a};
      } else {
        assert members == before;
      }
    }
  }

  /**
   * The aggregate refines its definition: a group with an available control gear ends up at the highest level of
   * those, and a group without one keeps its state.
   */
  lemma AggregateIsMax(devices: DeviceMap, m: Assignments, g: nat, before: GroupState)
    ensures var after := Synced(before, Aggregate(devices, m, g));
            if Members(devices, m, g) == {} then after == before
            else IsMaxLevel(devices, Members(devices, m, g), after.currentLevel)
  {
    hide Ascending;
    var order := Ascending(m.Keys);
    MergedIsMax(devices, m, order, |order|, g);
    assert order[..|order|] == order;
    assert (set a | a in order && IsMember(devices, m, a, g)) == Members(devices, m, g);
  }

  lemma AggregateExists(devices: DeviceMap, m: Assignments, g: nat)
    ensures Aggregate(devices, m, g).Some? <==> Members(devices, m, g) != {}
  {
    hide Ascending, MergedUpTo;
    var order := Ascending(m.Keys);
    MergedIsMax(devices, m, order, |order|, g);
    assert order[..|order|] == order;
    assert (set a | a in order && IsMember(devices, m, a, g)) == Members(devices, m, g);
  }

  predicate ShowsRgb(devices: DeviceMap, m: Assignments, a: Long, g: nat) {
    && IsMember(devices, m, a, g) && devices[a].color.Some?
    && devices[a].color.value.supportsRgb && devices[a].color.value.rgb.Some?
  }

  predicate ShowsTc(devices: DeviceMap, m: Assignments, a: Long, g: nat) {
    && IsMember(devices, m, a, g) && devices[a].color.Some?
    && devices[a].color.value.supportsTc && devices[a].color.value.tc.Some?
  }

  /** The colour a group gets is that of the last member that has one of its kind, in the order of the addresses. */
  lemma {:induction false} MergedColour(devices: DeviceMap, m: Assignments, order: seq<Long>, n: nat, g: nat, i: nat)
    requires i < n <= |order|
    ensures ShowsRgb(devices, m, order[i], g) && (forall j | i < j < n :: !ShowsRgb(devices, m, order[j], g)) ==>
              var u := MergedUpTo(devices, m, order, n, g);
              u.Some? && u.value.rgb == devices[order[i]].color.value.rgb
    ensures ShowsTc(devices, m, order[i], g) && (forall j | i < j < n :: !ShowsTc(devices, m, order[j], g)) ==>
              var u := MergedUpTo(devices, m, order, n, g);
              u.Some? && u.value.tc == devices[order[i]].color.value.tc
    decreases n
  {
    hide IsMember;
    if i < n - 1 {
      MergedColour(devices, m, order, n - 1, g, i);
    }
  }

  /** Without a member that has a colour of a kind, nothing is said about that kind, and the group keeps its own. */
  lemma {:induction false} NoMergedColour(devices: DeviceMap, m: Assignments, order: seq<Long>, n: nat, g: nat)
    requires n <= |order|
    ensures var u := MergedUpTo(devices, m, order, n, g);
            && ((forall j | 0 <= j < n :: !ShowsRgb(devices, m, order[j], g)) ==> u.None? || u.value.rgb.None?)
            && ((forall j | 0 <= j < n :: !ShowsTc(devices, m, order[j], g)) ==> u.None? || u.value.tc.None?)
    decreases n
  {
    hide IsMember;
    if n > 0 {
      NoMergedColour(devices, m, order, n - 1, g);
    }
  }

  /** The colour of a group after a cycle is that of the last member that has one of the kind, in the order of the addresses. */
  lemma SyncedColour(devices: DeviceMap, m: Assignments, g: nat, before: GroupState, i: nat)
    requires i < |Ascending(m.Keys)|
    ensures var after, order := Synced(before, Aggregate(devices, m, g)), Ascending(m.Keys);
            && (ShowsRgb(devices, m, order[i], g) &&
                (forall j | i < j < |order| :: !ShowsRgb(devices, m, order[j], g)) ==>
                  after.rgb == devices[order[i]].color.value.rgb)
            && (ShowsTc(devices, m, order[i], g) &&
                (forall j | i < j < |order| :: !ShowsTc(devices, m, order[j], g)) ==>
                  after.tc == devices[order[i]].color.value.tc)
  {
    hide Ascending, MergedUpTo;
    MergedColour(devices, m, Ascending(m.Keys), |Ascending(m.Keys)|, g, i);
  }

  /** Without such a member the group keeps its own colour. */
  lemma KeptColour(devices: DeviceMap, m: Assignments, g: nat, before: GroupState)
    ensures var after := Synced(before, Aggregate(devices, m, g));
            && ((forall a | a in m :: !ShowsRgb(devices, m, a, g)) ==> after.rgb == before.rgb)
            && ((forall a | a in m :: !ShowsTc(devices, m, a, g)) ==> after.tc == before.tc)
  {
    hide Ascending, MergedUpTo, ShowsRgb, ShowsTc;
    var order := Ascending(m.Keys);
    assert forall j | 0 <= j < |order| :: order[j] in m;
    NoMergedColour(devices, m, order, |order|, g);
  }

  // ------------------------------------------------------------------ states and messages of all groups

  datatype GroupMessage = GroupMessage(group: nat, state: GroupState)

  /** The states of the groups and the messages about them so far. */
  datatype Board = Board(states: seq<GroupState>, published: seq<GroupMessage>)

  const NEW_BOARD := Board(seq(GROUPS, _ => FRESH), [])

  /** Every update and restore is published, changed or not; a step only if the group moves. */
  predicate Publishes(g: GroupState, act: Action) {
    act.Step? ==> LevelOf(g, act).Some?
  }

  function Acted(b: Board, id: nat, act: Action): Board {
    if id >= |b.states| then b
    else
      var g := After(b.states[id], act);
      Board(b.states[id := g],
            b.published + (if Publishes(b.states[id], act) then [GroupMessage(id, g)] else []))
  }

  /** The updates due at the end of a cycle. */
  function GroupUpdates(devices: DeviceMap, m: Assignments): map<nat, Update> {
    map g | 0 <= g < GROUPS && Aggregate(devices, m, g).Some? :: Aggregate(devices, m, g).value
  }

  function AppliedUpTo(b: Board, sync: map<nat, Update>, order: seq<nat>, n: nat): Board
    requires n <= |order| && forall g | g in order :: g in sync
  {
    if n == 0 then b else Acted(AppliedUpTo(b, sync, order, n - 1), order[n - 1], Set(sync[order[n - 1]]))
  }

  /** The board after a cycle: the updates are applied in the order of the groups. */
  function BoardSynced(b: Board, devices: DeviceMap, m: Assignments): Board {
    var sync := GroupUpdates(devices, m);
    var order := Ascending(sync.Keys);
    AppliedUpTo(b, sync, order, |order|)
  }

  lemma {:induction false} AppliedStates(b: Board, sync: map<nat, Update>, order: seq<nat>, n: nat, g: nat)
    requires n <= |order| && g < |b.states| && (forall k | k in order :: k in sync)
    requires forall i, j | 0 <= i < j < |order| :: order[i] < order[j]
    ensures |AppliedUpTo(b, sync, order, n).states| == |b.states|
    ensures AppliedUpTo(b, sync, order, n).states[g] ==
            if g in order[..n] then After(b.states[g], Set(sync[g])) else b.states[g]
    decreases n
  {
    hide After, Publishes;
    if n > 0 {
      AppliedStates(b, sync, order, n - 1, g);
      PrefixGrows(order, n - 1);
    }
  }

  /** After a cycle every group has taken what its members add up to. */
  lemma SyncedStates(b: Board, devices: DeviceMap, m: Assignments, g: nat)
    requires |b.states| == GROUPS && g < GROUPS
    ensures |BoardSynced(b, devices, m).states| == GROUPS
    ensures BoardSynced(b, devices, m).states[g] == Synced(b.states[g], Aggregate(devices, m, g))
  {
    hide Aggregate, Ascending, AppliedUpTo, After;
    var sync := GroupUpdates(devices, m);
    var order := Ascending(sync.Keys);
    AppliedStates(b, sync, order, |order|, g);
    assert order[..|order|] == order;
  }

  /** The messages of a cycle: one for each group that takes something from its members, in the order of the groups. */
  function SyncMessages(b: Board, sync: map<nat, Update>, order: seq<nat>, n: nat): seq<GroupMessage>
    requires n <= |order| && (forall g | g in order :: g in sync && g < |b.states|)
  {
    if n == 0 then []
    else
      var g := order[n - 1];
      assert g in order;
      SyncMessages(b, sync, order, n - 1) + [GroupMessage(g, After(b.states[g], Set(sync[g])))]
  }

  lemma {:induction false} AppliedMessages(b: Board, sync: map<nat, Update>, order: seq<nat>, n: nat)
    requires n <= |order| && (forall g | g in order :: g in sync && g < |b.states|)
    requires forall i, j | 0 <= i < j < |order| :: order[i] < order[j]
    ensures AppliedUpTo(b, sync, order, n).published == b.published + SyncMessages(b, sync, order, n)
    decreases n
  {
    hide After;
    if n > 0 {
      AppliedMessages(b, sync, order, n - 1);
      assert order[n - 1] in order;
      AppliedStates(b, sync, order, n - 1, order[n - 1]);
      PrefixGrows(order, n - 1);
    }
  }

  /** At the end of a cycle each group that has members is published once, changed or not, and no other. */
  lemma SyncedMessages(b: Board, devices: DeviceMap, m: Assignments)
    requires |b.states| == GROUPS
    ensures var sync := GroupUpdates(devices, m);
            var order := Ascending(sync.Keys);
            && (forall g: nat :: g in order <==> g < GROUPS && Members(devices, m, g) != {})
            && (forall g | g in order :: g in sync && g < |b.states|)
            && BoardSynced(b, devices, m).published == b.published + SyncMessages(b, sync, order, |order|)
  {
    hide Aggregate, Ascending, AppliedUpTo, After, SyncMessages, IsMaxLevel;
    var sync := GroupUpdates(devices, m);
    var order := Ascending(sync.Keys);
    forall g: nat | g < GROUPS ensures Aggregate(devices, m, g).Some? <==> Members(devices, m, g) != {} {
      AggregateExists(devices, m, g);
    }
    AppliedMessages(b, sync, order, |order|);
  }

  /** The last message about `g`. */
  function LastState(log: seq<GroupMessage>, g: nat): Option<GroupState>
    decreases |log|
  {
    if log == [] then None
    else if log[|log| - 1].group == g then Some(log[|log| - 1].state)
    else LastState(log[..|log| - 1], g)
  }

  /** The last message about every group shows its state; a group that was never published is still fresh. */
  ghost predicate BoardAgrees(b: Board) {
    |b.states| == GROUPS
    && forall g: nat | g < GROUPS :: b.states[g] == OrElse(LastState(b.published, g), FRESH)
  }

  lemma OneMoreMessage(log: seq<GroupMessage>, e: GroupMessage, g: nat)
    ensures LastState(log + [e], g) == if e.group == g then Some(e.state) else LastState(log, g)
  {
    assert (log + [e])[..|log|] == log;
  }

  /** A step that is not published changes nothing. */
  lemma QuietStep(g: GroupState, act: Action)
    requires !Publishes(g, act)
    ensures After(g, act) == g
  {
  }

  lemma ActedKeepsAgreement(b: Board, id: nat, act: Action)
    requires BoardAgrees(b)
    ensures BoardAgrees(Acted(b, id, act))
  {
    hide After, Publishes;
    if id < GROUPS {
      var g := After(b.states[id], act);
      if Publishes(b.states[id], act) {
        var c := Acted(b, id, act);
        forall k: nat | k < GROUPS ensures c.states[k] == OrElse(LastState(c.published, k), FRESH) {
          OneMoreMessage(b.published, GroupMessage(id, g), k);
        }
      } else {
        QuietStep(b.states[id], act);
        assert b.published + [] == b.published;
      }
    }
  }

  lemma {:induction false} AppliedKeepsAgreement(b: Board, sync: map<nat, Update>, order: seq<nat>, n: nat)
    requires n <= |order| && (forall k | k in order :: k in sync) && BoardAgrees(b)
    ensures BoardAgrees(AppliedUpTo(b, sync, order, n))
    decreases n
  {
    hide BoardAgrees, Acted;
    if n > 0 {
      AppliedKeepsAgreement(b, sync, order, n - 1);
      ActedKeepsAgreement(AppliedUpTo(b, sync, order, n - 1), order[n - 1], Set(sync[order[n - 1]]));
    }
  }

  lemma SyncedKeepsAgreement(b: Board, devices: DeviceMap, m: Assignments)
    requires BoardAgrees(b)
    ensures BoardAgrees(BoardSynced(b, devices, m))
  {
    hide BoardAgrees, Ascending, GroupUpdates;
    var sync := GroupUpdates(devices, m);
    var order := Ascending(sync.Keys);
    AppliedKeepsAgreement(b, sync, order, |order|);
  }

  /** The board agrees with its messages, and every group has a level to go back to. */
  ghost predicate BoardSound(b: Board) {
    BoardAgrees(b) && forall g: nat | g < GROUPS :: b.states[g].lastLevel > 0
  }

  lemma NewBoardIsSound()
    ensures BoardSound(NEW_BOARD)
  {
  }

  lemma ActedKeepsSound(b: Board, id: nat, act: Action)
    requires BoardSound(b)
    ensures BoardSound(Acted(b, id, act))
  {
    hide Publishes;
    ActedKeepsAgreement(b, id, act);
  }

  lemma SyncedKeepsSound(b: Board, devices: DeviceMap, m: Assignments)
    requires BoardSound(b)
    ensures BoardSound(BoardSynced(b, devices, m))
  {
    hide BoardSynced, Aggregate;
    SyncedKeepsAgreement(b, devices, m);
    forall g: nat | g < GROUPS ensures BoardSynced(b, devices, m).states[g].lastLevel > 0 {
      SyncedStates(b, devices, m, g);
    }
  }

  class GroupManager {
    const states: array<GroupState>
    ghost var published: seq<GroupMessage>

    ghost predicate Valid()
      reads this
    {
      states.Length == GROUPS
    }

    ghost function View(): Board
      reads this, states
    {
      Board(states[..], published)
    }

    constructor ()
      ensures Valid() && fresh(states) && View() == NEW_BOARD
    {
      states := new GroupState[GROUPS](_ => FRESH);
      published := [];
      new;
      assert states[..] == seq(GROUPS, _ => FRESH);
    }

    /** Puts an update into the state of a group and publishes it, changed or not. */
    method UpdateGroupState(groupId: nat, u: Update)
      requires Valid()
      modifies this, states
      ensures Valid() && View() == Acted(old(View()), groupId, Set(u))
    {
      if groupId >= 16 {
        return;
      }
      var group := states[groupId];
      if u.level.Some? {
        var lvl := u.level.value;
        if lvl > 0 {
          group := group.(lastLevel := lvl);
        }
        if group.currentLevel != lvl {
          group := group.(currentLevel := lvl);
        }
      }
      if u.tc.Some? && group.tc != u.tc {
        group := group.(tc := u.tc);
      }
      if u.rgb.Some? && group.rgb != u.rgb {
        group := group.(rgb := u.rgb);
      }
      assert group == After(states[groupId], Set(u));
      states[groupId] := group;
      published := published + [GroupMessage(groupId, group)];
    }

    method RestoreGroupLevel(groupId: nat)
      requires Valid()
      modifies this, states
      ensures Valid() && View() == Acted(old(View()), groupId, Restore)
    {
      if groupId >= 16 {
        return;
      }
      var target := if states[groupId].lastLevel > 0 then states[groupId].lastLevel else 254;
      UpdateGroupState(groupId, LevelUpdate(target));
    }

    method StepGroupLevel(groupId: nat, isUp: bool)
      requires Valid()
      modifies this, states
      ensures Valid() && View() == Acted(old(View()), groupId, Step(isUp))
    {
      if groupId >= 16 {
        return;
      }
      var current := states[groupId].currentLevel;
      if current == 0 {
        QuietStep(states[groupId], Step(isUp));
        assert published + [] == published;
        return;
      }
      var calculated: int := current;
      if isUp {
        calculated := calculated + STEP_SIZE;
        if calculated > 254 { calculated := 254; }
      } else {
        calculated := calculated - STEP_SIZE;
        if calculated < 1 { calculated := 1; }
      }
      if calculated != current {
        UpdateGroupState(groupId, LevelUpdate(calculated));
      } else {
        QuietStep(states[groupId], Step(isUp));
        assert published + [] == published;
      }
    }

    /** At the end of a polling cycle every group that has members takes what these add up to. */
    method SyncGroups(devices: DeviceMap, assignments: Assignments)
      requires Valid()
      modifies this, states
      ensures Valid() && View() == BoardSynced(old(View()), devices, assignments)
    {
      hide Aggregate, After, Acted;
      var sync := CollectGroupStates(devices, assignments);
      var order := Ascending(sync.Keys);
      hide Ascending;
      for n := 0 to |order|
        invariant Valid() && View() == AppliedUpTo(old(View()), sync, order, n)
      {
        UpdateGroupState(order[n], sync[order[n]]);
      }
    }
  }

  /** Walks the assignments in the order of the long addresses. */
  method CollectGroupStates(devices: DeviceMap, assignments: Assignments) returns (sync: map<nat, Update>)
    ensures sync == GroupUpdates(devices, assignments)
  {
    hide Ascending, Merged, IsMember, Aggregate;
    sync := map[];
    var order := Ascending(assignments.Keys);
    for n := 0 to |order|
      invariant forall g | g in sync :: g < GROUPS
      invariant forall g: nat | g < GROUPS :: Lookup(sync, g) == MergedUpTo(devices, assignments, order, n, g)
    {
      var a := order[n];
      if a in devices && devices[a].Gear? && devices[a].available {
        sync := MergeDevice(sync, devices[a], assignments[a]);
      }
      forall g: nat | g < GROUPS ensures Lookup(sync, g) == MergedUpTo(devices, assignments, order, n + 1, g) {
        MemberIf(devices, assignments, a, g);
      }
    }
    forall g: nat | g < GROUPS ensures Lookup(sync, g) == Aggregate(devices, assignments, g) {
      AggregateIs(devices, assignments, order, g);
    }
  }

  lemma AggregateIs(devices: DeviceMap, m: Assignments, order: seq<Long>, g: nat)
    requires order == Ascending(m.Keys)
    ensures Aggregate(devices, m, g) == MergedUpTo(devices, m, order, |order|, g)
  {
  }

  lemma MemberIf(devices: DeviceMap, m: Assignments, a: Long, g: nat)
    ensures IsMember(devices, m, a, g) <==>
              a in m && a in devices && devices[a].Gear? && devices[a].available && g in m[a]
  {
  }

  /** Puts one gear into the pending updates of all its groups. */
  method MergeDevice(sync: map<nat, Update>, gear: Device, groups: Groups) returns (out: map<nat, Update>)
    requires gear.Gear? && forall g | g in sync :: g < GROUPS
    ensures forall g | g in out :: g < GROUPS
    ensures forall g: nat | g < GROUPS ::
              Lookup(out, g) == if g in groups then Some(Merged(Lookup(sync, g), gear)) else Lookup(sync, g)
  {
    out := sync;
    for group := 0 to 16
      invariant forall g | g in out :: g < GROUPS
      invariant forall g: nat | g < GROUPS ::
          Lookup(out, g) == if g < group && g in groups then Some(Merged(Lookup(sync, g), gear)) else Lookup(sync, g)
    {
      if group in groups {
        if group !in out {
          out := out[group := LevelUpdate(0)];
        }
        var state := out[group];
        if gear.currentLevel > OrElse(state.level, 0) {
          state := state.(level := Some(gear.currentLevel));
        }
        if gear.color.Some? {
          if gear.color.value.supportsRgb && gear.color.value.rgb.Some? {
            state := state.(rgb := gear.color.value.rgb);
          }
          if gear.color.value.supportsTc && gear.color.value.tc.Some? {
            state := state.(tc := gear.color.value.tc);
          }
        }
        out := out[group := state];
      }
    }
  }
}
