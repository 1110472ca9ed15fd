/** Group assignments read back from the bus, and kept as a tree of keys and group numbers. */
module GroupStore {
  import opened Addressing
  import opened Counting
  import opened Ordered
  import opened Devices
  import opened GroupAssignments
  import opened LongAddress

  // ------------------------------------------------------------------ the persisted tree

  datatype Json = Object(entries: seq<Entry>) | Array(items: seq<Json>) | Number(value: int) | Other

  datatype Entry = Entry(key: string, value: Json)

  function Numbers(groups: Groups, n: nat): seq<Json> {
    if n == 0 then [] else Numbers(groups, n - 1) + (if n - 1 in groups then [Number(n - 1)] else [])
  }

  function SavedEntries(m: Assignments, order: seq<Long>, n: nat): seq<Entry>
    requires n <= |order| && forall a | a in order :: a in m
  {
    if n == 0 then []
    else SavedEntries(m, order, n - 1) + [Entry(Printed(order[n - 1]), Array(Numbers(m[order[n - 1]], GROUPS)))]
  }

  function Saved(m: Assignments): Json {
    var order := Ascending(m.Keys);
    Object(SavedEntries(m, order, |order|))
  }

  predicate IsGroupNumber(j: Json) {
    j.Number? && 0 <= j.value < GROUPS
  }

  function GroupsIn(j: Json): Groups {
    if j.Array? then set i | i in j.items && IsGroupNumber(i) :: i.value as nat else {}
  }

  function LoadedEntries(entries: seq<Entry>, n: nat): Assignments
    requires n <= |entries|
  {
    if n == 0 then map[]
    else
      var before := LoadedEntries(entries, n - 1);
      var key := StringToLongAddress(entries[n - 1].key);
      if key.Some? then before[key.value := GroupsIn(entries[n - 1].value)] else before
  }

  /** Anything but an object is no assignments at all; unreadable keys are skipped, and later entries win. */
  function Loaded(root: Json): Assignments {
    if root.Object? then LoadedEntries(root.entries, |root.entries|) else map[]
  }

  method SaveToConfig(manager: GroupAssigner) returns (root: Json)
    ensures root == Saved(manager.assignments)
  {
    var entries: seq<Entry> := [];
    var order := Ascending(manager.assignments.Keys);
    hide Ascending, Printed, Numbers;
    for n := 0 to |order|
      invariant entries == SavedEntries(manager.assignments, order, n)
    {
      var groupArray := ListGroups(manager.assignments[order[n]]);
      var key := LongAddressToString(order[n]);
      entries := entries + [Entry(key[..6], Array(groupArray))];
      assert key[..6] == Printed(order[n]);
    }
    root := Object(entries);
  }

  method ListGroups(groups: Groups) returns (groupArray: seq<Json>)
    ensures groupArray == Numbers(groups, GROUPS)
  {
    groupArray := [];
    for i := 0 to 16
      invariant groupArray == Numbers(groups, i)
    {
      if i in groups {
        groupArray := groupArray + [Number(i)];
      }
    }
  }

  method LoadFromConfig(manager: GroupAssigner, root: Json)
    modifies manager`assignments
    ensures manager.assignments == Loaded(root)
  {
    manager.assignments := map[];
    if !root.Object? {
      return;
    }
    for n := 0 to |root.entries|
      invariant manager.assignments == LoadedEntries(root.entries, n)
    {
      var longAddr := StringToLongAddress(root.entries[n].key);
      if longAddr.None? {
        continue;
      }
      var groups := CollectGroups(root.entries[n].value);
      manager.assignments := manager.assignments[longAddr.value := groups];
    }
  }

  method CollectGroups(value: Json) returns (groups: Groups)
    ensures groups == GroupsIn(value)
  {
    groups := {};
    if value.Array? {
      for i := 0 to |value.items|
        invariant groups == GroupsIn(Array(value.items[..i]))
      {
        assert value.items[..i + 1] == value.items[..i] + [value.items[i]];
        var item := value.items[i];
        if item.Number? && item.value >= 0 && item.value < 16 {
          groups := groups + {item.value};
        }
      }
      assert value.items[..|value.items|] == value.items;
    }
  }

  lemma {:induction false} NumbersAre(groups: Groups, n: nat)
    ensures forall j :: j in Numbers(groups, n) <==> j.Number? && 0 <= j.value < n && j.value in groups
    decreases n
  {
    if n > 0 {
      NumbersAre(groups, n - 1);
    }
  }

  lemma GroupsRoundTrip(groups: Groups)
    ensures GroupsIn(Array(Numbers(groups, GROUPS))) == groups
  {
    hide Numbers;
    NumbersAre(groups, GROUPS);
    forall g | g in groups ensures g in GroupsIn(Array(Numbers(groups, GROUPS))) {
      assert Number(g) in Numbers(groups, GROUPS) && IsGroupNumber(Number(g)) && Number(g).value == g;
    }
  }

  predicate IsShortened(order: seq<Long>, n: nat, k: nat)
    requires n <= |order|
  {
    exists i :: 0 <= i < n && order[i] % SPACE == k
  }

  /** Loading what was saved keeps the low 24 bits of each address. */
  lemma {:induction false} LoadedKeys(m: Assignments, order: seq<Long>, n: nat, entries: seq<Entry>)
    requires n <= |order| && (forall a | a in order :: a in m)
    requires entries == SavedEntries(m, order, |order|) && |entries| == |order|
    ensures forall k :: k in LoadedEntries(entries, n) <==> IsShortened(order, n, k)
    decreases n
  {
    hide Printed, StringToLongAddress, GroupsIn, Numbers, SavedEntries;
    SavedAt(m, order, |order|);
    if n > 0 {
      LoadedKeys(m, order, n - 1, entries);
      PrintThenRead(order[n - 1]);
    }
  }

  lemma {:induction false} LoadedValues(m: Assignments, order: seq<Long>, n: nat, entries: seq<Entry>)
    requires n <= |order| && (forall a | a in order :: a in m && a < SPACE)
    requires (forall i, j | 0 <= i < j < |order| :: order[i] < order[j])
    requires entries == SavedEntries(m, order, |order|) && |entries| == |order|
    ensures var l := LoadedEntries(entries, n);
            forall i | 0 <= i < n :: order[i] in l && l[order[i]] == m[order[i]]
    decreases n
  {
    hide Printed, StringToLongAddress, GroupsIn, Numbers, SavedEntries;
    SavedAt(m, order, |order|);
    if n > 0 {
      LoadedValues(m, order, n - 1, entries);
      PrintThenRead(order[n - 1]);
      GroupsRoundTrip(m[order[n - 1]]);
      assert order[n - 1] % SPACE == order[n - 1];
    }
  }

  lemma {:induction false} SavedAt(m: Assignments, order: seq<Long>, n: nat)
    requires n <= |order| && forall a | a in order :: a in m
    ensures var s := SavedEntries(m, order, n);
            |s| == n && forall i | 0 <= i < n :: s[i] == Entry(Printed(order[i]), Array(Numbers(m[order[i]], GROUPS)))
    decreases n
  {
    if n > 0 { SavedAt(m, order, n - 1); }
  }

  lemma LoadedSavedKeys(m: Assignments)
    ensures forall k | k in Loaded(Saved(m)) :: k < SPACE
  {
    hide LoadedEntries, SavedEntries, Ascending;
    var order := Ascending(m.Keys);
    SavedAt(m, order, |order|);
    LoadedKeys(m, order, |order|, SavedEntries(m, order, |order|));
  }

  lemma LoadedSavedIs(m: Assignments)
    requires forall a | a in m :: a < SPACE
    ensures Loaded(Saved(m)) == m
  {
    hide LoadedEntries, SavedEntries, Ascending, IsShortened;
    var order := Ascending(m.Keys);
    var entries := SavedEntries(m, order, |order|);
    SavedAt(m, order, |order|);
    LoadedKeys(m, order, |order|, entries);
    LoadedValues(m, order, |order|, entries);
    ShortenedIsIn(m, order);
    var l := LoadedEntries(entries, |order|);
    assert forall k | k in order :: l[k] == m[k];
    assert l.Keys == m.Keys;
  }

  lemma ShortenedIsIn(m: Assignments, order: seq<Long>)
    requires (forall a | a in order :: a < SPACE) && forall a :: a in order <==> a in m
    ensures forall k :: IsShortened(order, |order|, k) <==> k in m
  {
    forall k | k in m ensures IsShortened(order, |order|, k) {
      var i :| 0 <= i < |order| && order[i] == k;
      assert order[i] % SPACE == k;
    }
    forall k | IsShortened(order, |order|, k) ensures k in m {
      var i :| 0 <= i < |order| && order[i] % SPACE == k;
      assert order[i] in order && order[i] % SPACE == order[i];
    }
  }

  /** Saving and loading gives back the assignments exactly if every address fits into 24 bits. */
  lemma AssignmentsRoundTrip(m: Assignments)
    ensures Loaded(Saved(m)) == m <==> forall a | a in m :: a < SPACE
  {
    hide Loaded, Saved;
    LoadedSavedKeys(m);
    if forall a | a in m :: a < SPACE {
      LoadedSavedIs(m);
    }
  }

  /** The last of the first `n` entries whose key reads as `a`. */
  ghost predicate IsLastFor(entries: seq<Entry>, n: nat, a: Long, i: nat) {
    i < n <= |entries| && StringToLongAddress(entries[i].key) == Some(a)
    && forall j | i < j < n :: StringToLongAddress(entries[j].key) != Some(a)
  }

  /** Where the groups of a loaded address come from. */
  ghost predicate FromLast(entries: seq<Entry>, n: nat, m: Assignments, a: Long)
    requires a in m
  {
    exists i: nat :: IsLastFor(entries, n, a, i) && m[a] == GroupsIn(entries[i].value)
  }

  /**
   * Whatever object is loaded: the addresses are those its keys can be read as, and the groups of each are those in the
   * list of its last entry.
   */
  lemma {:induction false} LoadedAre(entries: seq<Entry>, n: nat)
    requires n <= |entries|
    ensures var m := LoadedEntries(entries, n);
            && (forall i | 0 <= i < n && StringToLongAddress(entries[i].key).Some? ::
                  StringToLongAddress(entries[i].key).value in m)
            && (forall a | a in m :: FromLast(entries, n, m, a))
    decreases n
  {
    hide StringToLongAddress, GroupsIn, FromLast, LoadedEntries;
    if n == 0 {
      NothingLoaded(entries);
    } else {
      LoadedAre(entries, n - 1);
      OneMoreLoaded(entries, n);
      var before, m := LoadedEntries(entries, n - 1), LoadedEntries(entries, n);
      forall a | a in m ensures FromLast(entries, n, m, a) {
        OneMoreLast(entries, n, before, m, a);
      }
    }
  }

  lemma NothingLoaded(entries: seq<Entry>)
    ensures LoadedEntries(entries, 0) == map[]
  {
  }

  lemma OneMoreLoaded(entries: seq<Entry>, n: nat)
    requires 0 < n <= |entries|
    ensures var before, key := LoadedEntries(entries, n - 1), StringToLongAddress(entries[n - 1].key);
            LoadedEntries(entries, n) == if key.Some? then before[key.value := GroupsIn(entries[n - 1].value)] else before
  {
    hide StringToLongAddress, GroupsIn;
  }

  lemma OneMoreLast(entries: seq<Entry>, n: nat, before: Assignments, m: Assignments, a: Long)
    requires 0 < n <= |entries| && a in m
    requires var key := StringToLongAddress(entries[n - 1].key);
             m == if key.Some? then before[key.value := GroupsIn(entries[n - 1].value)] else before
    requires a in before ==> FromLast(entries, n - 1, before, a)
    ensures FromLast(entries, n, m, a)
  {
    hide StringToLongAddress, GroupsIn;
    if StringToLongAddress(entries[n - 1].key) == Some(a) {
      assert IsLastFor(entries, n, a, n - 1);
    } else {
      var i: nat :| IsLastFor(entries, n - 1, a, i) && before[a] == GroupsIn(entries[i].value);
      assert IsLastFor(entries, n, a, i);
    }
  }

  /** The groups in a list are its numbers from 0 to 15; anything but a list is none, and anything but an object is no tree. */
  lemma GroupsInAre(j: Json, g: nat)
    ensures g in GroupsIn(j) <==> j.Array? && g < 16 && Number(g) in j.items
    ensures Loaded(Array([])) == Loaded(Number(0)) == Loaded(Other) == map[]
  {
    if j.Array? && g < 16 && Number(g) in j.items {
      assert IsGroupNumber(Number(g)) && Number(g).value == g;
    }
  }

  // ------------------------------------------------------------------ reading memberships from the gear

  /** Memberships in groups `base` to `base + n - 1` as the gear reports them: the lowest group in the lowest bit. */
  function MaskOf(groups: set<nat>, base: nat, n: nat): nat
    decreases n
  {
    if n == 0 then 0 else (if base in groups then 1 else 0) + 2 * MaskOf(groups, base + 1, n - 1)
  }

  function GroupsFrom(mask: nat, base: nat, n: nat): (r: set<nat>)
    ensures forall g | g in r :: base <= g < base + n
    decreases n
  {
    if n == 0 then {} else (if mask % 2 == 1 then {base} else {}) + GroupsFrom(mask / 2, base + 1, n - 1)
  }

  lemma Doubled(x: nat, y: nat)
    ensures (2 * x) * y == 2 * (x * y)
  {
  }

  lemma {:induction false} MaskSplits(groups: set<nat>, base: nat, n: nat, k: nat)
    ensures MaskOf(groups, base, n + k) == MaskOf(groups, base, n) + Pow2(n) * MaskOf(groups, base + n, k)
    decreases n
  {
    if n > 0 {
      MaskSplits(groups, base + 1, n - 1, k);
      var high := MaskOf(groups, base + n, k);
      Doubled(Pow2(n - 1), high);
    }
  }

  lemma {:induction false} MaskRoundTrip(groups: set<nat>, base: nat, n: nat)
    ensures GroupsFrom(MaskOf(groups, base, n), base, n) == set g | g in groups && base <= g < base + n
    decreases n
  {
    if n > 0 {
      var mask := MaskOf(groups, base, n);
      assert mask / 2 == MaskOf(groups, base + 1, n - 1);
      MaskRoundTrip(groups, base + 1, n - 1);
    }
  }

  /** The two membership bytes of the gear at a short address, as far as they were answered. */
  datatype Memberships = Memberships(low: Option<nat>, high: Option<nat>)

  function DeviceGroups(r: Memberships): Option<Groups> {
    if r.low.Some? && r.high.Some? then
      var groups: Groups := GroupsFrom(r.high.value * 256 + r.low.value, 0, GROUPS);
      Some(groups)
    else None
  }

  /** Putting the two bytes a gear answers together gives the groups it is in. */
  lemma DeviceGroupsAre(groups: Groups)
    ensures DeviceGroups(Memberships(Some(MaskOf(groups, 0, 8)), Some(MaskOf(groups, 8, 8)))) == Some(groups)
  {
    hide MaskOf, GroupsFrom;
    MaskSplits(groups, 0, 8, 8);
    assert Pow2(8) == 256;
    MaskRoundTrip(groups, 0, GROUPS);
    assert groups == set g | g in groups && 0 <= g < GROUPS;
  }

  function Reported(devices: DeviceMap, replies: map<nat, Memberships>, a: Long): Option<Groups> {
    if a in devices && devices[a].available && devices[a].Gear? && devices[a].shortAddress in replies
    then DeviceGroups(replies[devices[a].shortAddress]) else None
  }

  function WithGroups(m: Assignments, a: Long, groups: Option<Groups>): Assignments {
    if groups.Some? then m[a := groups.value] else m
  }

  /** Exactly the devices of `seen` that reported their groups are in `m`, with these groups. */
  ghost predicate IsRefreshed(m: Assignments, devices: DeviceMap, replies: map<nat, Memberships>, seen: seq<Long>) {
    forall a :: (a in m <==> a in seen && Reported(devices, replies, a).Some?)
             && (a in m ==> Reported(devices, replies, a) == Some(m[a]))
  }

  /** Replaces the stored assignments by what the available gear answer; no known devices, no change. */
  method RefreshAssignmentsFromBus(manager: GroupAssigner, devices: DeviceMap, replies: map<nat, Memberships>)
    modifies manager`assignments
    ensures if devices == map[] then manager.assignments == old(manager.assignments)
            else IsRefreshed(manager.assignments, devices, replies, Ascending(devices.Keys))
  {
    hide DeviceGroups, IsRefreshed, Reported, WithGroups, Ascending;
    if devices == map[] {
      return;
    }
    var newAssignments: Assignments := map[];
    var order := Ascending(devices.Keys);
    NothingRefreshed(devices, replies);
    for n := 0 to |order|
      invariant IsRefreshed(newAssignments, devices, replies, order[..n])
    {
      var a := order[n];
      assert a in order;
      assert order[..n + 1] == order[..n] + [a];
      OneRefreshed(newAssignments, devices, replies, order[..n], a);
      var groups := ReadGroups(devices, replies, a);
      newAssignments := WithGroups(newAssignments, a, groups);
    }
    assert order[..|order|] == order;
    manager.assignments := newAssignments;
  }

  method ReadGroups(devices: DeviceMap, replies: map<nat, Memberships>, a: Long) returns (groups: Option<Groups>)
    requires a in devices
    ensures groups == Reported(devices, replies, a)
  {
    hide DeviceGroups;
    groups := None;
    var device := devices[a];
    if !device.available {
      return;
    }
    if device.Gear? && device.shortAddress in replies {
      groups := DeviceGroups(replies[device.shortAddress]);
    }
  }

  /** A device counts as having reported its groups if it is available gear and both bytes were answered. */
  lemma ReportedIs(devices: DeviceMap, replies: map<nat, Memberships>, a: Long)
    ensures Reported(devices, replies, a).Some? <==>
            && a in devices && devices[a].Gear? && devices[a].available && devices[a].shortAddress in replies
            && replies[devices[a].shortAddress].low.Some? && replies[devices[a].shortAddress].high.Some?
  {
    hide GroupsFrom;
  }

  lemma NothingRefreshed(devices: DeviceMap, replies: map<nat, Memberships>)
    ensures IsRefreshed(map[], devices, replies, [])
  {
  }

  lemma OneRefreshed(m: Assignments, devices: DeviceMap, replies: map<nat, Memberships>, seen: seq<Long>, a: Long)
    requires IsRefreshed(m, devices, replies, seen)
    ensures IsRefreshed(WithGroups(m, a, Reported(devices, replies, a)), devices, replies, seen + [a])
  {
    hide Reported;
  }

  /** After a refresh the stored groups of a gear that answered are its groups, so that a change reaches its target. */
  lemma RefreshedDiffReaches(devices: DeviceMap, replies: map<nat, Memberships>, stored: Assignments, to: Assignments,
                             a: Long, groups: Groups)
    requires Addressable(devices, stored.Keys + to.Keys) && a in devices && devices[a].available && devices[a].Gear?
    requires a in stored && Reported(devices, replies, a) == Some(stored[a])
    requires devices[a].shortAddress in replies
    requires replies[devices[a].shortAddress] == Memberships(Some(MaskOf(groups, 0, 8)), Some(MaskOf(groups, 8, 8)))
    ensures HearAll(Member(devices[a].shortAddress, groups, None), FramesFor(AllChanges(devices, stored, to))) ==
            Member(devices[a].shortAddress, if a in to then to[a] else {}, None)
  {
    hide MaskOf, DeviceGroups, HearAll, AllChanges, FramesFor;
    DeviceGroupsAre(groups);
    DiffReachesTarget(devices, stored, to, a, Member(devices[a].shortAddress, groups, None));
  }
}
