/** The sync task and the sniffer together: what every run of the controller keeps, and what a cycle achieves. */
module SyncTask {
  import opened AddressMap
  import opened Counting
  import opened Ordered
  import opened Devices
  import opened Discovery
  import opened GroupAssignments
  import opened DeviceController
  import opened Sniffer
  import L = GroupLevels
  import S = Scheduler

  /** After a poll the cache has what the device answered; a device that does not respond keeps its state. */
  lemma PolledIsCached(v: View, index: Index, short: nat, r: PollReply)
    requires short in index && index[short] in v.devices && v.devices[index[short]].Gear?
    ensures var g := v.devices[index[short]];
            var w := Polled(v, index, short, r);
            index[short] in w.devices &&
            var h := w.devices[index[short]];
            && h.Gear? && (h.available <==> r.level.Some?)
            && (r.level.None? ==> h == g.(available := false) && w.published == v.published)
            && (r.level.Some? ==>
                  && h.currentLevel == (if r.level.value == MASK then g.currentLevel else r.level.value)
                  && h.statusByte == (if r.status.Some? then r.status.value else g.statusByte)
                  && h.lastLevel == (if h.currentLevel > 0 then h.currentLevel else g.lastLevel)
                  && !h.initialSyncNeeded
                  && (h.currentLevel == 0 ==> h.color == g.color)
                  && (h.currentLevel > 0 && r.tc.Some? ==> h.color.Some? && h.color.value.tc == r.tc)
                  && (h.currentLevel > 0 && r.rgb.Some? ==> h.color.Some? && h.color.value.rgb == r.rgb))
  {
  }

  /** A poll of an input device, or of an address nobody has, is about its availability at most. */
  lemma PolledOthers(v: View, index: Index, short: nat, r: PollReply)
    ensures var w := Polled(v, index, short, r);
            && w.devices.Keys == v.devices.Keys && w.groups == v.groups && w.sync == v.sync
            && (forall a | a in v.devices && !(short in index && index[short] == a) :: w.devices[a] == v.devices[a])
            && (short in index && index[short] in v.devices && v.devices[index[short]].Input? ==>
                  && w.devices[index[short]] == v.devices[index[short]].(available := r.level.Some?)
                  && w.published == v.published)
            && (short !in index || index[short] !in v.devices ==> w == v)
            && (forall e | e in w.published && e !in v.published :: short in index && e.address == index[short])
  {
    hide Updated, ShowsChange;
  }

  lemma AvailabilityAgrees(m: DeviceMap, log: seq<Message>, a: Long, available: bool)
    requires Agrees(m, log) && a in m
    ensures Agrees(m[a := m[a].(available := available)], log)
  {
    var n := m[a := m[a].(available := available)];
    assert forall b | b in n && n[b].Gear? :: m[b].Gear? && Show(n[b]) == Show(m[b]);
  }

  lemma PolledKeepsSound(v: View, index: Index, short: nat, r: PollReply)
    requires Sound(v)
    ensures Sound(Polled(v, index, short, r))
  {
    hide Agrees, S.Inv, UpdatedMap, MapMessages;
    if short in index && index[short] in v.devices {
      var a := index[short];
      var d := v.devices[a].(available := r.level.Some?);
      AvailabilityAgrees(v.devices, v.published, a, r.level.Some?);
      if d.Gear? && r.level.Some? {
        UpdateKeepsAgreement(v.devices[a := d], v.published, a, UpdateFrom(d, r));
      }
    }
  }

  lemma TaskTurnKeepsSound(v: View, index: Index, m: Assignments, now: int, r: PollReply)
    requires Sound(v)
    ensures Sound(TaskTurn(v, index, m, now, r))
  {
    hide S.Turn, S.Inv, Agrees, Polled, L.BoardSynced, L.BoardSound;
    S.TurnKeepsInv(v.sync, now);
    var (poll, sync) := S.Turn(v.sync, now);
    var w := Polled(v.(sync := sync), index, poll.address, r);
    PolledKeepsSound(v.(sync := sync), index, poll.address, r);
    L.SyncedKeepsSound(w.groups, w.devices, m);
  }

  /**
   * The turn that ends a cycle leaves every group with an available control gear at the highest level these have
   * then, and the other groups as they were.
   */
  lemma CycleSyncsGroups(v: View, index: Index, m: Assignments, now: int, r: PollReply, g: nat)
    requires |v.groups.states| == GROUPS && g < GROUPS
    ensures var w := TaskTurn(v, index, m, now, r);
            var members := L.Members(w.devices, m, g);
            && |w.groups.states| == GROUPS
            && if !S.Turn(v.sync, now).0.cycleDone || members == {} then w.groups.states[g] == v.groups.states[g]
               else L.IsMaxLevel(w.devices, members, w.groups.states[g].currentLevel)
  {
    hide S.Turn, L.Aggregate, L.Synced, L.Members, L.IsMaxLevel, UpdatedMap, MapMessages;
    var (poll, sync) := S.Turn(v.sync, now);
    var w := Polled(v.(sync := sync), index, poll.address, r);
    L.SyncedStates(v.groups, w.devices, m, g);
    L.AggregateIsMax(w.devices, m, g, v.groups.states[g]);
  }

  // ------------------------------------------------------------------ every run

  datatype Event =
    | Heard(frame: BusFrame, now: int)
    | TurnTaken(now: int, reply: PollReply)
    | SyncAll(base: nat, stagger: nat, now: int)
    | Reported(address: Long, update: Update)
    | Rescanned(bus: Answers)

  /** Something that happens, with the index and the assignments at the time. */
  datatype Step = Step(event: Event, index: Index, assignments: Assignments)

  function After(v: View, index: Index, m: Assignments, e: Event): View {
    match e
    case Heard(f, now) => Sniffed(v, index, m, f, now)
    case TurnTaken(now, r) => TaskTurn(v, index, m, now, r)
    case SyncAll(base, stagger, now) =>
      var order := Ascending(v.devices.Keys);
      v.(sync := Staggered(v.sync, GearShorts(v.devices, order, |order|), base, stagger, now))
    case Reported(a, u) =>
      v.(devices := UpdatedMap(v.devices, a, u), published := v.published + MapMessages(v.devices, a, u))
    case Rescanned(bus) => v.(devices := Discovered(bus, SHORTS).0)
  }

  function AfterAll(v: View, steps: seq<Step>): View
    decreases |steps|
  {
    if steps == [] then v
    else AfterAll(After(v, steps[0].index, steps[0].assignments, steps[0].event), steps[1..])
  }

  /** No gear that was just found counts as published. */
  lemma RescanAgrees(bus: Answers, log: seq<Message>)
    ensures Agrees(Discovered(bus, SHORTS).0, log)
  {
    hide Discovered, FoundAt;
    DiscoveredMaps(bus, SHORTS);
    var devices := Discovered(bus, SHORTS).0;
    forall a | a in devices && devices[a].Gear? ensures devices[a].initialSyncNeeded {
      assert StandsUnder(bus, ScannedKeys(SHORTS), a, devices[a]);
    }
  }

  /**
   * The devices after `init`: the stored ones, with those available that answered with their own address, or what a
   * scan finds if nothing is stored or the stored addresses are not those on the bus.
   */
  function Initialised(blob: Blob, valid: bool, answering: set<Long>, bus: Answers): DeviceMap {
    if blob.Records? && blob.records != [] && valid then
      var stored := Loaded(blob.records).0;
      map a | a in stored :: if a in answering then stored[a].(available := true) else stored[a]
    else Discovered(bus, SHORTS).0
  }

  /** Where every run starts: however the devices became known, the caches of a new controller are sound. */
  lemma InitIsSound(blob: Blob, valid: bool, answering: set<Long>, bus: Answers)
    ensures Sound(View(Initialised(blob, valid, answering, bus), [], L.NEW_BOARD, S.State([], {}, [], 0)))
  {
    hide Discovered, Loaded, L.BoardSound;
    L.NewBoardIsSound();
    RescanAgrees(bus, []);
    if blob.Records? && blob.records != [] && valid {
      LoadedAgrees(blob.records, []);
      var stored := Loaded(blob.records).0;
      var devices := Initialised(blob, valid, answering, bus);
      assert forall a | a in devices && devices[a].Gear? :: Show(devices[a]) == Show(stored[a]);
    }
  }

  /** A device is available after that only if it answered. */
  lemma InitAvailable(blob: Blob, valid: bool, answering: set<Long>, bus: Answers, a: Long)
    requires a in Initialised(blob, valid, answering, bus) && Initialised(blob, valid, answering, bus)[a].available
    ensures || (a in answering && blob.Records? && valid && exists r :: r in blob.records && r.longAddress == a)
            || exists k: nat :: FoundAt(bus, k).Some? && FoundAt(bus, k).value == a
  {
    hide Discovered, FoundAt, LoadedUpTo;
    if blob.Records? && blob.records != [] && valid {
      LoadedAre(blob.records, |blob.records|);
      var i: nat :| IsFirst(blob.records, |blob.records|, a, i);
      assert blob.records[i] in blob.records;
    } else {
      DiscoveredMaps(bus, SHORTS);
      var d := Discovered(bus, SHORTS).0[a];
      assert StandsUnder(bus, ScannedKeys(SHORTS), a, d);
      assert FoundAt(bus, KeyOf(d)).value == a;
    }
  }

  lemma EventKeepsSound(v: View, index: Index, m: Assignments, e: Event)
    requires Sound(v)
    ensures Sound(After(v, index, m, e))
  {
    match e {
      case Heard(f, now) => SniffedKeepsSound(v, index, m, f, now);
      case TurnTaken(now, r) => TaskTurnKeepsSound(v, index, m, now, r);
      case SyncAll(base, stagger, now) =>
        hide Ascending, S.Inv, Staggered, Agrees;
        var order := Ascending(v.devices.Keys);
        StaggeredSchedules(v.sync, GearShorts(v.devices, order, |order|), base, stagger, now);
      case Reported(a, u) =>
        hide UpdatedMap, MapMessages, S.Inv, Agrees;
        UpdateKeepsAgreement(v.devices, v.published, a, u);
      case Rescanned(bus) =>
        hide Discovered, S.Inv, Agrees;
        RescanAgrees(bus, v.published);
    }
  }

  /**
   * In every interleaving of overheard frames, turns of the sync task, sync requests, reported states and new scans,
   * the scheduler stays sound, what was published stays what is cached, and every group stays restorable.
   */
  lemma {:induction false} EveryRunIsSound(v: View, steps: seq<Step>)
    requires Sound(v)
    ensures Sound(AfterAll(v, steps))
    decreases |steps|
  {
    hide After, Sound;
    if steps != [] {
      EventKeepsSound(v, steps[0].index, steps[0].assignments, steps[0].event);
      EveryRunIsSound(After(v, steps[0].index, steps[0].assignments, steps[0].event), steps[1..]);
    }
  }

  // ------------------------------------------------------------------ entries under their own long addresses

  lemma PolledKeepsLongs(v: View, index: Index, short: nat, r: PollReply)
    requires Consistent(v.devices)
    ensures Consistent(Polled(v, index, short, r).devices)
  {
    hide Updated, MapMessages;
  }

  lemma DiscoveredConsistent(bus: Answers)
    ensures Consistent(Discovered(bus, SHORTS).0)
  {
    hide Discovered, FoundAt;
    DiscoveredMaps(bus, SHORTS);
    var devices := Discovered(bus, SHORTS).0;
    forall a | a in devices ensures devices[a].longAddress == a {
      assert StandsUnder(bus, ScannedKeys(SHORTS), a, devices[a]);
    }
  }

  /** Every run starts with entries that stand under their own long addresses. */
  lemma InitIsConsistent(blob: Blob, valid: bool, answering: set<Long>, bus: Answers)
    ensures Consistent(Initialised(blob, valid, answering, bus))
  {
    hide Discovered, LoadedUpTo;
    DiscoveredConsistent(bus);
    if blob.Records? {
      LoadedConsistent(blob.records, |blob.records|);
    }
  }

  /** An overheard frame that adds an entry, for a device whose long address is not the default one. */
  ghost predicate Misplaces(v: View, index: Index, m: Assignments, e: Event) {
    && e.Heard? && AddsEntry(v.devices, index, m, e.frame)
    && 0 !in Targeted(v.devices, index, m, TargetOf(e.frame.data / 256 % 256))
  }

  /** This is the only thing that happens after which an entry does not stand under its own long address. */
  lemma EventKeepsLongs(v: View, index: Index, m: Assignments, e: Event)
    requires Consistent(v.devices)
    ensures Consistent(After(v, index, m, e).devices) <==> !Misplaces(v, index, m, e)
  {
    match e {
      case Heard(f, now) =>
        HeardKeepsLongs(v, index, m, f, now);
      case TurnTaken(now, r) =>
        hide S.Turn, Polled, L.BoardSynced, Consistent;
        var (poll, sync) := S.Turn(v.sync, now);
        PolledKeepsLongs(v.(sync := sync), index, poll.address, r);
      case SyncAll(base, stagger, now) =>
        hide Ascending, Staggered, GearShorts;
      case Reported(a, u) =>
        hide Updated, MapMessages;
      case Rescanned(bus) =>
        hide Discovered;
        DiscoveredConsistent(bus);
    }
  }

  lemma HeardKeepsLongs(v: View, index: Index, m: Assignments, f: BusFrame, now: int)
    requires Consistent(v.devices)
    ensures Consistent(Sniffed(v, index, m, f, now).devices) <==> !Misplaces(v, index, m, Heard(f, now))
  {
    hide Sniffed, Targeted;
    SniffedAddsEntry(v, index, m, f, now);
    var w := Sniffed(v, index, m, f, now).devices;
    if AddsEntry(v.devices, index, m, f) {
      var targeted := Targeted(v.devices, index, m, TargetOf(f.data / 256 % 256));
      var a :| a in targeted;
      assert targeted == {a} by { SubsetSize({a}, targeted); }
      assert w[a] == Added(f.data % 256);
    }
  }

  /** If an entry stands elsewhere after a run, such a frame was overheard while all of them were in their places. */
  lemma {:induction false} RunMisplaces(v: View, steps: seq<Step>) returns (k: nat)
    requires Consistent(v.devices) && !Consistent(AfterAll(v, steps).devices)
    ensures k < |steps|
    ensures var u := AfterAll(v, steps[..k]);
            Consistent(u.devices) && Misplaces(u, steps[k].index, steps[k].assignments, steps[k].event)
    decreases |steps|
  {
    hide After, Consistent, Misplaces;
    var s := steps[0];
    EventKeepsLongs(v, s.index, s.assignments, s.event);
    if Misplaces(v, s.index, s.assignments, s.event) {
      k := 0;
    } else {
      var rest := RunMisplaces(After(v, s.index, s.assignments, s.event), steps[1..]);
      k := rest + 1;
      assert steps[..k][0] == s && steps[..k][1..] == steps[1..][..rest];
    }
  }
}
