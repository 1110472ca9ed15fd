/** Scanning the 64 short addresses for control gear and input devices, and mapping what answers. */
module Discovery {
  import opened Addressing
  import opened Devices

  const SHORTS: nat := 64
  const INPUT_KEY: nat := 0x80
  const PSEUDO_ADDRESS: nat := 0xFE0000

  type Index = map<nat, Long>

  /** What answers at one short address: a gear, and its long address if that can be read; the same for an input device. */
  datatype Answer = Answer(gear: bool, gearLong: Option<Long>, input: bool, inputLong: Option<Long>)

  type Answers = s: seq<Answer> | |s| == SHORTS witness seq(SHORTS, _ => Answer(false, None, false, None))

  /** The long address found for an index key: short addresses for gear, and with bit 0x80 for input devices. */
  function FoundAt(bus: Answers, k: nat): Option<Long> {
    if k < SHORTS then if bus[k].gear then bus[k].gearLong else None
    else if INPUT_KEY <= k < INPUT_KEY + SHORTS then
      var a := bus[k - INPUT_KEY];
      if !a.input then None
      else if a.inputLong.Some? then a.inputLong else Some(PSEUDO_ADDRESS + (k - INPUT_KEY))
    else None
  }

  function NewDevice(k: nat, long: Long): Device
    requires k < SHORTS || INPUT_KEY <= k
  {
    if k < SHORTS then NewGear(long, k) else Input(long, k - INPUT_KEY, "", true)
  }

  /** The index key a device stands under. */
  function KeyOf(d: Device): nat {
    if d.Gear? then d.shortAddress else d.shortAddress + INPUT_KEY
  }

  /** A found device gets an entry unless its long address has one already; its key always leads to the address. */
  function Entered(devices: DeviceMap, index: Index, bus: Answers, k: nat): (DeviceMap, Index)
    requires k < SHORTS || INPUT_KEY <= k
  {
    var found := FoundAt(bus, k);
    if found.None? then (devices, index)
    else (if found.value in devices then devices else devices[found.value := NewDevice(k, found.value)],
          index[k := found.value])
  }

  function Discovered(bus: Answers, n: nat): (DeviceMap, Index)
    requires n <= SHORTS
  {
    if n == 0 then (map[], map[])
    else
      var (d0, i0) := Discovered(bus, n - 1);
      var (d1, i1) := Entered(d0, i0, bus, n - 1);
      Entered(d1, i1, bus, n - 1 + INPUT_KEY)
  }

  predicate Scanned(k: nat, n: nat) {
    k < n || INPUT_KEY <= k < INPUT_KEY + n
  }

  function ScannedKeys(n: nat): set<nat>
    requires n <= SHORTS
  {
    set k | 0 <= k < INPUT_KEY + SHORTS && Scanned(k, n)
  }

  /** A device that was made for its key, which is among `keys` and answered `a`. */
  ghost predicate StandsUnder(bus: Answers, keys: set<nat>, a: Long, d: Device) {
    var k := KeyOf(d);
    k in keys && FoundAt(bus, k) == Some(a) && (k < SHORTS || INPUT_KEY <= k) && d == NewDevice(k, a)
  }

  /** The index has exactly the keys that answered; each address found has one entry, made for one of its keys. */
  ghost predicate Maps(bus: Answers, keys: set<nat>, devices: DeviceMap, index: Index) {
    && (forall k :: k in index <==> k in keys && FoundAt(bus, k).Some?)
    && (forall k | k in index :: FoundAt(bus, k) == Some(index[k]) && index[k] in devices)
    && (forall a | a in devices :: StandsUnder(bus, keys, a, devices[a]))
  }

  lemma EnteredMaps(bus: Answers, keys: set<nat>, devices: DeviceMap, index: Index, k: nat)
    requires Maps(bus, keys, devices, index) && k !in keys && (k < SHORTS || INPUT_KEY <= k)
    ensures var (d, i) := Entered(devices, index, bus, k); Maps(bus, keys + {k}, d, i)
  {
    hide FoundAt, StandsUnder;
    var (d, i) := Entered(devices, index, bus, k);
    forall a | a in d ensures StandsUnder(bus, keys + {k}, a, d[a]) {
      if a in devices {
        StillStands(bus, keys, k, a, d[a]);
      } else {
        NewStands(bus, keys + {k}, k, a);
      }
    }
  }

  lemma StillStands(bus: Answers, keys: set<nat>, k: nat, a: Long, d: Device)
    requires StandsUnder(bus, keys, a, d)
    ensures StandsUnder(bus, keys + {k}, a, d)
  {
  }

  lemma NewStands(bus: Answers, keys: set<nat>, k: nat, a: Long)
    requires k in keys && FoundAt(bus, k) == Some(a) && (k < SHORTS || INPUT_KEY <= k)
    ensures StandsUnder(bus, keys, a, NewDevice(k, a))
  {
  }

  lemma {:induction false} DiscoveredMaps(bus: Answers, n: nat)
    requires n <= SHORTS
    ensures Maps(bus, ScannedKeys(n), Discovered(bus, n).0, Discovered(bus, n).1)
    decreases n
  {
    hide Maps, FoundAt, Entered;
    if n == 0 {
      NothingMapped(bus);
    } else {
      var m := n - 1;
      DiscoveredMaps(bus, m);
      var (d0, i0) := Discovered(bus, m);
      var (d1, i1) := Entered(d0, i0, bus, m);
      EnteredMaps(bus, ScannedKeys(m), d0, i0, m);
      EnteredMaps(bus, ScannedKeys(m) + {m}, d1, i1, m + INPUT_KEY);
      assert ScannedKeys(n) == ScannedKeys(m) + {m} + {m + INPUT_KEY};
    }
  }

  lemma NothingMapped(bus: Answers)
    ensures Maps(bus, ScannedKeys(0), map[], map[])
  {
  }

  /** Every key leads to the device that stands under it, and every device stands under a key that leads to it. */
  ghost predicate MutuallyInverse(devices: DeviceMap, index: Index) {
    forall k: nat, a :: k in index && index[k] == a <==> a in devices && KeyOf(devices[a]) == k
  }

  /** A gear as it is before anything is known about it, at short address `short`. */
  predicate IsNewGear(d: Device, long: Long, short: nat) {
    d == Gear(long, short, "", true, 0, 254, 0, 1, 254, 254, 254, None, None, false, true)
  }

  /**
   * Every device in the map is one that answered at its short address with its long address, or with a pseudo address if
   * it is an input device whose long address could not be read. It is available, and nothing else is known about it.
   */
  lemma FoundDevices(bus: Answers, a: Long)
    requires a in Discovered(bus, SHORTS).0
    ensures var d := Discovered(bus, SHORTS).0[a];
            && d.shortAddress < 64
            && if d.Gear? then
                 IsNewGear(d, a, d.shortAddress) && bus[d.shortAddress].gear && bus[d.shortAddress].gearLong == Some(a)
               else
                 && d == Input(a, d.shortAddress, "", true) && bus[d.shortAddress].input
                 && a == if bus[d.shortAddress].inputLong.Some? then bus[d.shortAddress].inputLong.value
                         else 0xFE0000 + d.shortAddress
  {
    hide Discovered;
    DiscoveredMaps(bus, SHORTS);
    assert StandsUnder(bus, ScannedKeys(SHORTS), a, Discovered(bus, SHORTS).0[a]);
  }

  /** The scan comes to key `j` before it comes to `k`: short addresses in order, gear before the input device. */
  predicate Earlier(j: nat, k: nat) {
    j % 128 < k % 128 || (j % 128 == k % 128 && j < k)
  }

  /** No key of `keys` that answered with the long address of a device comes before the key of the device. */
  ghost predicate FirstHolds(bus: Answers, keys: set<nat>, devices: DeviceMap) {
    forall a, j | a in devices && j in keys && FoundAt(bus, j) == Some(a) :: !Earlier(j, KeyOf(devices[a]))
  }

  lemma EnteredFirst(bus: Answers, keys: set<nat>, devices: DeviceMap, index: Index, k: nat)
    requires Maps(bus, keys, devices, index) && k !in keys && (k < SHORTS || INPUT_KEY <= k < INPUT_KEY + SHORTS)
    requires (forall j | j in keys :: Earlier(j, k)) && FirstHolds(bus, keys, devices)
    ensures FirstHolds(bus, keys + {k}, Entered(devices, index, bus, k).0)
  {
    hide FoundAt;
    var d := Entered(devices, index, bus, k).0;
    forall a, j | a in d && j in keys + {k} && FoundAt(bus, j) == Some(a) ensures !Earlier(j, KeyOf(d[a])) {
      if a in devices {
        assert d[a] == devices[a] && StandsUnder(bus, keys, a, devices[a]);
      } else {
        assert d[a] == NewDevice(k, a);
      }
    }
  }

  lemma ScannedBefore(n: nat)
    requires n < SHORTS
    ensures forall j | j in ScannedKeys(n) :: Earlier(j, n)
    ensures forall j | j in ScannedKeys(n) + {n} :: Earlier(j, n + INPUT_KEY)
    ensures n !in ScannedKeys(n) && n + INPUT_KEY !in ScannedKeys(n) + {n}
    ensures ScannedKeys(n + 1) == ScannedKeys(n) + {n} + {n + INPUT_KEY}
  {
  }

  /** If a long address is found more than once, the device is the one that was found first. */
  lemma {:induction false} FirstFoundStays(bus: Answers, n: nat)
    requires n <= SHORTS
    ensures FirstHolds(bus, ScannedKeys(n), Discovered(bus, n).0)
    decreases n
  {
    hide Maps, FoundAt, Entered, FirstHolds, Earlier, ScannedKeys;
    if n == 0 {
      NothingFirst(bus);
    } else {
      var m := n - 1;
      FirstFoundStays(bus, m);
      DiscoveredMaps(bus, m);
      ScannedBefore(m);
      var (d0, i0) := Discovered(bus, m);
      var (d1, i1) := Entered(d0, i0, bus, m);
      EnteredFirst(bus, ScannedKeys(m), d0, i0, m);
      EnteredMaps(bus, ScannedKeys(m), d0, i0, m);
      EnteredFirst(bus, ScannedKeys(m) + {m}, d1, i1, m + INPUT_KEY);
    }
  }

  lemma NothingFirst(bus: Answers)
    ensures FirstHolds(bus, ScannedKeys(0), map[])
  {
  }

  /** And every one that answered leads to a device in the map. */
  lemma AnswersAreMapped(bus: Answers, short: nat)
    requires short < 64
    ensures var (devices, index) := Discovered(bus, SHORTS);
            && (short in index <==> bus[short].gear && bus[short].gearLong.Some?)
            && (short in index ==> Some(index[short]) == bus[short].gearLong && index[short] in devices)
            && (short + 128 in index <==> bus[short].input)
            && (short + 128 in index ==>
                  && index[short + 128] in devices
                  && index[short + 128] == if bus[short].inputLong.Some? then bus[short].inputLong.value
                                           else 0xFE0000 + short)
  {
    hide Discovered;
    DiscoveredMaps(bus, SHORTS);
  }

  /** No long address is found twice, pseudo addresses included. */
  ghost predicate FoundOnce(bus: Answers) {
    forall j, k | Scanned(j, SHORTS) && Scanned(k, SHORTS) && FoundAt(bus, j).Some? && FoundAt(bus, j) == FoundAt(bus, k) ::
      j == k
  }

  /** The maps are mutually inverse exactly if no long address is found twice. */
  lemma InverseIffFoundOnce(bus: Answers)
    ensures var (devices, index) := Discovered(bus, SHORTS);
            MutuallyInverse(devices, index) <==> FoundOnce(bus)
  {
    hide Discovered, FoundAt, NewDevice;
    var (devices, index) := Discovered(bus, SHORTS);
    DiscoveredMaps(bus, SHORTS);
    if MutuallyInverse(devices, index) {
      forall j, k | Scanned(j, SHORTS) && Scanned(k, SHORTS) && FoundAt(bus, j).Some? && FoundAt(bus, j) == FoundAt(bus, k)
        ensures j == k
      {
        assert j in index && k in index && index[j] == index[k];
      }
    }
  }
}
