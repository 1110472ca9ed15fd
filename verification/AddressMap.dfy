/** The device map as fixed-size records in non-volatile storage. */
module AddressMap {
  import opened Addressing
  import opened Ordered
  import opened Devices
  import opened Discovery
  import opened DeviceController

  const GTIN_STORAGE_SIZE: nat := 16
  const NO_TYPE: nat := 0xFF

  datatype Record = Record(longAddress: Long, shortAddress: nat, deviceType: nat, gtin: string, isInput: bool,
                           supportsRgb: bool, supportsTc: bool, minLevel: nat, maxLevel: nat, powerOnLevel: nat,
                           systemFailureLevel: nat)

  /** What is stored under the key of the map; `Corrupt` stands for a size that is no whole number of records. */
  datatype Blob = Missing | Corrupt | Records(records: seq<Record>)

  // ------------------------------------------------------------------ text in a fixed-size field

  /** The characters before the first NUL. */
  function UpToNul(s: string): (r: string)
    ensures r <= s && '\0' !in r && (r == s || s[|r|] == '\0')
  {
    if s == "" || s[0] == '\0' then "" else [s[0]] + UpToNul(s[1..])
  }

  /** At most 15 characters, padded with NULs. */
  function Packed(gtin: string): (r: string)
    ensures |r| == GTIN_STORAGE_SIZE
  {
    var t := UpToNul(gtin);
    var cut := if |t| > GTIN_STORAGE_SIZE - 1 then t[..GTIN_STORAGE_SIZE - 1] else t;
    cut + seq(GTIN_STORAGE_SIZE - |cut|, _ => '\0')
  }

  lemma {:induction false} UpToNulIs(t: string, s: string)
    requires t <= s && '\0' !in t && (t == s || s[|t|] == '\0')
    ensures UpToNul(s) == t
    decreases |s|
  {
    if s != "" && s[0] != '\0' {
      assert s[0] == t[0];
      assert forall i | 0 <= i < |t| - 1 :: s[1..][i] == s[i + 1] && t[1..][i] == t[i + 1];
      UpToNulIs(t[1..], s[1..]);
    }
  }

  /** A text comes back from its field exactly if it has at most 15 characters and no NUL. */
  lemma GtinRoundTrip(gtin: string)
    ensures UpToNul(Packed(gtin)) == gtin <==> |gtin| <= 15 && '\0' !in gtin
  {
    hide UpToNul;
    var t := UpToNul(gtin);
    var cut := if |t| > 15 then t[..15] else t;
    UpToNulIs(cut, Packed(gtin));
    if |gtin| <= 15 && '\0' !in gtin {
      UpToNulIs(gtin, gtin);
    }
  }

  // ------------------------------------------------------------------ one record

  function ToRecord(d: Device): Record {
    match d
    case Input(long, short, gtin, _) => Record(long, short, NO_TYPE, Packed(gtin), true, false, false, 0, 0, 0, 0)
    case Gear(long, short, gtin, _, _, _, _, minLevel, maxLevel, powerOn, failure, deviceType, color, _, _) =>
      Record(long, short, OrElse(deviceType, NO_TYPE), Packed(gtin), false,
             color.Some? && color.value.supportsRgb, color.Some? && color.value.supportsTc,
             minLevel, maxLevel, powerOn, failure)
  }

  function FromRecord(r: Record): Device {
    var gtin := UpToNul(r.gtin);
    if r.isInput then Input(r.longAddress, r.shortAddress, gtin, false)
    else
      var deviceType := if r.deviceType != NO_TYPE then Some(r.deviceType) else None;
      Gear(r.longAddress, r.shortAddress, gtin, false, 0, 254, 0, r.minLevel, r.maxLevel, r.powerOnLevel,
           r.systemFailureLevel, deviceType,
           if r.supportsRgb || r.supportsTc
           then Some(DEFAULT_COLOR.(supportsRgb := r.supportsRgb, supportsTc := r.supportsTc)) else None,
           deviceType.Some? || gtin != "", true)
  }

  /** What is meant to survive a restart: everything but the state that polling finds out. */
  datatype Kept = Kept(input: bool, longAddress: Long, shortAddress: nat, gtin: string, deviceType: Option<nat>,
                       rgb: bool, tc: bool, levels: seq<nat>)

  function KeptOf(d: Device): Kept {
    if d.Input? then Kept(true, d.longAddress, d.shortAddress, d.gtin, None, false, false, [])
    else Kept(false, d.longAddress, d.shortAddress, d.gtin, d.deviceType,
              d.color.Some? && d.color.value.supportsRgb, d.color.Some? && d.color.value.supportsTc,
              [d.minLevel, d.maxLevel, d.powerOnLevel, d.systemFailureLevel])
  }

  predicate Storable(d: Device) {
    |d.gtin| <= 15 && '\0' !in d.gtin && (d.Gear? ==> d.deviceType != Some(NO_TYPE))
  }

  /** A device comes back with all that is meant to survive exactly if its GTIN fits and its type is not 0xFF. */
  lemma RecordRoundTrip(d: Device)
    ensures KeptOf(FromRecord(ToRecord(d))) == KeptOf(d) <==> Storable(d)
  {
    hide UpToNul, Packed;
    GtinRoundTrip(d.gtin);
  }

  /**
   * What a storable gear comes back as: its state is that of a gear nothing is known about, and its static data count as
   * loaded if any of them are known. Of the colour only the features come back.
   */
  lemma GearComesBack(d: Device)
    requires d.Gear? && Storable(d)
    ensures var c := if d.color.Some? then d.color.value else DEFAULT_COLOR;
            FromRecord(ToRecord(d)) ==
            d.(available := false, currentLevel := 0, lastLevel := 254, statusByte := 0, initialSyncNeeded := true,
               staticDataLoaded := d.deviceType.Some? || d.gtin != "",
               color := if c.supportsRgb || c.supportsTc
                        then Some(Color(TcMode, None, None, c.supportsRgb, c.supportsTc)) else None)
  {
    hide UpToNul, Packed;
    GtinRoundTrip(d.gtin);
  }

  /** An input device comes back whole, but not available; its record says nothing about levels. */
  lemma InputComesBack(d: Device)
    requires d.Input? && Storable(d)
    ensures FromRecord(ToRecord(d)) == d.(available := false)
    ensures var r := ToRecord(d);
            r.deviceType == 255 && r.minLevel == r.maxLevel == r.powerOnLevel == r.systemFailureLevel == 0
  {
    hide UpToNul, Packed;
    GtinRoundTrip(d.gtin);
  }

  // ------------------------------------------------------------------ the whole map

  function SavedRecords(m: DeviceMap, order: seq<Long>, n: nat): seq<Record>
    requires n <= |order| && forall a | a in order :: a in m
  {
    if n == 0 then [] else SavedRecords(m, order, n - 1) + [ToRecord(m[order[n - 1]])]
  }

  function Saved(m: DeviceMap): seq<Record> {
    var order := Ascending(m.Keys);
    SavedRecords(m, order, |order|)
  }

  /** Devices and index after the first `n` records: the first record of an address wins, the last of a short one. */
  function LoadedUpTo(records: seq<Record>, n: nat): (DeviceMap, Index)
    requires n <= |records|
  {
    if n == 0 then (map[], map[])
    else
      var (devices, index) := LoadedUpTo(records, n - 1);
      var r := records[n - 1];
      (if r.longAddress in devices then devices else devices[r.longAddress := FromRecord(r)],
       index[r.shortAddress := r.longAddress])
  }

  function Loaded(records: seq<Record>): (DeviceMap, Index) {
    LoadedUpTo(records, |records|)
  }

  method Save(devices: DeviceMap) returns (mappings: seq<Record>)
    ensures mappings == Saved(devices)
  {
    hide Ascending, Packed;
    mappings := [];
    var order := Ascending(devices.Keys);
    for n := 0 to |order|
      invariant mappings == SavedRecords(devices, order, n)
    {
      var d := devices[order[n]];
      var record := Record(d.longAddress, d.shortAddress, 0, Packed(d.gtin), false, false, false, 0, 0, 0, 0);
      if d.Input? {
        record := record.(isInput := true, deviceType := 0xFF);
      } else {
        record := record.(isInput := false, deviceType := if d.deviceType.Some? then d.deviceType.value else 0xFF);
        if d.color.Some? {
          record := record.(supportsRgb := d.color.value.supportsRgb, supportsTc := d.color.value.supportsTc);
        }
        record := record.(minLevel := d.minLevel, maxLevel := d.maxLevel, powerOnLevel := d.powerOnLevel,
                          systemFailureLevel := d.systemFailureLevel);
      }
      mappings := mappings + [record];
    }
  }

  /** Replaces the maps by the stored ones; without at least one whole record they stay as they are. */
  method Load(controller: Controller, blob: Blob) returns (ok: bool)
    modifies controller`devices, controller`index
    ensures ok <==> blob.Records? && blob.records != []
    ensures (controller.devices, controller.index) ==
            if ok then Loaded(blob.records) else old((controller.devices, controller.index))
  {
    hide UpToNul;
    if !blob.Records? || |blob.records| == 0 {
      return false;
    }
    controller.devices, controller.index := map[], map[];
    for n := 0 to |blob.records|
      invariant (controller.devices, controller.index) == LoadedUpTo(blob.records, n)
    {
      var record := blob.records[n];
      var device := RestoreDevice(record);
      if record.longAddress !in controller.devices {
        controller.devices := controller.devices[record.longAddress := device];
      }
      controller.index := controller.index[record.shortAddress := record.longAddress];
    }
    return true;
  }

  method RestoreDevice(record: Record) returns (device: Device)
    ensures device == FromRecord(record)
  {
    hide UpToNul;
    if record.isInput {
      device := Input(record.longAddress, record.shortAddress, UpToNul(record.gtin), false);
    } else {
      device := NewGear(record.longAddress, record.shortAddress).(gtin := UpToNul(record.gtin));
      if record.deviceType != 0xFF {
        device := device.(deviceType := Some(record.deviceType));
      }
      if record.supportsRgb || record.supportsTc {
        var cf := DEFAULT_COLOR.(supportsRgb := record.supportsRgb, supportsTc := record.supportsTc);
        device := device.(color := Some(cf));
      }
      device := device.(minLevel := record.minLevel, maxLevel := record.maxLevel, powerOnLevel := record.powerOnLevel,
                        systemFailureLevel := record.systemFailureLevel);
      if device.deviceType.Some? || device.gtin != "" {
        device := device.(staticDataLoaded := true);
      }
      device := device.(available := false);
    }
  }

  // ------------------------------------------------------------------ any records

  /** The first of the first `n` records with this long address. */
  ghost predicate IsFirst(records: seq<Record>, n: nat, a: Long, i: nat) {
    i < n <= |records| && records[i].longAddress == a && forall j | 0 <= j < i :: records[j].longAddress != a
  }

  /** The last of the first `n` records with this short address. */
  ghost predicate IsLast(records: seq<Record>, n: nat, s: nat, i: nat) {
    i < n <= |records| && records[i].shortAddress == s && forall j | i < j < n :: records[j].shortAddress != s
  }

  /** Where a loaded device comes from. */
  ghost predicate FromFirst(records: seq<Record>, n: nat, devices: DeviceMap, a: Long)
    requires a in devices
  {
    exists i: nat :: IsFirst(records, n, a, i) && devices[a] == FromRecord(records[i])
  }

  /** Where a loaded short address leads. */
  ghost predicate ToLast(records: seq<Record>, n: nat, index: Index, s: nat)
    requires s in index
  {
    exists i: nat :: IsLast(records, n, s, i) && index[s] == records[i].longAddress
  }

  lemma NotAvailable(r: Record)
    ensures !FromRecord(r).available
  {
    hide UpToNul;
  }

  lemma OneMoreLoaded(records: seq<Record>, n: nat)
    requires 0 < n <= |records|
    ensures var (before, indexBefore), r := LoadedUpTo(records, n - 1), records[n - 1];
            var (devices, index) := LoadedUpTo(records, n);
            && devices == (if r.longAddress in before then before else before[r.longAddress := FromRecord(r)])
            && index == indexBefore[r.shortAddress := r.longAddress]
  {
    hide FromRecord;
  }

  lemma OneMoreFirst(records: seq<Record>, n: nat, before: DeviceMap, devices: DeviceMap, a: Long)
    requires 0 < n <= |records| && a in devices
    requires var r := records[n - 1];
             devices == if r.longAddress in before then before else before[r.longAddress := FromRecord(r)]
    requires a in before ==> FromFirst(records, n - 1, before, a)
    requires forall i | 0 <= i < n - 1 :: records[i].longAddress in before
    ensures FromFirst(records, n, devices, a)
  {
    hide FromRecord;
    if a in before {
      var i: nat :| IsFirst(records, n - 1, a, i) && before[a] == FromRecord(records[i]);
      assert IsFirst(records, n, a, i);
    } else {
      assert IsFirst(records, n, a, n - 1);
    }
  }

  lemma OneMoreLast(records: seq<Record>, n: nat, before: Index, index: Index, s: nat)
    requires 0 < n <= |records| && s in index
    requires var r := records[n - 1]; index == before[r.shortAddress := r.longAddress]
    requires s in before ==> ToLast(records, n - 1, before, s)
    ensures ToLast(records, n, index, s)
  {
    if s == records[n - 1].shortAddress {
      assert IsLast(records, n, s, n - 1);
    } else {
      var i: nat :| IsLast(records, n - 1, s, i) && before[s] == records[i].longAddress;
      assert IsLast(records, n, s, i);
    }
  }

  /** What is loaded from the first `n` records. */
  ghost predicate LoadedFrom(records: seq<Record>, n: nat, devices: DeviceMap, index: Index)
    requires n <= |records|
  {
    && (forall i | 0 <= i < n :: records[i].longAddress in devices && records[i].shortAddress in index)
    && (forall a | a in devices :: FromFirst(records, n, devices, a) && !devices[a].available)
    && (forall s | s in index :: ToLast(records, n, index, s))
  }

  lemma OneMoreFrom(records: seq<Record>, n: nat, before: DeviceMap, indexBefore: Index, devices: DeviceMap, index: Index)
    requires 0 < n <= |records| && LoadedFrom(records, n - 1, before, indexBefore)
    requires var r := records[n - 1];
             && devices == (if r.longAddress in before then before else before[r.longAddress := FromRecord(r)])
             && index == indexBefore[r.shortAddress := r.longAddress]
    ensures LoadedFrom(records, n, devices, index)
  {
    hide FromRecord, FromFirst, ToLast;
    NotAvailable(records[n - 1]);
    forall a | a in devices ensures FromFirst(records, n, devices, a) && !devices[a].available {
      OneMoreFirst(records, n, before, devices, a);
    }
    forall s | s in index ensures ToLast(records, n, index, s) {
      OneMoreLast(records, n, indexBefore, index, s);
    }
  }

  lemma NothingLoaded(records: seq<Record>)
    ensures LoadedUpTo(records, 0) == (map[], map[]) && LoadedFrom(records, 0, map[], map[])
  {
  }

  /**
   * Whatever the records are: a device is loaded for each long address, from its first record and not available; and
   * each short address leads to the long address of its last record.
   */
  lemma {:induction false} LoadedAre(records: seq<Record>, n: nat)
    requires n <= |records|
    ensures LoadedFrom(records, n, LoadedUpTo(records, n).0, LoadedUpTo(records, n).1)
    decreases n
  {
    hide LoadedFrom, LoadedUpTo, FromRecord;
    if n == 0 {
      NothingLoaded(records);
    } else {
      LoadedAre(records, n - 1);
      OneMoreLoaded(records, n);
      var (before, indexBefore) := LoadedUpTo(records, n - 1);
      var (devices, index) := LoadedUpTo(records, n);
      OneMoreFrom(records, n, before, indexBefore, devices, index);
    }
  }

  // ------------------------------------------------------------------ saving and loading

  /** Every entry is for the device whose long address it stands under. */
  ghost predicate Consistent(m: DeviceMap) {
    forall a | a in m :: m[a].longAddress == a
  }

  lemma {:induction false} SavedAt(m: DeviceMap, order: seq<Long>, n: nat)
    requires n <= |order| && forall a | a in order :: a in m
    ensures var s := SavedRecords(m, order, n);
            |s| == n && forall i | 0 <= i < n :: s[i] == ToRecord(m[order[i]])
    decreases n
  {
    hide ToRecord;
    if n > 0 { SavedAt(m, order, n - 1); }
  }

  /** The entry of `m` under `a` has the long address `long` and the short address `short`. */
  predicate Names(m: DeviceMap, a: Long, long: Long, short: nat) {
    a in m && m[a].longAddress == long && m[a].shortAddress == short
  }

  ghost predicate RecordsOf(records: seq<Record>, m: DeviceMap, order: seq<Long>) {
    && (forall a | a in order :: a in m) && (forall i, j | 0 <= i < j < |order| :: order[i] < order[j])
    && |records| == |order| && forall i | 0 <= i < |order| :: records[i] == ToRecord(m[order[i]])
  }

  lemma RecordAt(records: seq<Record>, m: DeviceMap, order: seq<Long>, n: nat)
    requires RecordsOf(records, m, order) && n < |order|
    ensures order[n] in m && records[n] == ToRecord(m[order[n]])
    ensures Names(m, order[n], records[n].longAddress, records[n].shortAddress)
    ensures order[n] !in order[..n] && order[..n + 1] == order[..n] + [order[n]]
  {
    hide Packed;
  }

  lemma {:induction false} LoadedDevices(m: DeviceMap, order: seq<Long>, n: nat, records: seq<Record>)
    requires Consistent(m) && n <= |order| == |records| && RecordsOf(records, m, order)
    ensures var devices := LoadedUpTo(records, n).0;
            && (forall a :: a in devices <==> a in order[..n])
            && (forall a | a in devices :: a in m && devices[a] == FromRecord(ToRecord(m[a])))
    decreases n
  {
    hide FromRecord, ToRecord, RecordsOf;
    if n > 0 {
      LoadedDevices(m, order, n - 1, records);
      RecordAt(records, m, order, n - 1);
    }
  }

  /** Every short address of the index leads to the long address of an entry of `m` that has both. */
  ghost predicate LeadsTo(index: Index, m: DeviceMap) {
    forall s | s in index :: exists a :: Names(m, a, index[s], s)
  }

  lemma {:induction false} LoadedIndex(m: DeviceMap, order: seq<Long>, n: nat, records: seq<Record>)
    requires n <= |order| == |records| && RecordsOf(records, m, order)
    ensures var index := LoadedUpTo(records, n).1;
            && (forall a | a in order[..n] :: a in m && m[a].shortAddress in index)
            && LeadsTo(index, m)
    decreases n
  {
    hide FromRecord, ToRecord, RecordsOf;
    if n > 0 {
      LoadedIndex(m, order, n - 1, records);
      RecordAt(records, m, order, n - 1);
    }
  }

  lemma SavedIs(m: DeviceMap)
    ensures var order := Ascending(m.Keys); |Saved(m)| == |order| && RecordsOf(Saved(m), m, order)
  {
    hide Ascending, ToRecord;
    var order := Ascending(m.Keys);
    SavedAt(m, order, |order|);
  }

  /** The index that is loaded has the short addresses of all entries, each with the long address of one of them. */
  lemma IndexIsRecordwise(m: DeviceMap)
    ensures var index := Loaded(Saved(m)).1;
            (forall a | a in m :: m[a].shortAddress in index) && LeadsTo(index, m)
  {
    hide Ascending, FromRecord, ToRecord, LoadedUpTo, Saved, RecordsOf, LeadsTo;
    var order := Ascending(m.Keys);
    SavedIs(m);
    assert order[..|order|] == order;
    LoadedIndex(m, order, |order|, Saved(m));
  }

  /** Where every entry stands under its own long address, each one is loaded as its record says. */
  lemma LoadIsRecordwise(m: DeviceMap)
    requires Consistent(m)
    ensures var devices := Loaded(Saved(m)).0;
            devices.Keys == m.Keys && (forall a | a in m :: devices[a] == FromRecord(ToRecord(m[a])))
  {
    hide Ascending, FromRecord, ToRecord, LoadedUpTo, Saved, RecordsOf, Consistent;
    var order := Ascending(m.Keys);
    SavedIs(m);
    assert order[..|order|] == order;
    LoadedDevices(m, order, |order|, Saved(m));
    assert forall a :: a in Loaded(Saved(m)).0 <==> a in m;
  }

  /** Whatever the records are, loaded entries stand under their own long addresses. */
  lemma {:induction false} LoadedConsistent(records: seq<Record>, n: nat)
    requires n <= |records|
    ensures Consistent(LoadedUpTo(records, n).0)
    decreases n
  {
    hide UpToNul;
    if n > 0 {
      LoadedConsistent(records, n - 1);
    }
  }

  /**
   * All that is meant to survive a restart does, for every device, exactly if every entry stands under its own long
   * address and every device is storable. With such entries none is lost or added, storable or not.
   */
  lemma MapRoundTrip(m: DeviceMap)
    ensures var devices := Loaded(Saved(m)).0;
            && (devices.Keys == m.Keys && (forall a | a in m :: KeptOf(devices[a]) == KeptOf(m[a])) <==>
                Consistent(m) && forall a | a in m :: Storable(m[a]))
            && (Consistent(m) ==> devices.Keys == m.Keys &&
                                  forall a | a in m :: KeptOf(devices[a]) == KeptOf(m[a]) <==> Storable(m[a]))
  {
    hide LoadedUpTo, Saved, FromRecord, ToRecord, Storable;
    var devices := Loaded(Saved(m)).0;
    LoadedConsistent(Saved(m), |Saved(m)|);
    if devices.Keys == m.Keys && forall a | a in m :: KeptOf(devices[a]) == KeptOf(m[a]) {
      forall a | a in m ensures m[a].longAddress == a {
        assert KeptOf(devices[a]).longAddress == KeptOf(m[a]).longAddress;
      }
    }
    if Consistent(m) {
      LoadIsRecordwise(m);
      forall a | a in m ensures KeptOf(devices[a]) == KeptOf(m[a]) <==> Storable(m[a]) {
        RecordRoundTrip(m[a]);
      }
    }
  }

  ghost predicate OnlyGear(m: DeviceMap) {
    forall a | a in m :: m[a].Gear?
  }

  ghost predicate DistinctShorts(m: DeviceMap) {
    forall a, b | a in m && b in m && m[a].shortAddress == m[b].shortAddress :: a == b
  }

  lemma KeysSurvive(d: Device)
    ensures var e := FromRecord(ToRecord(d)); KeyOf(e) == KeyOf(d) && (e.Gear? <==> d.Gear?)
  {
    hide Packed, UpToNul;
  }

  /** An index that has the short addresses of the entries is no inverse if one of them is an input device. */
  lemma {:induction false} InverseIsGear(m: DeviceMap, index: Index, a: Long, top: nat)
    requires MutuallyInverse(m, index) && LeadsTo(index, m) && a in m
    requires forall b | b in m :: m[b].shortAddress < top
    ensures m[a].Gear?
    decreases top - m[a].shortAddress
  {
    if m[a].Input? {
      var key := KeyOf(m[a]);
      var b: Long :| Names(m, b, index[key], key);
      assert b in m && m[b].shortAddress == key;
      InverseIsGear(m, index, b, top);
    }
  }

  lemma {:induction false} ShortsBounded(m: DeviceMap, keys: set<Long>) returns (top: nat)
    requires keys <= m.Keys
    ensures forall a | a in keys :: m[a].shortAddress < top
    decreases |keys|
  {
    if keys == {} {
      top := 0;
    } else {
      var a :| a in keys;
      var rest := ShortsBounded(m, keys - {a});
      top := if m[a].shortAddress < rest then rest else m[a].shortAddress + 1;
    }
  }

  lemma InverseNeeds(m: DeviceMap, index: Index)
    requires MutuallyInverse(m, index) && LeadsTo(index, m)
    ensures Consistent(m) && OnlyGear(m) && DistinctShorts(m)
  {
    var top := ShortsBounded(m, m.Keys);
    forall a | a in m ensures m[a].Gear? && KeyOf(m[a]) == m[a].shortAddress {
      InverseIsGear(m, index, a, top);
    }
    forall a, b | a in m && b in m && m[a].shortAddress == m[b].shortAddress ensures a == b {
      assert index[KeyOf(m[a])] == a && index[KeyOf(m[b])] == b;
    }
    forall a | a in m ensures m[a].longAddress == a {
      var b :| Names(m, b, index[KeyOf(m[a])], KeyOf(m[a]));
    }
  }

  lemma GearIsInverse(m: DeviceMap, index: Index)
    requires LeadsTo(index, m) && forall a | a in m :: m[a].shortAddress in index
    requires Consistent(m) && OnlyGear(m) && DistinctShorts(m)
    ensures MutuallyInverse(m, index)
  {
    forall s: nat | s in index ensures index[s] in m && m[index[s]].shortAddress == s {
      var a: Long :| Names(m, a, index[s], s);
    }
  }

  lemma SameInverse(m: DeviceMap, devices: DeviceMap, index: Index)
    requires devices.Keys == m.Keys && forall a | a in m :: KeyOf(devices[a]) == KeyOf(m[a])
    ensures MutuallyInverse(devices, index) <==> MutuallyInverse(m, index)
  {
    hide KeyOf;
  }

  /**
   * The index that is loaded is the inverse of the devices that were saved exactly if these stand under their own long
   * addresses and are gear with distinct short addresses; and then it is the inverse of the devices that are loaded.
   */
  lemma LoadedIndexIsInverse(m: DeviceMap)
    ensures var (devices, index) := Loaded(Saved(m));
            && (MutuallyInverse(m, index) <==> Consistent(m) && OnlyGear(m) && DistinctShorts(m))
            && (Consistent(m) ==> (MutuallyInverse(devices, index) <==> MutuallyInverse(m, index)))
  {
    hide Loaded, Saved, FromRecord, ToRecord, MutuallyInverse, LeadsTo, Consistent, OnlyGear, DistinctShorts, KeyOf;
    var (devices, index) := Loaded(Saved(m));
    IndexIsRecordwise(m);
    if MutuallyInverse(m, index) {
      InverseNeeds(m, index);
    }
    if Consistent(m) {
      LoadIsRecordwise(m);
      forall a | a in m ensures KeyOf(devices[a]) == KeyOf(m[a]) {
        KeysSurvive(m[a]);
      }
      SameInverse(m, devices, index);
      if OnlyGear(m) && DistinctShorts(m) {
        GearIsInverse(m, index);
      }
    }
  }

  lemma {:induction false} LoadedNeedSync(records: seq<Record>, n: nat)
    requires n <= |records|
    ensures forall a | a in LoadedUpTo(records, n).0 && LoadedUpTo(records, n).0[a].Gear? ::
              LoadedUpTo(records, n).0[a].initialSyncNeeded
    decreases n
  {
    hide UpToNul;
    if n > 0 {
      LoadedNeedSync(records, n - 1);
    }
  }

  /** Nothing loaded counts as published yet, whatever the records are. */
  lemma LoadedAgrees(records: seq<Record>, log: seq<Message>)
    ensures Agrees(Loaded(records).0, log)
  {
    hide LoadedUpTo;
    LoadedNeedSync(records, |records|);
  }
}
