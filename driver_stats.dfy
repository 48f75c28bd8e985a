/** The driver statistics of archive_win_driver.py: the regrouping of the
    per-directory scans into device -> version -> entries, the counters printed
    for it, and the rule that selects one driver per device (the latest
    release date wins) with devices excluded by name prefix. Dates are the
    values `strptime` produced, kept abstract as ordered integers. */
module DriverStats {
  import opened Results
  import opened PyText
  import opened OrderedDicts

  /** One driver found by analyse_batch: release date, version, the hash
      suffix of its directory name, and the directory. */
  datatype BatchItem = BatchItem(date: int, version: string, hash: string, path: string)

  /** analyse_batch's result: device name prefix to the drivers found for it. */
  type Batch = ODict<string, seq<BatchItem>>

  /** One driver of a device and version in the combined statistics. */
  datatype Entry = Entry(date: int, hash: string, path: string)

  /** device -> version -> entries. */
  type Stat = ODict<string, ODict<string, seq<Entry>>>

  function ToEntry(it: BatchItem): Entry
  {
    Entry(it.date, it.hash, it.path)
  }

  // ---------------------------------------------------------------------------
  // analyse_multibatch
  // ---------------------------------------------------------------------------

  /** The entries recorded for device `d` and version `v`, empty when absent. */
  function Lookup(stat: Stat, d: string, v: string): seq<Entry>
  {
    if HasKey(stat, d) && HasKey(Get(stat, d), v) then Get(Get(stat, d), v) else []
  }

  /** The versions recorded for device `d`, in dictionary order, none when the
      device is absent. */
  function VersionKeys(stat: Stat, d: string): seq<string>
  {
    if HasKey(stat, d) then Keys(Get(stat, d)) else []
  }

  /** The items of `info` with version `v`, as entries, in order. */
  function WithVersion(info: seq<BatchItem>, v: string): seq<Entry>
  {
    if info == [] then []
    else WithVersion(info[..|info| - 1], v)
         + (if info[|info| - 1].version == v then [ToEntry(info[|info| - 1])] else [])
  }

  /** The items of the first `n` devices of a batch that belong to device `d`
      and version `v`, in order. */
  function BatchItems(batch: Batch, n: nat, d: string, v: string): seq<Entry>
    requires n <= |batch|
  {
    if n == 0 then []
    else BatchItems(batch, n - 1, d, v)
         + (if batch[n - 1].0 == d then WithVersion(batch[n - 1].1, v) else [])
  }

  /** All items of the first `n` batches for device `d` and version `v`, in the
      order the loops meet them. */
  function AllItems(batches: seq<Batch>, n: nat, d: string, v: string): seq<Entry>
    requires n <= |batches|
  {
    if n == 0 then [] else AllItems(batches, n - 1, d, v) + BatchItems(batches[n - 1], |batches[n - 1]|, d, v)
  }

  /** Some batch among the first `n` mentions device `d`. */
  predicate Mentioned(batches: seq<Batch>, n: nat, d: string)
    requires n <= |batches|
  {
    exists i :: 0 <= i < n && HasKey(batches[i], d)
  }

  /** The device names of the first `n` batches in the order the loop meets
      them, repeats included. */
  function DeviceNames(batches: seq<Batch>, n: nat): seq<string>
    requires n <= |batches|
  {
    if n == 0 then [] else DeviceNames(batches, n - 1) + Keys(batches[n - 1])
  }

  /** The items of device `d` among the first `n` devices of a batch, in order. */
  function DeviceItems(batch: Batch, n: nat, d: string): seq<BatchItem>
    requires n <= |batch|
  {
    if n == 0 then [] else DeviceItems(batch, n - 1, d) + (if batch[n - 1].0 == d then batch[n - 1].1 else [])
  }

  /** The items of device `d` in the first `n` batches, in loop order. */
  function ItemsOf(batches: seq<Batch>, n: nat, d: string): seq<BatchItem>
    requires n <= |batches|
  {
    if n == 0 then [] else ItemsOf(batches, n - 1, d) + DeviceItems(batches[n - 1], |batches[n - 1]|, d)
  }

  /** The versions of `items`, in order, repeats included. */
  function VersionsOf(items: seq<BatchItem>): (vs: seq<string>)
    ensures |vs| == |items| && forall i :: 0 <= i < |items| ==> vs[i] == items[i].version
  {
    seq(|items|, i requires 0 <= i < |items| => items[i].version)
  }

  /** The keys `ks` of a dictionary after `d[k] = ...`: unchanged when `k` is
      present, `k` last when it is new. */
  function InsertKey(ks: seq<string>, k: string): seq<string>
  {
    if k in ks then ks else ks + [k]
  }

  /** The keys `ks` after assigning each key of `s` in turn. */
  function InsertKeys(ks: seq<string>, s: seq<string>): seq<string>
  {
    if s == [] then ks else InsertKey(InsertKeys(ks, s[..|s| - 1]), s[|s| - 1])
  }

  /** The distinct elements of `s` in the order of their first occurrence: the
      keys of a dictionary filled with the keys of `s` in turn. */
  function FirstOccurrences(s: seq<string>): seq<string>
  {
    InsertKeys([], s)
  }

  /** Assigning the keys of `s + t` is assigning those of `s`, then of `t`. */
  lemma {:induction false} InsertKeysAppend(ks: seq<string>, s: seq<string>, t: seq<string>)
    ensures InsertKeys(ks, s + t) == InsertKeys(InsertKeys(ks, s), t)
  {
    if t == [] {
      assert s + t == s;
    } else {
      InsertKeysAppend(ks, s, t[..|t| - 1]);
      assert (s + t)[..|s + t| - 1] == s + t[..|t| - 1];
    }
  }

  /** Assigning keys keeps the old ones, adds exactly those of `s` and never
      makes a key occur twice. */
  lemma {:induction false} InsertKeysMembers(ks: seq<string>, s: seq<string>)
    requires forall i, j :: 0 <= i < j < |ks| ==> ks[i] != ks[j]
    ensures var r := InsertKeys(ks, s);
      && (forall x :: x in r <==> x in ks || x in s)
      && (forall i, j :: 0 <= i < j < |r| ==> r[i] != r[j])
  {
    if s != [] {
      InsertKeysMembers(ks, s[..|s| - 1]);
      assert s == s[..|s| - 1] + [s[|s| - 1]];
    }
  }

  /** `FirstOccurrences(s)` holds every element of `s` once. */
  lemma FirstOccurrencesMeaning(s: seq<string>)
    ensures forall x :: x in FirstOccurrences(s) <==> x in s
    ensures forall i, j :: 0 <= i < j < |FirstOccurrences(s)| ==> FirstOccurrences(s)[i] != FirstOccurrences(s)[j]
  {
    InsertKeysMembers([], s);
  }

  lemma VersionsOfAppend(a: seq<BatchItem>, b: seq<BatchItem>)
    ensures VersionsOf(a + b) == VersionsOf(a) + VersionsOf(b)
  {
  }

  /** Keys are distinct at both levels. */
  predicate StatShape(stat: Stat)
  {
    DistinctKeys(stat) && forall i :: 0 <= i < |stat| ==> DistinctKeys(stat[i].1)
  }

  /** Every version a device records holds at least one entry. */
  ghost predicate NoEmptyVersion(stat: Stat)
  {
    forall d, v :: v in VersionKeys(stat, d) ==> Lookup(stat, d, v) != []
  }

  /** `driver_stat[device] = driver_stat.get(device, {})`. */
  function Touch(stat: Stat, device: string): Stat
  {
    Put(stat, device, GetOr(stat, device, []))
  }

  /** `driver_stat[device][version] = ...get(version, [])` followed by the append. */
  function AddItem(stat: Stat, device: string, it: BatchItem): Stat
    requires HasKey(stat, device)
  {
    var versions := Get(stat, device);
    Put(stat, device, Put(versions, it.version, GetOr(versions, it.version, []) + [ToEntry(it)]))
  }

  lemma GetInShape(stat: Stat, d: string)
    requires StatShape(stat) && HasKey(stat, d)
    ensures DistinctKeys(Get(stat, d))
  {
    var j := Find(stat, d);
    assert stat[j].1 == Get(stat, d);
  }

  lemma PutInShape(stat: Stat, d: string, vs: ODict<string, seq<Entry>>)
    requires StatShape(stat) && DistinctKeys(vs)
    ensures StatShape(Put(stat, d, vs))
  {
    PutGet(stat, d, vs);
  }

  /** Touching a device creates it if needed and changes no entries. */
  lemma TouchLookup(stat: Stat, device: string)
    requires StatShape(stat)
    ensures StatShape(Touch(stat, device)) && HasKey(Touch(stat, device), device)
    ensures forall d :: HasKey(Touch(stat, device), d) <==> HasKey(stat, d) || d == device
    ensures forall d, v :: Lookup(Touch(stat, device), d, v) == Lookup(stat, d, v)
  {
    var g := GetOr(stat, device, []);
    if HasKey(stat, device) {
      GetInShape(stat, device);
    }
    PutInShape(stat, device, g);
    PutGet(stat, device, g);
  }

  /** Touching a device puts it last when it is new and changes no device's
      versions. */
  lemma TouchKeys(stat: Stat, device: string)
    requires StatShape(stat)
    ensures Keys(Touch(stat, device)) == InsertKey(Keys(stat), device)
    ensures forall d :: VersionKeys(Touch(stat, device), d) == VersionKeys(stat, d)
  {
    var g := GetOr(stat, device, []);
    PutGet(stat, device, g);
    HasKeyIsInKeys(stat, device);
  }

  /** Adding an item appends its entry under its device and version, adds the
      version last if it is new, and changes nothing else. */
  lemma AddItemLookup(stat: Stat, device: string, it: BatchItem)
    requires StatShape(stat) && HasKey(stat, device)
    ensures StatShape(AddItem(stat, device, it))
    ensures Keys(AddItem(stat, device, it)) == Keys(stat)
    ensures forall d :: HasKey(AddItem(stat, device, it), d) <==> HasKey(stat, d)
    ensures forall d, v :: (Lookup(AddItem(stat, device, it), d, v) ==
      Lookup(stat, d, v) + (if d == device && v == it.version then [ToEntry(it)] else []))
    ensures forall d :: (VersionKeys(AddItem(stat, device, it), d) ==
      if d == device then InsertKey(VersionKeys(stat, d), it.version) else VersionKeys(stat, d))
  {
    var versions := Get(stat, device);
    GetInShape(stat, device);
    var es := GetOr(versions, it.version, []) + [ToEntry(it)];
    PutGet(versions, it.version, es);
    HasKeyIsInKeys(versions, it.version);
    var versions' := Put(versions, it.version, es);
    PutInShape(stat, device, versions');
    PutGet(stat, device, versions');
    HasKeyIsInKeys(stat, device);
  }

  lemma AddItemNoEmptyVersion(stat: Stat, device: string, it: BatchItem)
    requires StatShape(stat) && HasKey(stat, device) && NoEmptyVersion(stat)
    ensures NoEmptyVersion(AddItem(stat, device, it))
  {
    AddItemLookup(stat, device, it);
  }

  /** `stat'` is `stat` with `device` present and the items of `info`
      appended under it, nothing else changed. */
  ghost predicate DeviceAdded(stat': Stat, stat: Stat, device: string, info: seq<BatchItem>)
  {
    && StatShape(stat') && HasKey(stat', device)
    && (forall d :: HasKey(stat', d) <==> (HasKey(stat, d) || d == device))
    && (forall d, v :: Lookup(stat', d, v) == Lookup(stat, d, v) + (if d == device then WithVersion(info, v) else []))
  }

  /** The keys of `stat'` are those of `stat` after touching `device` and
      assigning the versions of `info` under it. */
  ghost predicate DeviceKeysAdded(stat': Stat, stat: Stat, device: string, info: seq<BatchItem>)
  {
    && Keys(stat') == InsertKey(Keys(stat), device)
    && forall d :: VersionKeys(stat', d) ==
         if d == device then InsertKeys(VersionKeys(stat, d), VersionsOf(info)) else VersionKeys(stat, d)
  }

  lemma DeviceAddedStart(stat: Stat, device: string)
    requires StatShape(stat)
    ensures DeviceAdded(Touch(stat, device), stat, device, [])
  {
    TouchLookup(stat, device);
    forall d, v ensures Lookup(stat, d, v) + (if d == device then WithVersion([], v) else []) == Lookup(stat, d, v) {
      assert Lookup(stat, d, v) + [] == Lookup(stat, d, v);
    }
  }

  lemma DeviceKeysAddedStart(stat: Stat, device: string)
    requires StatShape(stat)
    ensures DeviceKeysAdded(Touch(stat, device), stat, device, [])
  {
    TouchKeys(stat, device);
    assert VersionsOf([]) == [];
  }

  lemma DeviceAddedStep(stat: Stat, stat': Stat, device: string, info: seq<BatchItem>, k: nat)
    requires StatShape(stat) && k < |info| && DeviceAdded(stat', stat, device, info[..k])
    ensures DeviceAdded(AddItem(stat', device, info[k]), stat, device, info[..k + 1])
  {
    AddItemLookup(stat', device, info[k]);
    assert info[..k + 1][..k] == info[..k];
    var stat'' := AddItem(stat', device, info[k]);
    forall d, v ensures Lookup(stat'', d, v) == Lookup(stat, d, v) + (if d == device then WithVersion(info[..k + 1], v) else []) {
      assert WithVersion(info[..k + 1], v) ==
        WithVersion(info[..k], v) + (if info[k].version == v then [ToEntry(info[k])] else []);
    }
  }

  lemma DeviceKeysAddedStep(stat: Stat, stat': Stat, device: string, info: seq<BatchItem>, k: nat)
    requires StatShape(stat') && HasKey(stat', device) && k < |info|
    requires DeviceKeysAdded(stat', stat, device, info[..k])
    ensures DeviceKeysAdded(AddItem(stat', device, info[k]), stat, device, info[..k + 1])
  {
    AddItemLookup(stat', device, info[k]);
    var vs := VersionsOf(info[..k + 1]);
    assert vs[..|vs| - 1] == VersionsOf(info[..k]);
  }

  /** The body of analyse_multibatch for one device of a batch: the device is
      created when absent, then each item is appended under its version. */
  method AddDevice(stat: Stat, device: string, info: seq<BatchItem>) returns (stat': Stat)
    requires StatShape(stat) && NoEmptyVersion(stat)
    ensures StatShape(stat') && HasKey(stat', device) && NoEmptyVersion(stat')
    ensures forall d :: HasKey(stat', d) <==> (HasKey(stat, d) || d == device)
    ensures forall d, v :: Lookup(stat', d, v) == Lookup(stat, d, v) + (if d == device then WithVersion(info, v) else [])
    ensures Keys(stat') == InsertKey(Keys(stat), device)
    ensures forall d :: (VersionKeys(stat', d) ==
      if d == device then InsertKeys(VersionKeys(stat, d), VersionsOf(info)) else VersionKeys(stat, d))
  {
    DeviceAddedStart(stat, device);
    DeviceKeysAddedStart(stat, device);
    stat' := Touch(stat, device);
    for k := 0 to |info|
      invariant DeviceAdded(stat', stat, device, info[..k])
      invariant DeviceKeysAdded(stat', stat, device, info[..k])
      invariant NoEmptyVersion(stat')
    {
      DeviceAddedStep(stat, stat', device, info, k);
      DeviceKeysAddedStep(stat, stat', device, info, k);
      AddItemNoEmptyVersion(stat', device, info[k]);
      stat' := AddItem(stat', device, info[k]);
    }
    assert info[..|info|] == info;
  }

  /** `stat'` is `stat` with the first `j` devices of `batch` added. */
  ghost predicate BatchAdded(stat': Stat, stat: Stat, batch: Batch, j: nat)
    requires j <= |batch|
  {
    && StatShape(stat')
    && (forall d :: HasKey(stat', d) <==> (HasKey(stat, d) || exists i :: 0 <= i < j && batch[i].0 == d))
    && (forall d, v :: Lookup(stat', d, v) == Lookup(stat, d, v) + BatchItems(batch, j, d, v))
  }

  /** The keys of `stat'` are those of `stat` after the first `j` devices of
      `batch`. */
  ghost predicate BatchKeysAdded(stat': Stat, stat: Stat, batch: Batch, j: nat)
    requires j <= |batch|
  {
    && Keys(stat') == InsertKeys(Keys(stat), Keys(batch[..j]))
    && forall d :: VersionKeys(stat', d) == InsertKeys(VersionKeys(stat, d), VersionsOf(DeviceItems(batch, j, d)))
  }

  lemma BatchAddedStep(stat: Stat, stat': Stat, stat'': Stat, batch: Batch, j: nat)
    requires j < |batch| && BatchAdded(stat', stat, batch, j)
    requires DeviceAdded(stat'', stat', batch[j].0, batch[j].1)
    ensures BatchAdded(stat'', stat, batch, j + 1)
  {
    BatchAddedHasKey(stat, stat', stat'', batch, j);
    var device, info := batch[j].0, batch[j].1;
    forall d, v ensures Lookup(stat'', d, v) == Lookup(stat, d, v) + BatchItems(batch, j + 1, d, v) {
      var added := if d == device then WithVersion(info, v) else [];
      assert Lookup(stat, d, v) + BatchItems(batch, j, d, v) + added
        == Lookup(stat, d, v) + (BatchItems(batch, j, d, v) + added);
    }
  }

  lemma BatchAddedHasKey(stat: Stat, stat': Stat, stat'': Stat, batch: Batch, j: nat)
    requires j < |batch|
    requires forall d :: HasKey(stat', d) <==> (HasKey(stat, d) || exists i :: 0 <= i < j && batch[i].0 == d)
    requires forall d :: HasKey(stat'', d) <==> (HasKey(stat', d) || d == batch[j].0)
    ensures forall d :: HasKey(stat'', d) <==> (HasKey(stat, d) || exists i :: 0 <= i < j + 1 && batch[i].0 == d)
  {
    forall d ensures HasKey(stat'', d) <==> (HasKey(stat, d) || exists i :: 0 <= i < j + 1 && batch[i].0 == d) {
      if d == batch[j].0 {
        assert 0 <= j < j + 1 && batch[j].0 == d;
      } else if exists i :: 0 <= i < j + 1 && batch[i].0 == d {
        var i :| 0 <= i < j + 1 && batch[i].0 == d;
        assert 0 <= i < j && batch[i].0 == d;
      }
    }
  }

  lemma BatchKeysAddedStep(stat: Stat, stat': Stat, stat'': Stat, batch: Batch, j: nat)
    requires j < |batch| && BatchKeysAdded(stat', stat, batch, j)
    requires DeviceKeysAdded(stat'', stat', batch[j].0, batch[j].1)
    ensures BatchKeysAdded(stat'', stat, batch, j + 1)
  {
    var device, info := batch[j].0, batch[j].1;
    var ks := Keys(batch[..j + 1]);
    assert ks[..|ks| - 1] == Keys(batch[..j]);
    forall d ensures VersionKeys(stat'', d) == InsertKeys(VersionKeys(stat, d), VersionsOf(DeviceItems(batch, j + 1, d))) {
      if d == device {
        VersionsOfAppend(DeviceItems(batch, j, d), info);
        InsertKeysAppend(VersionKeys(stat, d), VersionsOf(DeviceItems(batch, j, d)), VersionsOf(info));
      } else {
        assert DeviceItems(batch, j + 1, d) == DeviceItems(batch, j, d) + [];
        assert DeviceItems(batch, j, d) + [] == DeviceItems(batch, j, d);
      }
    }
  }

  /** The body of analyse_multibatch for one batch. */
  method AddBatch(stat: Stat, batch: Batch) returns (stat': Stat)
    requires StatShape(stat) && NoEmptyVersion(stat)
    ensures StatShape(stat') && NoEmptyVersion(stat')
    ensures forall d :: HasKey(stat', d) <==> (HasKey(stat, d) || HasKey(batch, d))
    ensures forall d, v :: Lookup(stat', d, v) == Lookup(stat, d, v) + BatchItems(batch, |batch|, d, v)
    ensures Keys(stat') == InsertKeys(Keys(stat), Keys(batch))
    ensures forall d :: VersionKeys(stat', d) == InsertKeys(VersionKeys(stat, d), VersionsOf(DeviceItems(batch, |batch|, d)))
  {
    stat' := stat;
    for j := 0 to |batch|
      invariant BatchAdded(stat', stat, batch, j)
      invariant BatchKeysAdded(stat', stat, batch, j)
      invariant NoEmptyVersion(stat')
    {
      var next := AddDevice(stat', batch[j].0, batch[j].1);
      BatchAddedStep(stat, stat', next, batch, j);
      BatchKeysAddedStep(stat, stat', next, batch, j);
      stat' := next;
    }
    assert batch[..|batch|] == batch;
  }

  /** The keys after one more batch, in terms of all batches so far. */
  lemma MultibatchKeysStep(batches: seq<Batch>, b: nat, stat: Stat, stat': Stat)
    requires b < |batches|
    requires Keys(stat) == FirstOccurrences(DeviceNames(batches, b))
    requires forall d :: VersionKeys(stat, d) == FirstOccurrences(VersionsOf(ItemsOf(batches, b, d)))
    requires Keys(stat') == InsertKeys(Keys(stat), Keys(batches[b]))
    requires forall d :: (VersionKeys(stat', d) ==
      InsertKeys(VersionKeys(stat, d), VersionsOf(DeviceItems(batches[b], |batches[b]|, d))))
    ensures Keys(stat') == FirstOccurrences(DeviceNames(batches, b + 1))
    ensures forall d :: VersionKeys(stat', d) == FirstOccurrences(VersionsOf(ItemsOf(batches, b + 1, d)))
  {
    InsertKeysAppend([], DeviceNames(batches, b), Keys(batches[b]));
    forall d ensures VersionKeys(stat', d) == FirstOccurrences(VersionsOf(ItemsOf(batches, b + 1, d))) {
      var items := DeviceItems(batches[b], |batches[b]|, d);
      VersionsOfAppend(ItemsOf(batches, b, d), items);
      InsertKeysAppend([], VersionsOf(ItemsOf(batches, b, d)), VersionsOf(items));
    }
  }

  /** The dictionary-level facts read position by position: the versions of
      the device at position `i` are its recorded versions, and none of them
      holds an empty list. */
  lemma PositionalKeys(stat: Stat)
    requires StatShape(stat) && NoEmptyVersion(stat)
    ensures forall i :: 0 <= i < |stat| ==> Keys(stat[i].1) == VersionKeys(stat, stat[i].0)
    ensures forall i, j :: 0 <= i < |stat| && 0 <= j < |stat[i].1| ==> stat[i].1[j].1 != []
  {
    forall i | 0 <= i < |stat| ensures Get(stat, stat[i].0) == stat[i].1 {
      assert Find(stat, stat[i].0) == i;
    }
    forall i, j | 0 <= i < |stat| && 0 <= j < |stat[i].1| ensures stat[i].1[j].1 != [] {
      var d, v := stat[i].0, stat[i].1[j].0;
      assert Find(stat, d) == i;
      assert Find(stat[i].1, v) == j;
      assert v in VersionKeys(stat, d);
    }
  }

  /** analyse_multibatch: for every batch, every device of it (created even when
      it has no items), every item of the device, append the item's date, hash
      and path under its device and version. Every item is kept, grouped by
      device and version in the order met. The devices are exactly those some
      batch mentions, in the order they are first met; a device's versions are
      exactly those of its items, in the order first met, and each holds at
      least one entry. */
  method AnalyseMultibatch(batches: seq<Batch>) returns (stat: Stat)
    ensures StatShape(stat)
    ensures forall d, v :: Lookup(stat, d, v) == AllItems(batches, |batches|, d, v)
    ensures forall d :: HasKey(stat, d) <==> Mentioned(batches, |batches|, d)
    ensures Keys(stat) == FirstOccurrences(DeviceNames(batches, |batches|))
    ensures forall i :: 0 <= i < |stat| ==>
      Keys(stat[i].1) == FirstOccurrences(VersionsOf(ItemsOf(batches, |batches|, stat[i].0)))
    ensures forall i, j :: 0 <= i < |stat| && 0 <= j < |stat[i].1| ==> stat[i].1[j].1 != []
  {
    stat := [];
    for b := 0 to |batches|
      invariant StatShape(stat) && NoEmptyVersion(stat)
      invariant forall d, v :: Lookup(stat, d, v) == AllItems(batches, b, d, v)
      invariant forall d :: HasKey(stat, d) <==> Mentioned(batches, b, d)
      invariant Keys(stat) == FirstOccurrences(DeviceNames(batches, b))
      invariant forall d :: VersionKeys(stat, d) == FirstOccurrences(VersionsOf(ItemsOf(batches, b, d)))
    {
      var next := AddBatch(stat, batches[b]);
      MultibatchKeysStep(batches, b, stat, next);
      stat := next;
    }
    PositionalKeys(stat);
  }

  // ---------------------------------------------------------------------------
  // print_driver_stat: the counters
  // ---------------------------------------------------------------------------

  /** How many versions a device has, as print_driver_stat tells them apart:
      several, exactly one, or none (extracted with some error). */
  datatype Arity = NoDriver | OneDriver | ManyDrivers

  function ArityOf(versions: ODict<string, seq<Entry>>): Arity
  {
    if |versions| > 1 then ManyDrivers else if |versions| == 1 then OneDriver else NoDriver
  }

  /** The number of devices of arity `a`. */
  function CountDevices(stat: Stat, a: Arity): nat
  {
    if stat == [] then 0
    else CountDevices(stat[..|stat| - 1], a) + (if ArityOf(stat[|stat| - 1].1) == a then 1 else 0)
  }

  /** print_driver_stat's counters. The three counts are those of the three
      arities, and every device is counted exactly once. The devices are
      visited in dictionary order rather than sorted: the counts do not depend
      on the order. */
  method DriverStatCounts(stat: Stat) returns (single: nat, multi: nat, none: nat)
    ensures single == CountDevices(stat, OneDriver)
    ensures multi == CountDevices(stat, ManyDrivers)
    ensures none == CountDevices(stat, NoDriver)
    ensures single + multi + none == |stat|
  {
    single, multi, none := 0, 0, 0;
    for i := 0 to |stat|
      invariant single == CountDevices(stat[..i], OneDriver)
      invariant multi == CountDevices(stat[..i], ManyDrivers)
      invariant none == CountDevices(stat[..i], NoDriver)
      invariant single + multi + none == i
    {
      assert stat[..i + 1][..i] == stat[..i];
      var driverCount := |stat[i].1|;
      if driverCount > 1 {
        multi := multi + 1;
      } else if driverCount == 1 {
        single := single + 1;
      } else {
        none := none + 1;
      }
    }
    assert stat[..|stat|] == stat;
  }

  // ---------------------------------------------------------------------------
  // execute: the selection rule
  // ---------------------------------------------------------------------------

  /** One visit of the selection loop: the index of the version group, its
      version string and the entry. */
  datatype Visit = Visit(group: nat, version: string, entry: Entry)

  function GroupVisits(g: nat, v: string, es: seq<Entry>): (r: seq<Visit>)
    ensures |r| == |es| && forall i :: 0 <= i < |es| ==> r[i] == Visit(g, v, es[i])
  {
    seq(|es|, i requires 0 <= i < |es| => Visit(g, v, es[i]))
  }

  /** The visits of the first `g` version groups, in loop order; each visit
      belongs to one of those groups and carries that group's version. */
  function Visits(versions: ODict<string, seq<Entry>>, g: nat): (vs: seq<Visit>)
    requires g <= |versions|
    ensures forall i :: 0 <= i < |vs| ==> vs[i].group < g && vs[i].version == versions[vs[i].group].0
  {
    if g == 0 then [] else Visits(versions, g - 1) + GroupVisits(g - 1, versions[g - 1].0, versions[g - 1].1)
  }

  /** Visit `k` carries the first strictly latest date: every earlier visit is
      strictly older, no later one is newer. */
  predicate FirstLatest(vs: seq<Visit>, k: int)
  {
    && 0 <= k < |vs|
    && (forall i :: 0 <= i < k ==> vs[i].entry.date < vs[k].entry.date)
    && (forall i :: k < i < |vs| ==> vs[i].entry.date <= vs[k].entry.date)
  }

  /** The visit the running maximum ends on. */
  function LatestIndex(vs: seq<Visit>): (k: nat)
    requires vs != []
    ensures k < |vs|
  {
    if |vs| == 1 then 0
    else
      var k := LatestIndex(vs[..|vs| - 1]);
      if vs[k].entry.date < vs[|vs| - 1].entry.date then |vs| - 1 else k
  }

  /** The running maximum ends on the first strictly latest visit, and no
      other visit is one. */
  lemma {:induction false} LatestIndexIsFirstLatest(vs: seq<Visit>)
    requires vs != []
    ensures FirstLatest(vs, LatestIndex(vs))
    ensures forall k :: FirstLatest(vs, k) ==> k == LatestIndex(vs)
  {
    if |vs| > 1 {
      var init := vs[..|vs| - 1];
      LatestIndexIsFirstLatest(init);
      assert forall i :: 0 <= i < |init| ==> init[i] == vs[i];
    }
    forall k | FirstLatest(vs, k) ensures k == LatestIndex(vs) {
      var m := LatestIndex(vs);
    }
  }

  function MaxStr(a: string, b: string): string
  {
    if StrLess(a, b) then b else a
  }

  /** The greatest version among groups `[lo, hi)`, `""` when there are none. */
  function MaxVersion(versions: ODict<string, seq<Entry>>, lo: nat, hi: nat): string
    requires hi <= |versions|
  {
    if hi <= lo then "" else MaxStr(MaxVersion(versions, lo, hi - 1), versions[hi - 1].0)
  }

  lemma NothingBelowEmpty(w: string)
    ensures !StrLess(w, "")
  {
  }

  /** A version is below the maximum of a range exactly when it is below some
      version of the range. */
  lemma {:induction false} BelowMaxVersion(versions: ODict<string, seq<Entry>>, lo: nat, hi: nat, w: string)
    requires hi <= |versions|
    ensures StrLess(w, MaxVersion(versions, lo, hi)) <==> exists i :: lo <= i < hi && StrLess(w, versions[i].0)
  {
    if hi <= lo {
      NothingBelowEmpty(w);
    } else {
      BelowMaxVersion(versions, lo, hi - 1, w);
      var m, v := MaxVersion(versions, lo, hi - 1), versions[hi - 1].0;
      StrLessTotal(m, v);
      if StrLess(w, m) && StrLess(m, v) {
        StrLessTransitive(w, m, v);
      }
      if StrLess(w, v) && StrLess(v, m) {
        StrLessTransitive(w, v, m);
      }
    }
  }

  /** One element of the candidate list: device, release date, version, hash,
      directory, and whether a greater version was seen since the previous
      choice (the "Note!" warning). */
  datatype Candidate = Candidate(device: string, date: int, version: string, hash: string, path: string, olderVersion: bool)

  /** The group the previous choice was made in, or 0 before any choice. */
  function PrevGroup(vs: seq<Visit>, k: nat): nat
    requires k < |vs|
  {
    if k == 0 then 0 else vs[LatestIndex(vs[..k])].group
  }

  /** The candidate for visit `k`. */
  function CandidateAt(device: string, versions: ODict<string, seq<Entry>>, vs: seq<Visit>, k: nat): Candidate
    requires k < |vs| && vs[k].group <= |versions|
  {
    var x := vs[k];
    Candidate(device, x.entry.date, x.version, x.entry.hash, x.entry.path,
              StrLess(x.version, MaxVersion(versions, PrevGroup(vs, k), x.group)))
  }

  /** The device's candidate: the first entry with the strictly latest date. */
  function Selection(device: string, versions: ODict<string, seq<Entry>>): Option<Candidate>
  {
    var vs := Visits(versions, |versions|);
    if vs == [] then None else Some(CandidateAt(device, versions, vs, LatestIndex(vs)))
  }

  /** The selection loop of execute for one device: over versions and their
      entries, an entry replaces the current choice when no choice exists yet
      or its date is strictly later; the choice is flagged when its version is
      below the greatest version seen since the group of the previous choice. */
  method SelectLatest(device: string, versions: ODict<string, seq<Entry>>) returns (selected: Option<Candidate>)
    ensures selected == Selection(device, versions)
  {
    var versionMax := "";
    var releaseLatest: Option<int> := None;
    selected := None;
    ghost var sel: nat := 0;
    for g := 0 to |versions|
      invariant AtGroupStart(device, versions, g, sel, releaseLatest, selected, versionMax)
    {
      sel, releaseLatest, selected, versionMax := ScanGroup(device, versions, g, sel, releaseLatest, selected, versionMax);
    }
    LoopEndsOnSelection(device, versions, sel, releaseLatest, selected, versionMax);
  }

  /** One version group of the selection loop: each entry of the group
      becomes the choice when there is none yet or its date is strictly later,
      and the greatest version is brought up to the group's version at the end. */
  method ScanGroup(device: string, versions: ODict<string, seq<Entry>>, g: nat, ghost sel: nat,
                   releaseLatest: Option<int>, selected: Option<Candidate>, versionMax: string)
    returns (ghost sel': nat, releaseLatest': Option<int>, selected': Option<Candidate>, versionMax': string)
    requires g < |versions|
    requires AtGroupStart(device, versions, g, sel, releaseLatest, selected, versionMax)
    ensures AtGroupStart(device, versions, g + 1, sel', releaseLatest', selected', versionMax')
  {
    var (version, items) := versions[g];
    sel', releaseLatest', selected', versionMax' := sel, releaseLatest, selected, versionMax;
    GroupStart(device, versions, g, sel, releaseLatest, selected, versionMax);
    for j := 0 to |items|
      invariant Tracking(device, versions, PartialVisits(versions, g, j), sel', g, releaseLatest', selected', versionMax')
    {
      ghost var vs := PartialVisits(versions, g, j);
      PartialVisitsStep(versions, g, j);
      var item := items[j];
      if releaseLatest'.None? || releaseLatest'.value < item.date {
        SelectStep(device, versions, vs, sel', g, Visit(g, version, item), releaseLatest', selected', versionMax');
        selected' := Some(Candidate(device, item.date, version, item.hash, item.path, StrLess(version, versionMax')));
        releaseLatest' := Some(item.date);
        versionMax' := version;
        sel' := |vs|;
      } else {
        KeepStep(device, versions, vs, sel', g, Visit(g, version, item), releaseLatest', selected', versionMax');
      }
    }
    PartialVisitsEnd(versions, g);
    GroupEnd(device, versions, g, sel', releaseLatest', selected', versionMax');
    if StrLess(versionMax', version) {
      versionMax' := version;
    }
  }

  /** The visits before entry `j` of group `g`. */
  ghost function PartialVisits(versions: ODict<string, seq<Entry>>, g: nat, j: nat): seq<Visit>
    requires g < |versions| && j <= |versions[g].1|
  {
    Visits(versions, g) + GroupVisits(g, versions[g].0, versions[g].1[..j])
  }

  lemma PartialVisitsStep(versions: ODict<string, seq<Entry>>, g: nat, j: nat)
    requires g < |versions| && j < |versions[g].1|
    ensures PartialVisits(versions, g, j + 1) == PartialVisits(versions, g, j) + [Visit(g, versions[g].0, versions[g].1[j])]
  {
  }

  lemma PartialVisitsEnd(versions: ODict<string, seq<Entry>>, g: nat)
    requires g < |versions|
    ensures PartialVisits(versions, g, |versions[g].1|) == Visits(versions, g + 1)
  {
    assert versions[g].1[..|versions[g].1|] == versions[g].1;
  }

  /** The selection: no candidate exactly when the device has no entry,
      otherwise the candidate of the first strictly latest entry, flagged
      exactly when some version group from the previous choice's group up to
      its own has a greater version. */
  lemma SelectionMeaning(device: string, versions: ODict<string, seq<Entry>>)
    ensures var selected := Selection(device, versions);
      && (selected.None? <==> Visits(versions, |versions|) == [])
      && (selected.Some? ==>
        var vs := Visits(versions, |versions|);
        var k := LatestIndex(vs);
        && FirstLatest(vs, k)
        && selected.value.device == device
        && selected.value.date == vs[k].entry.date && selected.value.version == vs[k].version
        && selected.value.hash == vs[k].entry.hash && selected.value.path == vs[k].entry.path
        && (selected.value.olderVersion <==>
              exists i :: PrevGroup(vs, k) <= i < vs[k].group && StrLess(vs[k].version, versions[i].0)))
  {
    var vs := Visits(versions, |versions|);
    if vs != [] {
      var k := LatestIndex(vs);
      LatestIndexIsFirstLatest(vs);
      BelowMaxVersion(versions, PrevGroup(vs, k), vs[k].group, vs[k].version);
    }
  }

  lemma LoopEndsOnSelection(device: string, versions: ODict<string, seq<Entry>>, sel: nat,
                            releaseLatest: Option<int>, selected: Option<Candidate>, versionMax: string)
    requires AtGroupStart(device, versions, |versions|, sel, releaseLatest, selected, versionMax)
    ensures selected == Selection(device, versions)
  {
  }

  /** The loop's account of its choice for the visits `vs` so far (groups
      before `bound`): `sel` is where the running maximum ends, the latest date
      is its date and the choice is its candidate. */
  predicate SelectInv(device: string, versions: ODict<string, seq<Entry>>, vs: seq<Visit>, sel: nat,
                      bound: nat, releaseLatest: Option<int>, selected: Option<Candidate>)
  {
    && vs != [] && bound <= |versions|
    && (forall i :: 0 <= i < |vs| ==> vs[i].group < bound && vs[i].version == versions[vs[i].group].0)
    && sel == LatestIndex(vs)
    && releaseLatest == Some(vs[sel].entry.date)
    && selected == Some(CandidateAt(device, versions, vs, sel))
  }

  /** The state of the selection loop before version group `g`. */
  predicate AtGroupStart(device: string, versions: ODict<string, seq<Entry>>, g: nat, sel: nat,
                         releaseLatest: Option<int>, selected: Option<Candidate>, versionMax: string)
    requires g <= |versions|
  {
    var vs := Visits(versions, g);
    && (releaseLatest.None? <==> vs == [])
    && (vs == [] ==> selected.None? && versionMax == MaxVersion(versions, 0, g))
    && (vs != [] ==> SelectInv(device, versions, vs, sel, g, releaseLatest, selected)
                     && versionMax == MaxVersion(versions, vs[sel].group, g))
  }

  /** The state of the selection loop inside version group `g`, after the
      visits `vs`: the greatest version is the chosen group's own when the
      choice was made in this group, and the greatest since that group
      otherwise. */
  predicate Tracking(device: string, versions: ODict<string, seq<Entry>>, vs: seq<Visit>, sel: nat, g: nat,
                     releaseLatest: Option<int>, selected: Option<Candidate>, versionMax: string)
  {
    && g < |versions|
    && (releaseLatest.None? <==> vs == [])
    && (vs == [] ==> selected.None? && versionMax == MaxVersion(versions, 0, g))
    && (vs != [] ==> SelectInv(device, versions, vs, sel, g + 1, releaseLatest, selected))
    && (vs != [] && sel < |vs| && vs[sel].group == g ==> versionMax == versions[g].0)
    && (vs != [] && sel < |vs| && vs[sel].group < g ==> versionMax == MaxVersion(versions, vs[sel].group, g))
  }

  lemma SelectStep(device: string, versions: ODict<string, seq<Entry>>, vs: seq<Visit>, sel: nat, g: nat, x: Visit,
                   releaseLatest: Option<int>, selected: Option<Candidate>, versionMax: string)
    requires Tracking(device, versions, vs, sel, g, releaseLatest, selected, versionMax)
    requires x.group == g && x.version == versions[g].0
    requires releaseLatest.None? || releaseLatest.value < x.entry.date
    ensures Tracking(device, versions, vs + [x], |vs|, g, Some(x.entry.date),
      Some(Candidate(device, x.entry.date, x.version, x.entry.hash, x.entry.path, StrLess(x.version, versionMax))), x.version)
  {
    var vs' := vs + [x];
    assert vs'[..|vs|] == vs;
    if vs != [] && vs[sel].group == g {
      StrLessIrreflexive(x.version);
      NothingBelowEmpty(x.version);
    }
  }

  lemma KeepStep(device: string, versions: ODict<string, seq<Entry>>, vs: seq<Visit>, sel: nat, g: nat, x: Visit,
                 releaseLatest: Option<int>, selected: Option<Candidate>, versionMax: string)
    requires Tracking(device, versions, vs, sel, g, releaseLatest, selected, versionMax)
    requires x.group == g && x.version == versions[g].0
    requires !(releaseLatest.None? || releaseLatest.value < x.entry.date)
    ensures Tracking(device, versions, vs + [x], sel, g, releaseLatest, selected, versionMax)
  {
    var vs' := vs + [x];
    assert vs'[..|vs|] == vs;
    if sel > 0 {
      assert vs'[..sel] == vs[..sel];
    }
  }

  lemma GroupStart(device: string, versions: ODict<string, seq<Entry>>, g: nat, sel: nat,
                   releaseLatest: Option<int>, selected: Option<Candidate>, versionMax: string)
    requires g < |versions|
    requires AtGroupStart(device, versions, g, sel, releaseLatest, selected, versionMax)
    ensures Tracking(device, versions, PartialVisits(versions, g, 0), sel, g, releaseLatest, selected, versionMax)
  {
    assert PartialVisits(versions, g, 0) == Visits(versions, g);
  }

  lemma GroupEnd(device: string, versions: ODict<string, seq<Entry>>, g: nat, sel: nat,
                 releaseLatest: Option<int>, selected: Option<Candidate>, versionMax: string)
    requires g < |versions|
    requires Tracking(device, versions, Visits(versions, g + 1), sel, g, releaseLatest, selected, versionMax)
    ensures AtGroupStart(device, versions, g + 1, sel, releaseLatest, selected, MaxStr(versionMax, versions[g].0))
  {
    StrLessIrreflexive(versions[g].0);
    SingleGroupMax(versions, g);
  }

  /** The maximum of one group is its own version. */
  lemma SingleGroupMax(versions: ODict<string, seq<Entry>>, g: nat)
    requires g < |versions|
    ensures MaxVersion(versions, g, g + 1) == versions[g].0
  {
  }

  // ---------------------------------------------------------------------------
  // execute: the candidate list
  // ---------------------------------------------------------------------------

  /** The exclusion pattern `^(p1|p2|...)` of the escaped prefixes matches the
      device name exactly when the name starts with one of them. */
  predicate Excluded(device: string, prefixes: seq<string>)
  {
    exists i :: 0 <= i < |prefixes| && StartsWith(device, prefixes[i])
  }

  /** The devices among the first `n` that are not excluded, with their
      versions, in dictionary order. */
  function Kept(stat: Stat, prefixes: seq<string>, n: nat): seq<(string, ODict<string, seq<Entry>>)>
    requires n <= |stat|
  {
    if n == 0 then []
    else Kept(stat, prefixes, n - 1) + (if Excluded(stat[n - 1].0, prefixes) then [] else [stat[n - 1]])
  }

  /** The selection of each device of `es`, in order. */
  function SelectAll(es: seq<(string, ODict<string, seq<Entry>>)>): (r: seq<Option<Candidate>>)
    ensures |r| == |es| && forall i :: 0 <= i < |es| ==> r[i] == Selection(es[i].0, es[i].1)
  {
    seq(|es|, i requires 0 <= i < |es| => Selection(es[i].0, es[i].1))
  }

  /** The number of excluded devices among the first `n`. */
  function ExcludedCount(stat: Stat, prefixes: seq<string>, n: nat): nat
    requires n <= |stat|
  {
    if n == 0 then 0 else ExcludedCount(stat, prefixes, n - 1) + (if Excluded(stat[n - 1].0, prefixes) then 1 else 0)
  }

  /** Every device is either excluded or kept, and the kept ones are exactly
      the devices that are not excluded. */
  lemma {:induction false} KeptCount(stat: Stat, prefixes: seq<string>, n: nat)
    requires n <= |stat|
    ensures |Kept(stat, prefixes, n)| + ExcludedCount(stat, prefixes, n) == n
    ensures forall e :: e in Kept(stat, prefixes, n) <==>
      exists i :: 0 <= i < n && stat[i] == e && !Excluded(stat[i].0, prefixes)
  {
    if n > 0 {
      KeptCount(stat, prefixes, n - 1);
    }
  }

  /** The selection part of execute: devices matching an exclusion prefix are
      counted and skipped (no prefix excludes nothing), every other device
      contributes its selection, None included. */
  method SelectCandidates(stat: Stat, prefixes: seq<string>) returns (candidates: seq<Option<Candidate>>, excluded: nat)
    ensures candidates == SelectAll(Kept(stat, prefixes, |stat|))
    ensures excluded == ExcludedCount(stat, prefixes, |stat|)
    ensures |candidates| + excluded == |stat|
  {
    candidates, excluded := [], 0;
    for n := 0 to |stat|
      invariant candidates == SelectAll(Kept(stat, prefixes, n))
      invariant excluded == ExcludedCount(stat, prefixes, n)
    {
      var (device, versions) := stat[n];
      if prefixes != [] && Excluded(device, prefixes) {
        excluded := excluded + 1;
        continue;
      }
      var selected := SelectLatest(device, versions);
      assert SelectAll(Kept(stat, prefixes, n + 1)) == SelectAll(Kept(stat, prefixes, n)) + [selected];
      candidates := candidates + [selected];
    }
    KeptCount(stat, prefixes, |stat|);
  }
}
