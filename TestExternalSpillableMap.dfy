/**
 * The scenarios of the map's test suite, against the model. Each test becomes a
 * method that drives a fresh map the way the test does and returns what the
 * test inspects; its postconditions are the test's assertions.
 *
 * Records are reduced to what the scenarios look at: a key (record key and
 * partition path) and the record's named string fields. Record generation is a
 * parameter; the size estimator is an arbitrary positive estimate.
 */
module TestExternalSpillableMap {
  import opened Wrappers
  import opened Accounting
  import opened SpillableState
  import opened SpillableRuns
  import opened ExternalSpillableMaps

  datatype HoodieKey = HoodieKey(recordKey: string, partitionPath: string)
  datatype HoodieRecord = HoodieRecord(key: HoodieKey, fields: map<string, string>)

  /** Every scenario builds its map with a 16-byte budget. */
  const SIZE_THRESHOLD: nat := 16
  /** The number of records each generated batch holds. */
  const BATCH: nat := 100
  const COMMIT_TIME_METADATA_FIELD: string := "_hoodie_commit_time"

  type RecordMap = ExternalSpillableMap<string, HoodieRecord>

  /** The upserts that inserting `rs` performs: each record under its own record key. */
  function Entries(rs: seq<HoodieRecord>): seq<(string, HoodieRecord)> {
    seq(|rs|, i requires 0 <= i < |rs| => (rs[i].key.recordKey, rs[i]))
  }

  lemma EntriesAt(rs: seq<HoodieRecord>)
    ensures |Entries(rs)| == |rs|
    ensures forall i :: 0 <= i < |rs| ==> Entries(rs)[i] == (rs[i].key.recordKey, rs[i])
  {
  }

  /** A record with one field set to a new value, as the scenarios update records. */
  function WithField(r: HoodieRecord, field: string, value: string): HoodieRecord {
    r.(fields := r.fields[field := value])
  }

  /** Every record is stored under its own record key. */
  ghost predicate KeyedByRecordKey(m: map<string, HoodieRecord>) {
    forall k :: k in m ==> m[k].key.recordKey == k
  }

  lemma {:induction false} UpsertedKeyed(m: map<string, HoodieRecord>, rs: seq<HoodieRecord>)
    requires KeyedByRecordKey(m)
    ensures KeyedByRecordKey(Upserted(m, Entries(rs)))
    decreases |rs|
  {
    if rs != [] {
      var init := rs[..|rs| - 1];
      assert Entries(rs)[..|rs| - 1] == Entries(init);
      UpsertedKeyed(m, init);
    }
  }

  /** records.put(r.getRecordKey(), r), seen through the state it leaves. */
  method PutRecord(records: RecordMap, r: HoodieRecord)
    requires records.Valid()
    modifies records
    ensures records.Valid()
    ensures records.Snapshot() == Put(records.Settings(), old(records.Snapshot()), r.key.recordKey, r)
  {
    records.Put(r.key.recordKey, r);
  }

  /** SpillableMapTestUtils.upsertRecords: put every record under its record key, in order,
      and return the keys. */
  method UpsertRecords(iRecords: seq<HoodieRecord>, records: RecordMap) returns (recordKeys: seq<string>)
    requires records.Valid()
    modifies records
    ensures records.Valid()
    ensures records.Snapshot() == PutAll(records.Settings(), old(records.Snapshot()), Entries(iRecords))
    ensures records.Contents() == Upserted(old(records.Contents()), Entries(iRecords))
    ensures recordKeys == KeysOf(iRecords)
  {
    ghost var cfg, s0, es := records.Settings(), records.Snapshot(), Entries(iRecords);
    recordKeys := [];
    var i := 0;
    while i < |iRecords|
      invariant 0 <= i <= |iRecords|
      invariant records.Valid()
      invariant records.Snapshot() == PutAll(cfg, s0, es[..i])
      invariant recordKeys == KeysOf(iRecords[..i])
    {
      PutRecord(records, iRecords[i]);
      KeysOfStep(iRecords, i);
      recordKeys := recordKeys + [iRecords[i].key.recordKey];
      PutAllStep(cfg, s0, es, i);
      i := i + 1;
    }
    assert es[..i] == es;
    PutAllView(cfg, s0, es);
  }

  /** Upserting a batch of records with distinct keys into an empty map stores one entry per
      record, each under its own record key. */
  lemma FreshBatch(rs: seq<HoodieRecord>)
    requires DistinctKeys(Entries(rs))
    ensures Upserted(map[], Entries(rs)).Keys == RunKeys(Entries(rs))
    ensures |Upserted(map[], Entries(rs))| == |rs|
    ensures forall i :: 0 <= i < |rs| ==>
      rs[i].key.recordKey in Upserted(map[], Entries(rs)) &&
      Upserted(map[], Entries(rs))[rs[i].key.recordKey] == rs[i]
    ensures KeyedByRecordKey(Upserted(map[], Entries(rs)))
  {
    var es := Entries(rs);
    EntriesAt(rs);
    UpsertedDistinct(map[], es);
    DistinctKeyCount(es);
    UpsertedKeyed(map[], rs);
  }

  /** The record keys of `rs`, in order. */
  function KeysOf(rs: seq<HoodieRecord>): seq<string> {
    seq(|rs|, i requires 0 <= i < |rs| => rs[i].key.recordKey)
  }

  lemma KeysOfAt(rs: seq<HoodieRecord>)
    ensures |KeysOf(rs)| == |rs|
    ensures forall i :: 0 <= i < |rs| ==> KeysOf(rs)[i] == rs[i].key.recordKey
  {
  }

  lemma KeysOfStep(rs: seq<HoodieRecord>, i: nat)
    requires i < |rs|
    ensures KeysOf(rs[..i + 1]) == KeysOf(rs[..i]) + [rs[i].key.recordKey]
  {
  }

  /** A map built the way every scenario builds one, after upserting a batch of records with
      distinct keys: it holds one entry per record, under the record's key. */
  method NewFilledMap(iRecords: seq<HoodieRecord>, cost: HoodieRecord -> Size)
    returns (records: RecordMap, recordKeys: seq<string>)
    requires DistinctKeys(Entries(iRecords))
    ensures fresh(records) && records.Valid()
    ensures records.threshold == SIZE_THRESHOLD && records.cost == cost
    ensures records.Snapshot() == PutAll(records.Settings(), Empty(), Entries(iRecords))
    ensures records.Contents() == Upserted(map[], Entries(iRecords))
    ensures |records.Contents()| == |iRecords|
    ensures recordKeys == KeysOf(iRecords)
  {
    records := new ExternalSpillableMap<string, HoodieRecord>(SIZE_THRESHOLD, cost);
    recordKeys := UpsertRecords(iRecords, records);
    FreshBatch(iRecords);
  }

  /** simpleInsertTest: 100 records go in; the iterator yields 100 records, each under one of
      the inserted keys, and every inserted record among them. */
  method SimpleInsertTest(iRecords: seq<HoodieRecord>, cost: HoodieRecord -> Size)
    returns (recordKeys: seq<string>, oRecords: seq<HoodieRecord>)
    requires |iRecords| == BATCH && DistinctKeys(Entries(iRecords))
    ensures |recordKeys| == BATCH
    ensures |oRecords| == BATCH
    ensures forall rec :: rec in oRecords ==> rec.key.recordKey in recordKeys
    ensures forall rec :: rec in iRecords ==> rec in oRecords
  {
    var records;
    records, recordKeys := NewFilledMap(iRecords, cost);
    ghost var order;
    oRecords, order := records.Iterator();
    IterationCoversBatch(iRecords, records.Contents(), oRecords, order);
  }

  /** A listing of the map filled from a fresh batch `rs` (each value under its key, no key twice,
      every key present) holds one record per inserted record, each under an inserted key, and
      every inserted record. */
  lemma IterationCoversBatch(rs: seq<HoodieRecord>, m: map<string, HoodieRecord>,
                             values: seq<HoodieRecord>, order: seq<string>)
    requires DistinctKeys(Entries(rs)) && m == Upserted(map[], Entries(rs))
    requires |values| == |order| == |m|
    requires forall i :: 0 <= i < |order| ==> order[i] in m && values[i] == m[order[i]]
    requires forall k :: k in m ==> k in order
    ensures |values| == |rs|
    ensures forall rec :: rec in values ==> rec.key.recordKey in KeysOf(rs)
    ensures forall rec :: rec in rs ==> rec in values
  {
    FreshBatch(rs);
    var keys := KeysOf(rs);
    forall rec | rec in values
      ensures rec.key.recordKey in keys
    {
      var i :| 0 <= i < |values| && values[i] == rec;
      var j :| 0 <= j < |rs| && Entries(rs)[j].0 == order[i];
      assert keys[j] == order[i];
    }
    forall rec | rec in rs
      ensures rec in values
    {
      var j :| 0 <= j < |rs| && rs[j] == rec;
      assert Entries(rs)[j].0 in m;
      var i :| 0 <= i < |order| && order[i] == rec.key.recordKey;
      assert values[i] == rec;
    }
  }

  /** Upserting, into a map `m` that holds exactly the keys of `rs`, records `us` under the
      same keys in the same order leaves the same keys, each carrying its updated record. */
  lemma ReupsertBatch(m: map<string, HoodieRecord>, rs: seq<HoodieRecord>, us: seq<HoodieRecord>)
    requires DistinctKeys(Entries(rs)) && m.Keys == RunKeys(Entries(rs)) && |m| == |rs|
    requires |us| == |rs| && forall i :: 0 <= i < |rs| ==> us[i].key.recordKey == rs[i].key.recordKey
    ensures |Upserted(m, Entries(us))| == |rs|
    ensures forall i :: 0 <= i < |us| ==>
      us[i].key.recordKey in Upserted(m, Entries(us)) && Upserted(m, Entries(us))[us[i].key.recordKey] == us[i]
  {
    var es, fs := Entries(rs), Entries(us);
    UpsertedSameKeys(m, es, fs);
    forall i | 0 <= i < |us|
      ensures us[i].key.recordKey in Upserted(m, fs) && Upserted(m, fs)[us[i].key.recordKey] == us[i]
    {
      assert fs[i] == (us[i].key.recordKey, us[i]);
    }
  }

  /** records.get(k) for every key in turn; the map is left as it is. */
  method GetAll(records: RecordMap, keys: seq<string>) returns (fetched: seq<Option<HoodieRecord>>)
    requires records.Valid()
    ensures |fetched| == |keys|
    ensures forall i :: 0 <= i < |keys| ==>
      fetched[i] == if keys[i] in records.Contents() then Some(records.Contents()[keys[i]]) else None
  {
    fetched := [];
    for i := 0 to |keys|
      invariant |fetched| == i
      invariant forall j :: 0 <= j < i ==>
        fetched[j] == if keys[j] in records.Contents() then Some(records.Contents()[keys[j]]) else None
    {
      var rec := records.Get(keys[i]);
      fetched := fetched + [rec];
    }
  }

  /** testSimpleUpsert: 100 records go in, then an updated record for each of their keys. Some
      records are on disk, and get returns every updated record, whichever tier holds it. */
  method SimpleUpsertTest(iRecords: seq<HoodieRecord>, updatedRecords: seq<HoodieRecord>,
                          cost: HoodieRecord -> Size)
    returns (diskEntries: nat, fetched: seq<Option<HoodieRecord>>)
    requires |iRecords| == BATCH && DistinctKeys(Entries(iRecords))
    requires |updatedRecords| == BATCH
    requires forall i :: 0 <= i < BATCH ==> updatedRecords[i].key.recordKey == iRecords[i].key.recordKey
    ensures diskEntries > 0
    ensures |fetched| == BATCH
    ensures forall i :: 0 <= i < BATCH ==> fetched[i] == Some(updatedRecords[i])
  {
    var records, recordKeys := NewFilledMap(iRecords, cost);
    FreshBatch(iRecords);
    ReupsertBatch(records.Contents(), iRecords, updatedRecords);
    var _ := UpsertRecords(updatedRecords, records);
    SpillWhenOverBudget(records.Settings(), records.Snapshot());
    diskEntries := records.DiskEntryCount();
    var keys := KeysOf(updatedRecords);
    KeysOfAt(updatedRecords);
    fetched := GetAll(records, keys);
    forall i | 0 <= i < BATCH
      ensures fetched[i] == Some(updatedRecords[i])
    {
      assert keys[i] == updatedRecords[i].key.recordKey;
    }
  }

  /** Into an empty map with a 16-byte budget, the first record of a fresh batch stays in
      memory exactly when its own estimate fits. */
  lemma FirstOfBatchTier(c: Config<HoodieRecord>, rs: seq<HoodieRecord>)
    requires |rs| == BATCH && DistinctKeys(Entries(rs)) && c.threshold == SIZE_THRESHOLD
    ensures TierOf(PutAll(c, Empty(), Entries(rs)), rs[0].key.recordKey) ==
      if c.cost(rs[0]) <= SIZE_THRESHOLD then Resident else OnDisk
  {
    var es := Entries(rs);
    assert es[0] == (rs[0].key.recordKey, rs[0]);
    FirstEntryTier(c, es);
  }

  /** When every record of a fresh batch of 100 has the same estimate, the last one is on
      disk after the batch goes into an empty map with a 16-byte budget. */
  lemma LastOfUniformBatchTier(c: Config<HoodieRecord>, rs: seq<HoodieRecord>)
    requires |rs| == BATCH && DistinctKeys(Entries(rs)) && c.threshold == SIZE_THRESHOLD
    requires forall i :: 0 <= i < BATCH ==> c.cost(rs[i]) == c.cost(rs[0])
    ensures TierOf(PutAll(c, Empty(), Entries(rs)), rs[99].key.recordKey) == OnDisk
  {
    var es := Entries(rs);
    forall i | 0 <= i < |es|
      ensures c.cost(es[i].1) == c.cost(es[0].1)
    {
      assert es[i].1 == rs[i];
    }
    UniformTailSpills(c, es);
    assert es[99].0 == rs[99].key.recordKey;
  }

  /** The read-only half of testAllMapOperations, on a map holding exactly the batch `rs`:
      size, get of the first and the last record, containsKey, isEmpty and keySet().containsAll. */
  method QueryBatch(records: RecordMap, rs: seq<HoodieRecord>, recordKeys: seq<string>)
    returns (size: nat, inMemoryKey: Option<HoodieKey>, onDiskKey: Option<HoodieKey>,
             containsI: bool, containsD: bool, empty: bool, containsAll: bool)
    requires records.Valid() && |rs| == BATCH && |records.Contents()| == BATCH
    requires forall j :: 0 <= j < |rs| ==>
      rs[j].key.recordKey in records.Contents() && records.Contents()[rs[j].key.recordKey] == rs[j]
    requires recordKeys == KeysOf(rs)
    ensures size == 100
    ensures inMemoryKey == Some(rs[0].key) && onDiskKey == Some(rs[99].key)
    ensures containsI && containsD && !empty && containsAll
  {
    var ikey, dkey := rs[0].key.recordKey, rs[99].key.recordKey;
    size := records.Size();
    var inMemory := records.Get(ikey);
    inMemoryKey := if inMemory.Some? then Some(inMemory.value.key) else None;
    var onDisk := records.Get(dkey);
    onDiskKey := if onDisk.Some? then Some(onDisk.value.key) else None;
    containsI := records.ContainsKey(ikey);
    containsD := records.ContainsKey(dkey);
    empty := records.IsEmpty();
    var ks := records.KeySet();
    containsAll := forall j :: 0 <= j < |recordKeys| ==> recordKeys[j] in ks;
    assert containsAll by {
      forall j | 0 <= j < |recordKeys|
        ensures recordKeys[j] in ks
      {
        assert recordKeys[j] == rs[j].key.recordKey;
      }
    }
  }

  /** The removal half of testAllMapOperations: each remove returns the record it takes out,
      and its key is gone afterwards. */
  method RemoveTwo(records: RecordMap, ikey: string, dkey: string)
    returns (removedI: Option<HoodieRecord>, containsIAfter: bool,
             removedD: Option<HoodieRecord>, containsDAfter: bool)
    requires records.Valid() && ikey != dkey
    modifies records
    ensures records.Valid()
    ensures removedI == (if ikey in old(records.Contents()) then Some(old(records.Contents())[ikey]) else None)
    ensures removedD == (if dkey in old(records.Contents()) then Some(old(records.Contents())[dkey]) else None)
    ensures !containsIAfter && !containsDAfter
    ensures records.Contents() == old(records.Contents()) - {ikey} - {dkey}
  {
    ghost var m0 := records.Contents();
    removedI := records.Remove(ikey);
    containsIAfter := records.ContainsKey(ikey);
    ghost var m1 := records.Contents();
    assert dkey in m1 <==> dkey in m0;
    removedD := records.Remove(dkey);
    containsDAfter := records.ContainsKey(dkey);
  }

  /** testAllMapOperations: after 100 records go in, the map has size 100, returns the keys of
      the first and the last record, contains both, is not empty and holds every inserted key;
      removing either record returns it and takes its key out; after clear the size is 0.
      The first record stays in memory exactly when its estimate fits the 16-byte budget; when
      every record has the same estimate, the last one is on disk. */
  method AllMapOperationsTest(iRecords: seq<HoodieRecord>, cost: HoodieRecord -> Size)
    returns (size: nat, inMemoryKey: Option<HoodieKey>, onDiskKey: Option<HoodieKey>,
             containsI: bool, containsD: bool, empty: bool, containsAll: bool,
             removedI: Option<HoodieRecord>, containsIAfter: bool,
             removedD: Option<HoodieRecord>, containsDAfter: bool, sizeAfterClear: nat,
             ghost firstTier: Tier, ghost lastTier: Tier)
    requires |iRecords| == BATCH && DistinctKeys(Entries(iRecords))
    ensures size == 100
    ensures inMemoryKey == Some(iRecords[0].key) && onDiskKey == Some(iRecords[99].key)
    ensures containsI && containsD && !empty && containsAll
    ensures removedI == Some(iRecords[0]) && !containsIAfter
    ensures removedD == Some(iRecords[99]) && !containsDAfter
    ensures sizeAfterClear == 0
    ensures firstTier == if cost(iRecords[0]) <= SIZE_THRESHOLD then Resident else OnDisk
    ensures (forall i :: 0 <= i < BATCH ==> cost(iRecords[i]) == cost(iRecords[0])) ==> lastTier == OnDisk
  {
    var records, recordKeys := NewFilledMap(iRecords, cost);
    FreshBatch(iRecords);
    var es := Entries(iRecords);
    var ikey, dkey := iRecords[0].key.recordKey, iRecords[99].key.recordKey;
    FirstOfBatchTier(records.Settings(), iRecords);
    if forall i :: 0 <= i < BATCH ==> cost(iRecords[i]) == cost(iRecords[0]) {
      LastOfUniformBatchTier(records.Settings(), iRecords);
    }
    firstTier := TierOf(records.Snapshot(), ikey);
    lastTier := TierOf(records.Snapshot(), dkey);
    size, inMemoryKey, onDiskKey, containsI, containsD, empty, containsAll :=
      QueryBatch(records, iRecords, recordKeys);
    assert ikey != dkey by {
      assert es[0].0 != es[99].0;
    }
    removedI, containsIAfter, removedD, containsDAfter := RemoveTwo(records, ikey, dkey);
    records.Clear();
    sizeAfterClear := records.Size();
  }


  /** Appending to an empty key list gives the appended keys; stated apart from the loop that
      uses it, where the same sequence equality is costly to prove. */
  lemma EmptyPrefix(a: seq<string>, b: seq<string>)
    requires a == []
    ensures a + b == b
  {
  }

  /** The "ensure we spill to disk" loop: upsert generated batches of 100 records until the disk
      tier holds an entry. The first batch already overflows the 16-byte budget, so the loop
      runs exactly once. */
  method FillUntilSpill(records: RecordMap, generate: nat -> seq<HoodieRecord>)
    returns (recordKeys: seq<string>, batches: nat)
    requires records.Valid() && records.Snapshot() == Empty() && records.threshold == SIZE_THRESHOLD
    requires forall n: nat :: |generate(n)| == BATCH && DistinctKeys(Entries(generate(n)))
    modifies records
    ensures records.Valid()
    ensures records.Snapshot() == PutAll(records.Settings(), Empty(), Entries(generate(0)))
    ensures records.Contents() == Upserted(map[], Entries(generate(0)))
    ensures recordKeys == KeysOf(generate(0))
    ensures batches == 1 && |records.index| >= 1
  {
    ghost var cfg, first := records.Settings(), generate(0);
    ghost var target := PutAll(cfg, Empty(), Entries(first));
    EmptyIsValid<string, HoodieRecord>(cfg);
    PutAllView(cfg, Empty(), Entries(first));
    FreshBatch(first);
    SpillWhenOverBudget(cfg, target);

    recordKeys, batches := [], 0;
    var spilled := records.DiskEntryCount();
    while spilled < 1
      invariant records.Valid()
      invariant batches <= 1 && (spilled < 1 ==> batches == 0) && spilled == |records.index|
      invariant records.Snapshot() == if batches == 0 then Empty() else target
      invariant recordKeys == if batches == 0 then [] else KeysOf(first)
      decreases 1 - batches
    {
      var iRecords := generate(batches);
      var keys := UpsertRecords(iRecords, records);
      EmptyPrefix(recordKeys, keys);
      recordKeys := recordKeys + keys;
      batches := batches + 1;
      spilled := records.DiskEntryCount();
    }
  }

  /** Read the record under `key`, set one field of it, upsert it under its record key and read
      it back: the map now holds the updated record there, nothing else changes, and the key
      stays in its tier. */
  method UpsertFieldAndGet(records: RecordMap, key: string, field: string, value: string)
    returns (fetched: Option<HoodieRecord>)
    requires records.Valid()
    requires key in records.Contents() && records.Contents()[key].key.recordKey == key
    modifies records
    ensures records.Valid()
    ensures fetched == Some(WithField(old(records.Contents())[key], field, value))
    ensures records.Contents() == old(records.Contents())[key := WithField(old(records.Contents())[key], field, value)]
    ensures TierOf(records.Snapshot(), key) == old(TierOf(records.Snapshot(), key))
  {
    ViewLookup(records.Snapshot(), key);
    var record := records.Get(key);
    var updated := WithField(record.value, field, value);
    records.Put(updated.key.recordKey, updated);
    fetched := records.Get(key);
  }

  /** A fresh map with a 16-byte budget after the fill-until-spill loop: its first and last
      inserted keys hold their records, and record where each of them lives. */
  method NewSpilledMap(cost: HoodieRecord -> Size, generate: nat -> seq<HoodieRecord>)
    returns (records: RecordMap, recordKeys: seq<string>, ghost firstTier: Tier, ghost lastTier: Tier)
    requires forall n: nat :: |generate(n)| == BATCH && DistinctKeys(Entries(generate(n)))
    ensures fresh(records) && records.Valid() && |recordKeys| == BATCH
    ensures recordKeys[0] in records.Contents() && records.Contents()[recordKeys[0]].key.recordKey == recordKeys[0]
    ensures recordKeys[99] in records.Contents() && records.Contents()[recordKeys[99]].key.recordKey == recordKeys[99]
    ensures firstTier == TierOf(records.Snapshot(), recordKeys[0])
    ensures lastTier == TierOf(records.Snapshot(), recordKeys[99])
    ensures firstTier == if cost(generate(0)[0]) <= SIZE_THRESHOLD then Resident else OnDisk
    ensures (forall i :: 0 <= i < BATCH ==> cost(generate(0)[i]) == cost(generate(0)[0])) ==>
      lastTier == OnDisk
  {
    records := new ExternalSpillableMap<string, HoodieRecord>(SIZE_THRESHOLD, cost);
    var batches;
    recordKeys, batches := FillUntilSpill(records, generate);
    ghost var rs := generate(0);
    FreshBatch(rs);
    FirstOfBatchTier(records.Settings(), rs);
    if forall i :: 0 <= i < BATCH ==> cost(rs[i]) == cost(rs[0]) {
      LastOfUniformBatchTier(records.Settings(), rs);
    }
    firstTier := TierOf(records.Snapshot(), recordKeys[0]);
    lastTier := TierOf(records.Snapshot(), recordKeys[99]);
  }

  /** Update `field` of the record under `key` to `first`, then of the record under `lastKey` to
      `last`, reading back the field after each upsert. */
  method UpdateTwo(records: RecordMap, key: string, lastKey: string, field: string, first: string, last: string)
    returns (inMemoryValue: Option<string>, onDiskValue: Option<string>)
    requires records.Valid()
    requires key in records.Contents() && records.Contents()[key].key.recordKey == key
    requires lastKey in records.Contents() && records.Contents()[lastKey].key.recordKey == lastKey
    modifies records
    ensures inMemoryValue == Some(first) && onDiskValue == Some(last)
  {
    var fetched := UpsertFieldAndGet(records, key, field, first);
    inMemoryValue := if fetched.Some? && field in fetched.value.fields then Some(fetched.value.fields[field]) else None;
    fetched := UpsertFieldAndGet(records, lastKey, field, last);
    onDiskValue := if fetched.Some? && field in fetched.value.fields then Some(fetched.value.fields[field]) else None;
  }

  /** The body shared by the two data-correctness tests: fill the map until it spills, then
      update `field` of the first inserted record to `first` and of the last one to `last`,
      reading each back. The first record is in memory exactly when its estimate fits the
      budget; with one estimate for all records, the last one is on disk. */
  method UpdateFirstAndLast(cost: HoodieRecord -> Size, generate: nat -> seq<HoodieRecord>,
                            field: string, first: string, last: string)
    returns (inMemoryValue: Option<string>, onDiskValue: Option<string>,
             ghost firstTier: Tier, ghost lastTier: Tier)
    requires forall n: nat :: |generate(n)| == BATCH && DistinctKeys(Entries(generate(n)))
    ensures inMemoryValue == Some(first) && onDiskValue == Some(last)
    ensures firstTier == if cost(generate(0)[0]) <= SIZE_THRESHOLD then Resident else OnDisk
    ensures (forall i :: 0 <= i < BATCH ==> cost(generate(0)[i]) == cost(generate(0)[0])) ==>
      lastTier == OnDisk
  {
    var records, recordKeys;
    records, recordKeys, firstTier, lastTier := NewSpilledMap(cost, generate);
    inMemoryValue, onDiskValue :=
      UpdateTwo(records, recordKeys[0], recordKeys[|recordKeys| - 1], field, first, last);
  }

  /** testDataCorrectnessWithUpsertsToDataInMapAndOnDisk: the commit time written to the first
      and to the last record is the one read back. */
  method DataCorrectnessWithUpsertsTest(cost: HoodieRecord -> Size, generate: nat -> seq<HoodieRecord>,
                                        firstCommitTime: string, secondCommitTime: string)
    returns (inMemoryCommitTime: Option<string>, onDiskCommitTime: Option<string>)
    requires forall n: nat :: |generate(n)| == BATCH && DistinctKeys(Entries(generate(n)))
    ensures inMemoryCommitTime == Some(firstCommitTime) && onDiskCommitTime == Some(secondCommitTime)
  {
    ghost var t1, t2;
    inMemoryCommitTime, onDiskCommitTime, t1, t2 :=
      UpdateFirstAndLast(cost, generate, COMMIT_TIME_METADATA_FIELD, firstCommitTime, secondCommitTime);
  }

  /** testDataCorrectnessWithoutHoodieMetadata: a string field of the first and of the last
      record, set to "update1" and "update2", reads back with those values. */
  method DataCorrectnessWithoutMetadataTest(cost: HoodieRecord -> Size, generate: nat -> seq<HoodieRecord>,
                                            fieldName: string)
    returns (inMemoryValue: Option<string>, onDiskValue: Option<string>)
    requires forall n: nat :: |generate(n)| == BATCH && DistinctKeys(Entries(generate(n)))
    ensures inMemoryValue == Some("update1") && onDiskValue == Some("update2")
  {
    ghost var t1, t2;
    inMemoryValue, onDiskValue, t1, t2 := UpdateFirstAndLast(cost, generate, fieldName, "update1", "update2");
  }
}
