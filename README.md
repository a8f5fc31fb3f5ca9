# ExternalSpillableMap, modelled from its test suite

`ExternalSpillableMap` is the two-tier key→record map on Hudi's record-merge path. It keeps memory bounded while it absorbs any number of upserts.

- **Resident tier:** an in-memory map. It admits a new key only while the map's estimated memory footprint stays within a byte budget (16 bytes in every test).
- **Disk tier:** an append-only log of `(key, value)` frames, plus an index from each disk key to the position of its newest frame. Keys that arrive after the budget is used up go here.

A key lives in exactly one tier. A later `put` of the same key keeps it in that tier. There is no movement between the tiers.

The project is in two layers:

- `SpillableState` (SpillableState.dfy) models the map as a value.
  - A `State` holds the resident map, the size booked for each resident key, the footprint, the log and the index.
  - Each map operation (`Put`, `Remove`, `Clear`) is a function on `State`.
  - The abstraction function `View` is `resident + {k := log[index[k]].1 | k in index}`.
  - The invariant `Inv` says six things:
    - the two key sets are disjoint;
    - every index entry points into the log at a frame carrying that key;
    - no later frame in the log carries that key, so the indexed frame is the key's newest;
    - a size is booked for exactly the resident keys;
    - the footprint is the total of the booked sizes;
    - the footprint is within the budget.
  - `Replay` is an independent reading of the log: replayed forward, the last frame of each key wins. `IndexReplays` proves that every disk key's value under the index is its value under `Replay`.
  - `SpillableRuns` (SpillableRuns.dfy) lifts `Put` to runs of upserts (`PutAll`) and proves the placement facts the tests rely on.
- `ExternalSpillableMaps.ExternalSpillableMap` (ExternalSpillableMap.dfy) is a class.
  - Its fields are `resident`, `charged`, `footprint`, `log` and `index`, plus the constants `threshold` and `cost`.
  - Every state-changing map operation is proved to change the fields exactly as the matching `SpillableState` function says.
  - Each public map operation (`Put`, `Get`, `Remove`, `ContainsKey`, `Size`, `IsEmpty`, `KeySet`, `DiskEntryCount`, `Clear`, `Iterator`) also states its effect on, or its answer in terms of, the abstract map `Contents()`.
  - Three internal helpers speak of the fields alone. `SpillToDisk` is the disk tier's append. `ResidentValues` and `DiskValues` list one tier each for `Iterator`.
- `TestExternalSpillableMap` (TestExternalSpillableMap.dfy) holds the scenarios of `TestExternalSpillableMap.java`.
  - Each JUnit test is a method. It drives a fresh map the way the test does and returns what the test inspects.
  - Its postconditions are the test's assertions.
  - The insertion loops are verified `while` loops.
  - Records carry just what the scenarios look at: a `HoodieKey` (record key and partition path) and the record's named string fields.
- `Accounting` (Accounting.dfy) holds the footprint arithmetic. `Size` is a positive natural number and `Total` sums a map of sizes. Because every size is positive, the resident tier can never hold more keys than the budget has bytes.

The source of `ExternalSpillableMap` itself, of `SpillableMapTestUtils` and of `SchemaTestUtil` is not part of this model. Their behaviour is modelled from how the test uses them, together with the admission and booking rules listed below:

- A new key is admitted to the resident tier when `footprint + cost(v) <= threshold`. Otherwise it is appended to the log.
- An admitted key books `cost(v)` into the footprint. `remove` gives that booking back. Updating a resident key leaves the footprint unchanged.
- `upsertRecords` puts each record under its record key, in order, and returns the keys in that order.
- The per-value size estimate is a parameter `cost: V -> Size`. The record generators are parameters too: a sequence of records, or `generate: nat -> seq<HoodieRecord>` for the loops that insert until something spills.

The test names the first record `inMemoryRecord` and the last one `onDiskRecord` (lines 134-144); its comments at lines 163, 212 and 230 say the same. Under the admission rule modelled here (`footprint + cost(v) <= threshold`), that holds only under a condition on the size estimate, and the model proves it in that conditional form:

- the first record is resident exactly when its estimate is at most 16;
- when all records of a batch share one estimate, the last record is on disk.

The tests' assertions do not depend on those tiers, and the model proves those assertions unconditionally.

## Model

Lemmas that only prove a step of another proof (map and sequence algebra such as `UnionUpdateLeft`, `DisjointUnionSize`, `PutAllStep`, `EntriesAt` and `EmptyPrefix`) have no row, and neither do the footprint sums in `Accounting`.

| member | source | states |
|---|---|---|
| SpillableState.EmptyIsValid | hoodie-common/src/test/java/com/uber/hoodie/common/util/collection/TestExternalSpillableMap.java:67-69 | a freshly constructed map satisfies the invariant and holds no entries |
| SpillableState.ViewLookup | hoodie-common/src/test/java/com/uber/hoodie/common/util/collection/TestExternalSpillableMap.java:148-155 | a key is in the map iff it is in one of the tiers; its value comes from the resident tier, or from the disk frame the index points at |
| SpillableState.ReplayNewest | hoodie-common/src/test/java/com/uber/hoodie/common/util/collection/TestExternalSpillableMap.java:240-245 | a frame that no later frame of the log overrides is the one a forward replay keeps for its key |
| SpillableState.IndexReplays | hoodie-common/src/test/java/com/uber/hoodie/common/util/collection/TestExternalSpillableMap.java:240-245 | in a valid state, every disk key's indexed value is its value when the log is replayed forward, so the index addresses each key's newest frame |
| SpillableState.ViewFacts | hoodie-common/src/test/java/com/uber/hoodie/common/util/collection/TestExternalSpillableMap.java:154-161 | the map's keys are the resident keys plus the disk-indexed keys, each with its tier's value |
| SpillableState.ViewSize | hoodie-common/src/test/java/com/uber/hoodie/common/util/collection/TestExternalSpillableMap.java:146 | size is the resident count plus the disk-index count, with no key counted twice |
| SpillableState.ListingValues | hoodie-common/src/test/java/com/uber/hoodie/common/util/collection/TestExternalSpillableMap.java:74-80 | resident values followed by disk values are each the map's value for their key; exactly the first \|resident\| of them are resident |
| SpillableState.ListingDistinct | hoodie-common/src/test/java/com/uber/hoodie/common/util/collection/TestExternalSpillableMap.java:74-80 | listing both tiers one after the other yields no key twice |
| SpillableState.ListingCovers | hoodie-common/src/test/java/com/uber/hoodie/common/util/collection/TestExternalSpillableMap.java:74-80 | listing both tiers one after the other yields every key of both tiers |
| SpillableState.ResidentBound | hoodie-common/src/test/java/com/uber/hoodie/common/util/collection/TestExternalSpillableMap.java:67-69 | memory is bounded: the resident key count is at most the footprint, which is at most the budget |
| SpillableState.SpillWhenOverBudget | hoodie-common/src/test/java/com/uber/hoodie/common/util/collection/TestExternalSpillableMap.java:105-108 | a valid state whose map holds more entries than the budget has bytes has a non-empty disk tier |
| SpillableState.PutKeepsInv | hoodie-common/src/test/java/com/uber/hoodie/common/util/collection/TestExternalSpillableMap.java:263 | put preserves the invariant: disjoint tiers, an index pointing at frames of its own keys, exact accounting, footprint within budget |
| SpillableState.AppendView | hoodie-common/src/test/java/com/uber/hoodie/common/util/collection/TestExternalSpillableMap.java:242-245 | appending a frame for k makes it k's newest frame: the disk view and the map map k to the new value, all other keys unchanged |
| SpillableState.AppendKeepsNewest | hoodie-common/src/test/java/com/uber/hoodie/common/util/collection/TestExternalSpillableMap.java:240-245 | after a disk write the index still addresses frames of their own keys, and each one is still its key's newest, the new frame included |
| SpillableState.PutView | hoodie-common/src/test/java/com/uber/hoodie/common/util/collection/TestExternalSpillableMap.java:225-228 | after put(k, v) the map is the old map with k bound to v, in either tier |
| SpillableState.PutRouting | hoodie-common/src/test/java/com/uber/hoodie/common/util/collection/TestExternalSpillableMap.java:134-144 | an existing key keeps its tier; a new key becomes resident iff footprint + cost(v) <= threshold, else goes on disk; no other key changes tier |
| SpillableState.PutFootprint | hoodie-common/src/test/java/com/uber/hoodie/common/util/collection/TestExternalSpillableMap.java:67-69 | the footprint grows by cost(v) exactly when a new key is admitted to memory, and is unchanged otherwise |
| SpillableState.PutAppendsOnly | hoodie-common/src/test/java/com/uber/hoodie/common/util/collection/TestExternalSpillableMap.java:240-245 | the old log is a prefix of the new one; a put that lands on disk appends exactly one frame (k, v) and indexes it |
| SpillableState.RemoveKeepsInv | hoodie-common/src/test/java/com/uber/hoodie/common/util/collection/TestExternalSpillableMap.java:164-170 | remove preserves the invariant, giving a resident key's booked size back |
| SpillableState.RemoveView | hoodie-common/src/test/java/com/uber/hoodie/common/util/collection/TestExternalSpillableMap.java:164-170 | after remove(k) the map is the old map without k, and the log is untouched |
| SpillableState.RemoveTier | hoodie-common/src/test/java/com/uber/hoodie/common/util/collection/TestExternalSpillableMap.java:166-170 | after remove(k), k is in neither tier and every other key stays in its tier |
| SpillableState.ClearView | hoodie-common/src/test/java/com/uber/hoodie/common/util/collection/TestExternalSpillableMap.java:172-174 | clear leaves a valid state with an empty map, empty tiers and an empty log |
| SpillableRuns.PutAllKeepsInv | hoodie-common/src/test/java/com/uber/hoodie/common/util/collection/TestExternalSpillableMap.java:207-210 | any run of puts preserves the invariant |
| SpillableRuns.PutAllView | hoodie-common/src/test/java/com/uber/hoodie/common/util/collection/TestExternalSpillableMap.java:72 | the map after a run of puts is the plain map upserted with the same run, so the newest value for each key wins |
| SpillableRuns.UpsertedDistinct | hoodie-common/src/test/java/com/uber/hoodie/common/util/collection/TestExternalSpillableMap.java:72-73 | upserting distinct keys adds exactly those keys, each with its value, leaving the other keys as they were |
| SpillableRuns.DistinctKeyCount | hoodie-common/src/test/java/com/uber/hoodie/common/util/collection/TestExternalSpillableMap.java:73 | a run of distinct keys has as many keys as entries |
| SpillableRuns.UpsertedSameKeys | hoodie-common/src/test/java/com/uber/hoodie/common/util/collection/TestExternalSpillableMap.java:101-105 | re-upserting the same keys keeps the key set and binds each key to its new value |
| SpillableRuns.SameKeysDistinct | hoodie-common/src/test/java/com/uber/hoodie/common/util/collection/TestExternalSpillableMap.java:101-102 | a run carrying a distinct run's keys position by position is distinct, with the same keys |
| SpillableRuns.PutAllFreshSize | hoodie-common/src/test/java/com/uber/hoodie/common/util/collection/TestExternalSpillableMap.java:146 | putting distinct fresh keys grows the size by exactly the run's length, across both tiers |
| SpillableRuns.PutAllTier | hoodie-common/src/test/java/com/uber/hoodie/common/util/collection/TestExternalSpillableMap.java:212-245 | a run of puts never moves a present key to the other tier, nor touches a key it does not mention |
| SpillableRuns.PutAllFootprint | hoodie-common/src/test/java/com/uber/hoodie/common/util/collection/TestExternalSpillableMap.java:207-210 | the footprint never decreases along a run of puts |
| SpillableRuns.PutAllConcat | hoodie-common/src/test/java/com/uber/hoodie/common/util/collection/TestExternalSpillableMap.java:207-210 | putting two runs one after the other is putting their concatenation |
| SpillableRuns.EntryTier | hoodie-common/src/test/java/com/uber/hoodie/common/util/collection/TestExternalSpillableMap.java:132-144 | in a distinct run, entry i ends resident iff the footprint reached before it plus its cost fits the budget, else on disk |
| SpillableRuns.FirstEntryTier | hoodie-common/src/test/java/com/uber/hoodie/common/util/collection/TestExternalSpillableMap.java:134 | the first entry put into an empty map is resident iff its cost fits the budget |
| SpillableRuns.SpillIsSticky | hoodie-common/src/test/java/com/uber/hoodie/common/util/collection/TestExternalSpillableMap.java:140-141 | in a distinct run, once an entry spills, every later entry of no smaller cost spills too |
| SpillableRuns.PrefixFootprint | hoodie-common/src/test/java/com/uber/hoodie/common/util/collection/TestExternalSpillableMap.java:207-210 | a longer prefix of a run leaves a footprint at least as large as a shorter one |
| SpillableRuns.EarlySpill | hoodie-common/src/test/java/com/uber/hoodie/common/util/collection/TestExternalSpillableMap.java:132 | inserting more distinct keys than the budget has bytes into an empty map spills one of the first threshold + 1 |
| SpillableRuns.UniformTailSpills | hoodie-common/src/test/java/com/uber/hoodie/common/util/collection/TestExternalSpillableMap.java:140-144 | when all entries cost the same, every entry after position threshold lands on disk |
| ExternalSpillableMaps.ExternalSpillableMap.constructor | hoodie-common/src/test/java/com/uber/hoodie/common/util/collection/TestExternalSpillableMap.java:67-69 | a new map with the given budget and estimator is valid, in the empty state, and holds nothing |
| ExternalSpillableMaps.ExternalSpillableMap.SpillToDisk | hoodie-common/src/test/java/com/uber/hoodie/common/util/collection/TestExternalSpillableMap.java:240-245 | appends (k, v) to the log and points k's index entry at it, leaving the resident tier and the accounting as they were |
| ExternalSpillableMaps.ExternalSpillableMap.Put | hoodie-common/src/test/java/com/uber/hoodie/common/util/collection/TestExternalSpillableMap.java:263-284 | changes the fields exactly as SpillableState.Put; the map binds k to v; the tier follows the routing rule |
| ExternalSpillableMaps.ExternalSpillableMap.Get | hoodie-common/src/test/java/com/uber/hoodie/common/util/collection/TestExternalSpillableMap.java:148-149 | returns the map's value for k, or None when k is absent; for a disk key, the value its newest frame carries, which is the value a forward replay of the log gives |
| ExternalSpillableMaps.ExternalSpillableMap.Remove | hoodie-common/src/test/java/com/uber/hoodie/common/util/collection/TestExternalSpillableMap.java:164-170 | returns the prior value (None if absent), changes the fields exactly as SpillableState.Remove, and the map loses k and nothing else |
| ExternalSpillableMaps.ExternalSpillableMap.ContainsKey | hoodie-common/src/test/java/com/uber/hoodie/common/util/collection/TestExternalSpillableMap.java:154-155 | true iff k is in the map, whichever tier holds it |
| ExternalSpillableMaps.ExternalSpillableMap.Size | hoodie-common/src/test/java/com/uber/hoodie/common/util/collection/TestExternalSpillableMap.java:146 | the number of keys in the map, counted across both tiers |
| ExternalSpillableMaps.ExternalSpillableMap.IsEmpty | hoodie-common/src/test/java/com/uber/hoodie/common/util/collection/TestExternalSpillableMap.java:158 | true iff the map holds no entry |
| ExternalSpillableMaps.ExternalSpillableMap.KeySet | hoodie-common/src/test/java/com/uber/hoodie/common/util/collection/TestExternalSpillableMap.java:161 | exactly the map's keys |
| ExternalSpillableMaps.ExternalSpillableMap.DiskEntryCount | hoodie-common/src/test/java/com/uber/hoodie/common/util/collection/TestExternalSpillableMap.java:108 | the number of keys held on disk, which is the size of the disk index |
| ExternalSpillableMaps.ExternalSpillableMap.Clear | hoodie-common/src/test/java/com/uber/hoodie/common/util/collection/TestExternalSpillableMap.java:173 | resets the fields to the empty state; the map is empty |
| ExternalSpillableMaps.ExternalSpillableMap.ResidentValues | hoodie-common/src/test/java/com/uber/hoodie/common/util/collection/TestExternalSpillableMap.java:74-78 | lists every resident value once, each under a distinct resident key |
| ExternalSpillableMaps.ExternalSpillableMap.DiskValues | hoodie-common/src/test/java/com/uber/hoodie/common/util/collection/TestExternalSpillableMap.java:74-78 | lists every disk key once, each with the value of its indexed frame, which is the value a forward replay of the log gives |
| ExternalSpillableMaps.ExternalSpillableMap.Iterator | hoodie-common/src/test/java/com/uber/hoodie/common/util/collection/TestExternalSpillableMap.java:74-80 | yields one value per key of the map, each the map's value for its key, with no key twice and every key once; resident values come first, then disk values |
| TestExternalSpillableMap.UpsertedKeyed | hoodie-common/src/test/java/com/uber/hoodie/common/util/collection/TestExternalSpillableMap.java:111-112 | upserting records under their own record keys keeps every record stored under its own key |
| TestExternalSpillableMap.PutRecord | hoodie-common/src/test/java/com/uber/hoodie/common/util/collection/TestExternalSpillableMap.java:263 | put(r.getRecordKey(), r) changes the map's state as SpillableState.Put |
| TestExternalSpillableMap.UpsertRecords | hoodie-common/src/test/java/com/uber/hoodie/common/util/collection/TestExternalSpillableMap.java:72 | puts the records in order, so the state is PutAll of them and the map is upserted with them; returns their record keys in order |
| TestExternalSpillableMap.FreshBatch | hoodie-common/src/test/java/com/uber/hoodie/common/util/collection/TestExternalSpillableMap.java:71-73 | a batch of distinct records fills an empty map with exactly its keys, one record per key, each under its own key |
| TestExternalSpillableMap.NewFilledMap | hoodie-common/src/test/java/com/uber/hoodie/common/util/collection/TestExternalSpillableMap.java:67-72 | a new 16-byte map upserted with a distinct batch holds exactly that batch |
| TestExternalSpillableMap.SimpleInsertTest | hoodie-common/src/test/java/com/uber/hoodie/common/util/collection/TestExternalSpillableMap.java:63-81 | 100 keys come back; the iterator yields 100 records, each under an inserted key, and every inserted record among them |
| TestExternalSpillableMap.IterationCoversBatch | hoodie-common/src/test/java/com/uber/hoodie/common/util/collection/TestExternalSpillableMap.java:74-80 | a listing of a map filled from a fresh batch holds as many records as the batch, each under an inserted key, and all of them |
| TestExternalSpillableMap.ReupsertBatch | hoodie-common/src/test/java/com/uber/hoodie/common/util/collection/TestExternalSpillableMap.java:101-105 | re-upserting updated records under the same keys keeps 100 keys and binds each to its updated record |
| TestExternalSpillableMap.GetAll | hoodie-common/src/test/java/com/uber/hoodie/common/util/collection/TestExternalSpillableMap.java:111-112 | get of each key in turn returns the map's value for it |
| TestExternalSpillableMap.SimpleUpsertTest | hoodie-common/src/test/java/com/uber/hoodie/common/util/collection/TestExternalSpillableMap.java:83-119 | after the updates something is on disk, and get of every updated key returns its updated record, from either tier |
| TestExternalSpillableMap.FirstOfBatchTier | hoodie-common/src/test/java/com/uber/hoodie/common/util/collection/TestExternalSpillableMap.java:134-138 | the first record of a batch is resident iff its estimate is at most 16, else on disk |
| TestExternalSpillableMap.LastOfUniformBatchTier | hoodie-common/src/test/java/com/uber/hoodie/common/util/collection/TestExternalSpillableMap.java:140-144 | with one estimate for all records, the 100th record is on disk |
| TestExternalSpillableMap.QueryBatch | hoodie-common/src/test/java/com/uber/hoodie/common/util/collection/TestExternalSpillableMap.java:145-161 | size is 100; get of the first and last keys returns their HoodieKeys; both keys are contained; the map is not empty; keySet contains every inserted key |
| TestExternalSpillableMap.RemoveTwo | hoodie-common/src/test/java/com/uber/hoodie/common/util/collection/TestExternalSpillableMap.java:163-170 | each remove returns the prior value and leaves the key absent; the map loses those two keys and nothing else |
| TestExternalSpillableMap.AllMapOperationsTest | hoodie-common/src/test/java/com/uber/hoodie/common/util/collection/TestExternalSpillableMap.java:121-175 | every assertion of the test holds: size, keys, contains, isEmpty, containsAll, non-null removals with the removed records, and size 0 after clear; plus the tiers of the first and last keys under their conditions |
| TestExternalSpillableMap.FillUntilSpill | hoodie-common/src/test/java/com/uber/hoodie/common/util/collection/TestExternalSpillableMap.java:205-210 | the insert-until-spill loop stops after exactly one batch, with something on disk and the map upserted with that batch |
| TestExternalSpillableMap.UpsertFieldAndGet | hoodie-common/src/test/java/com/uber/hoodie/common/util/collection/TestExternalSpillableMap.java:212-228 | getting a record, updating one field and putting it back makes get return the updated record; no key changes tier |
| TestExternalSpillableMap.NewSpilledMap | hoodie-common/src/test/java/com/uber/hoodie/common/util/collection/TestExternalSpillableMap.java:201-210 | a 16-byte map filled until it spills holds the first and last inserted keys, each under its own record, in tiers given by the estimates |
| TestExternalSpillableMap.UpdateTwo | hoodie-common/src/test/java/com/uber/hoodie/common/util/collection/TestExternalSpillableMap.java:212-245 | updating the first and then the last record reads each one back with its new field value |
| TestExternalSpillableMap.UpdateFirstAndLast | hoodie-common/src/test/java/com/uber/hoodie/common/util/collection/TestExternalSpillableMap.java:195-245 | the shared body of the data-correctness tests: both updated values read back, with the first and last keys' tiers under their conditions |
| TestExternalSpillableMap.DataCorrectnessWithUpsertsTest | hoodie-common/src/test/java/com/uber/hoodie/common/util/collection/TestExternalSpillableMap.java:195-246 | the commit time written to the first and to the last record is the one read back |
| TestExternalSpillableMap.DataCorrectnessWithoutMetadataTest | hoodie-common/src/test/java/com/uber/hoodie/common/util/collection/TestExternalSpillableMap.java:248-311 | the field set to "update1" on the first record and "update2" on the last one reads back with those values |

## Left out

- File creation, base paths and the cleanup of output files (lines 52-61). The disk tier is an in-memory append-only sequence of frames; byte framing, serialization and I/O errors are not modelled.
- The unwritable-path test `simpleTestWithException` (lines 177-193). It throws its own exception and asserts nothing about the map. The failure it stands for is I/O.
- Avro schemas, `HoodieRecordConverter` and `StringConverter`, and payload `getInsertValue`. A record is stored and returned as the same value, so conversion is an identity round trip.
- Commit-time generation (`createNewCommitTime`). Commit times are parameters of `DataCorrectnessWithUpsertsTest`.
- Record generation (`generateHoodieTestRecords` and friends). Records are parameters, assumed to carry 100 distinct record keys per batch, as the generators produce.
- Runtime object-size estimation and the estimator's sampling window. Both are replaced by the arbitrary positive estimate `cost`, applied to every new key. The estimate sees only the value: the key converter the map is built with (line 68) contributes nothing to the footprint.
- Java `int` and `long` widths. Sizes and counts are unbounded integers; the scenarios stay far below any overflow.
- Lazy iteration. `Iterator` returns the whole sequence of values at once, and the order within each tier is unspecified.
- JUnit ordering (line 49) and the empty `testLargeInsertUpsert` (lines 313-316).
- `SimpleUpsertTest`: it does not repeat the iteration check at lines 96-100, because `SimpleInsertTest` states and proves that check for the same inserted batch.
- `DataCorrectnessWithoutMetadataTest`: the direct `put` loop at lines 262-265 is modelled by `UpsertRecords`, which performs the same puts in the same order. The schema lookup at lines 272-273 becomes the parameter `fieldName`.
- `ExternalSpillableMap.java`, `SpillableMapTestUtils.java` and `SchemaTestUtil.java` are not part of this model.
