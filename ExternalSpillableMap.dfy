/**
 * ExternalSpillableMap: a key -> value map whose entries live either in memory
 * (the resident tier) or in an append-only disk log (the disk tier). New keys
 * stay in memory while the estimated footprint fits the byte budget and spill
 * to disk afterwards; an existing key is always updated in its own tier.
 *
 * The disk file is modelled by the in-memory sequence `log`; serialization is
 * the identity, so a frame holds the value itself.
 */
module ExternalSpillableMaps {
  import opened Wrappers
  import opened Accounting
  import opened SpillableState

  class ExternalSpillableMap<K(==), V> {
    /** Byte budget of the resident tier (16 in every scenario of the test suite). */
    const threshold: nat
    /** Size estimator standing in for the value converter's estimate; keys are not charged. */
    const cost: V -> Size

    var resident: map<K, V>
    var charged: map<K, Size>
    var footprint: nat
    var log: seq<(K, V)>
    var index: map<K, nat>

    function Settings(): Config<V> {
      Config(threshold, cost)
    }

    function Snapshot(): State<K, V>
      reads this
    {
      State(resident, charged, footprint, log, index)
    }

    ghost predicate Valid()
      reads this
    {
      Inv(Settings(), Snapshot())
    }

    /** The map as its callers see it: both tiers together. */
    ghost function Contents(): map<K, V>
      reads this
      requires Valid()
    {
      View(Snapshot())
    }

    constructor (threshold: nat, cost: V -> Size)
      ensures Valid()
      ensures this.threshold == threshold && this.cost == cost
      ensures Snapshot() == Empty()
      ensures Contents() == map[]
    {
      this.threshold := threshold;
      this.cost := cost;
      resident, charged, footprint, log, index := map[], map[], 0, [], map[];
      new;
      EmptyIsValid<K, V>(Settings());
    }

    /** The disk tier's put: append a frame and index it as the key's newest. */
    method SpillToDisk(k: K, v: V)
      modifies this
      ensures Snapshot() == Append(old(Snapshot()), k, v)
    {
      index := index[k := |log|];
      log := log + [(k, v)];
    }

    method Put(k: K, v: V)
      requires Valid()
      modifies this
      ensures Valid()
      ensures Snapshot() == SpillableState.Put(Settings(), old(Snapshot()), k, v)
      ensures Contents() == old(Contents())[k := v]
      ensures TierOf(Snapshot(), k) ==
        if old(TierOf(Snapshot(), k)) != Absent then old(TierOf(Snapshot(), k))
        else if old(footprint) + cost(v) <= threshold then Resident
        else OnDisk
    {
      ghost var s0 := Snapshot();
      PutKeepsInv(Settings(), s0, k, v);
      PutView(Settings(), s0, k, v);
      PutRouting(Settings(), s0, k, v);
      if k in resident {
        resident := resident[k := v];
      } else if k in index {
        SpillToDisk(k, v);
      } else if footprint + cost(v) <= threshold {
        resident := resident[k := v];
        charged := charged[k := cost(v)];
        footprint := footprint + cost(v);
      } else {
        SpillToDisk(k, v);
      }
      assert Snapshot() == SpillableState.Put(Settings(), s0, k, v);
    }

    /** get(k): the resident tier is consulted first, then the newest disk frame. */
    method Get(k: K) returns (r: Option<V>)
      requires Valid()
      ensures r == if k in Contents() then Some(Contents()[k]) else None
      ensures k in index ==> r == Some(log[index[k]].1)
      ensures k in index ==> k in Replay(log) && r == Some(Replay(log)[k])
    {
      if k in resident {
        r := Some(resident[k]);
      } else if k in index {
        r := Some(log[index[k]].1);
      } else {
        r := None;
      }
      ViewLookup(Snapshot(), k);
      IndexReplays(Snapshot());
    }

    /** remove(k): returns the value k had, or None when k was absent. */
    method Remove(k: K) returns (r: Option<V>)
      requires Valid()
      modifies this
      ensures Valid()
      ensures r == old(if k in Contents() then Some(Contents()[k]) else None)
      ensures Snapshot() == SpillableState.Remove(Settings(), old(Snapshot()), k)
      ensures Contents() == old(Contents()) - {k}
    {
      ghost var s0 := Snapshot();
      ViewLookup(s0, k);
      RemoveView(Settings(), s0, k);
      RemoveKeepsInv(Settings(), s0, k);
      if k in resident {
        r := Some(resident[k]);
        TotalRemove(charged, k);
        footprint := footprint - charged[k];
        resident := resident - {k};
        charged := charged - {k};
      } else if k in index {
        r := Some(log[index[k]].1);
        index := index - {k};
      } else {
        r := None;
      }
      assert Snapshot() == SpillableState.Remove(Settings(), s0, k);
    }

    method ContainsKey(k: K) returns (b: bool)
      requires Valid()
      ensures b <==> k in Contents()
    {
      b := k in resident || k in index;
      ViewLookup(Snapshot(), k);
    }

    /** size(): resident entries plus disk entries. */
    method Size() returns (n: nat)
      requires Valid()
      ensures n == |Contents()|
    {
      n := |resident| + |index|;
      ViewSize(Snapshot());
    }

    method IsEmpty() returns (b: bool)
      requires Valid()
      ensures b <==> Contents() == map[]
    {
      b := resident == map[] && index == map[];
      ViewSize(Snapshot());
      if !b {
        assert |Contents()| > 0;
      }
    }

    method KeySet() returns (ks: set<K>)
      requires Valid()
      ensures ks == Contents().Keys
    {
      ks := resident.Keys + index.Keys;
      forall k | k in ks + Contents().Keys
        ensures k in ks <==> k in Contents()
      {
        ViewLookup(Snapshot(), k);
      }
    }

    /** getDiskBasedMapNumEntries(): how many keys of the map live on disk. */
    method DiskEntryCount() returns (n: nat)
      requires Valid()
      ensures n == |set k | k in Contents() && TierOf(Snapshot(), k) == OnDisk|
      ensures n == |index|
    {
      n := |index|;
      assert (set k | k in Contents() && TierOf(Snapshot(), k) == OnDisk) == index.Keys;
    }

    /** clear(): both tiers and the size accounting are reset, the disk log is discarded. */
    method Clear()
      modifies this
      ensures Valid()
      ensures Snapshot() == SpillableState.Clear(old(Snapshot()))
      ensures Contents() == map[]
    {
      resident, charged, footprint, log, index := map[], map[], 0, [], map[];
      ClearView(Settings(), Snapshot());
    }

    /** The resident tier's values, one per resident key, in the order the keys are visited. */
    method ResidentValues() returns (values: seq<V>, ghost order: seq<K>)
      ensures |values| == |order| == |resident|
      ensures forall i :: 0 <= i < |order| ==> order[i] in resident && values[i] == resident[order[i]]
      ensures forall i, j :: 0 <= i < j < |order| ==> order[i] != order[j]
      ensures forall k :: k in resident ==> k in order
    {
      values, order := [], [];
      var pending := resident.Keys;
      while pending != {}
        invariant pending <= resident.Keys
        invariant |values| == |order| && |order| + |pending| == |resident|
        invariant forall i :: 0 <= i < |order| ==>
          order[i] in resident && order[i] !in pending && values[i] == resident[order[i]]
        invariant forall i, j :: 0 <= i < j < |order| ==> order[i] != order[j]
        invariant forall k :: k in resident && k !in pending ==> k in order
        decreases pending
      {
        var k :| k in pending;
        values, order := values + [resident[k]], order + [k];
        pending := pending - {k};
      }
    }

    /** The disk tier's values: for each indexed key, the value of its newest frame. */
    method DiskValues() returns (values: seq<V>, ghost order: seq<K>)
      requires IndexInLog(Snapshot()) && IndexNewest(Snapshot())
      ensures |values| == |order| == |index|
      ensures forall i :: 0 <= i < |order| ==> order[i] in index && values[i] == log[index[order[i]]].1
      ensures forall i :: 0 <= i < |order| ==> order[i] in Replay(log) && values[i] == Replay(log)[order[i]]
      ensures forall i, j :: 0 <= i < j < |order| ==> order[i] != order[j]
      ensures forall k :: k in index ==> k in order
    {
      values, order := [], [];
      var pending := index.Keys;
      while pending != {}
        invariant pending <= index.Keys
        invariant |values| == |order| && |order| + |pending| == |index|
        invariant forall i :: 0 <= i < |order| ==>
          order[i] in index && order[i] !in pending && values[i] == log[index[order[i]]].1
        invariant forall i, j :: 0 <= i < j < |order| ==> order[i] != order[j]
        invariant forall k :: k in index && k !in pending ==> k in order
        decreases pending
      {
        var k :| k in pending;
        values, order := values + [log[index[k]].1], order + [k];
        pending := pending - {k};
      }
      IndexReplays(Snapshot());
    }

    /** iterator(): every resident value first, then the newest frame of every disk key.
        `order` names the key each value belongs to. */
    method Iterator() returns (values: seq<V>, ghost order: seq<K>)
      requires Valid()
      ensures |values| == |order| == |Contents()|
      ensures forall i :: 0 <= i < |order| ==> order[i] in Contents() && values[i] == Contents()[order[i]]
      ensures forall i, j :: 0 <= i < j < |order| ==> order[i] != order[j]
      ensures forall k :: k in Contents() ==> k in order
      ensures forall i :: 0 <= i < |order| ==> (TierOf(Snapshot(), order[i]) == Resident <==> i < |resident|)
    {
      var residentValues, residentOrder := ResidentValues();
      var diskValues, diskOrder := DiskValues();
      ViewSize(Snapshot());
      ViewFacts(Snapshot());
      ListingValues(Snapshot(), residentValues, residentOrder, diskValues, diskOrder);
      ListingDistinct(resident.Keys, index.Keys, residentOrder, diskOrder);
      ListingCovers(resident.Keys, index.Keys, residentOrder, diskOrder);
      values, order := residentValues + diskValues, residentOrder + diskOrder;
    }
  }
}
