/**
 * The state of an ExternalSpillableMap as a plain value, and the effect of each
 * map operation on it as a function. The class in ExternalSpillableMap.dfy is
 * proved to change its fields exactly as these functions say.
 *
 * Two tiers hold the entries:
 *  - the resident tier, an in-memory map of keys to values, together with the
 *    size booked for every resident key and the footprint (their total);
 *  - the disk tier, an append-only log of (key, value) frames and an index from
 *    each disk key to the position of its newest frame.
 */
module SpillableState {
  import opened Accounting

  /** What the map is constructed with: the byte budget of the resident tier and the size estimator. */
  datatype Config<!V> = Config(threshold: nat, cost: V -> Size)

  datatype State<K, V> = State(
    resident: map<K, V>,
    charged: map<K, Size>,
    footprint: nat,
    log: seq<(K, V)>,
    index: map<K, nat>)

  /** Where a key lives. There is no transition between Resident and OnDisk. */
  datatype Tier = Absent | Resident | OnDisk

  function Empty<K, V>(): State<K, V> {
    State(map[], map[], 0, [], map[])
  }

  /** Every index entry addresses a frame inside the log that carries that same key. */
  ghost predicate IndexInLog<K, V>(s: State<K, V>) {
    forall k :: k in s.index ==> s.index[k] < |s.log| && s.log[s.index[k]].0 == k
  }

  /** The frame an index entry addresses is its key's newest: no later frame carries the key. */
  ghost predicate IndexNewest<K, V>(s: State<K, V>) {
    forall k, j :: k in s.index && s.index[k] < j < |s.log| ==> s.log[j].0 != k
  }

  /** Replaying a log forward, keeping only the last frame of every key. */
  function Replay<K, V>(log: seq<(K, V)>): map<K, V> {
    if log == [] then map[] else Replay(log[..|log| - 1])[log[|log| - 1].0 := log[|log| - 1].1]
  }

  /** The representation invariant kept by every operation. */
  ghost predicate Inv<K, V>(c: Config<V>, s: State<K, V>) {
    && s.resident.Keys !! s.index.Keys
    && IndexInLog(s)
    && IndexNewest(s)
    && s.charged.Keys == s.resident.Keys
    && s.footprint == Total(s.charged)
    && s.footprint <= c.threshold
  }

  /** The values the disk tier holds: for each indexed key, the value of its newest frame. */
  ghost function DiskView<K, V>(s: State<K, V>): map<K, V>
    requires IndexInLog(s)
  {
    map k | k in s.index :: s.log[s.index[k]].1
  }

  /** The abstract map: both tiers together. */
  ghost function View<K, V>(s: State<K, V>): map<K, V>
    requires IndexInLog(s)
  {
    s.resident + DiskView(s)
  }

  function TierOf<K, V>(s: State<K, V>, k: K): Tier {
    if k in s.resident then Resident else if k in s.index then OnDisk else Absent
  }

  /** Writing a frame to the disk tier: append it and point the key's index entry at it. */
  function Append<K, V>(s: State<K, V>, k: K, v: V): State<K, V> {
    s.(log := s.log + [(k, v)], index := s.index[k := |s.log|])
  }

  /** put(k, v): an existing key is overwritten in its own tier; a new key is admitted to
      the resident tier when its estimated size still fits the budget, and spilled otherwise. */
  function Put<K, V>(c: Config<V>, s: State<K, V>, k: K, v: V): State<K, V> {
    if k in s.resident then
      s.(resident := s.resident[k := v])
    else if k in s.index then
      Append(s, k, v)
    else if s.footprint + c.cost(v) <= c.threshold then
      s.(resident := s.resident[k := v],
         charged := s.charged[k := c.cost(v)],
         footprint := s.footprint + c.cost(v))
    else
      Append(s, k, v)
  }

  /** remove(k): a resident key gives its booking back; a disk key loses only its index
      entry, its frames stay in the log. */
  function Remove<K, V>(c: Config<V>, s: State<K, V>, k: K): State<K, V>
    requires Inv(c, s)
  {
    if k in s.resident then
      TotalRemove(s.charged, k);
      s.(resident := s.resident - {k},
         charged := s.charged - {k},
         footprint := s.footprint - s.charged[k])
    else if k in s.index then
      s.(index := s.index - {k})
    else
      s
  }

  /** clear(): both tiers, the index and the accounting are reset; the log is discarded. */
  function Clear<K, V>(s: State<K, V>): State<K, V> {
    Empty()
  }

  // ---------------------------------------------------------------------------
  // Properties of single operations

  lemma EmptyIsValid<K, V>(c: Config<V>)
    ensures Inv(c, Empty<K, V>())
    ensures View(Empty<K, V>()) == map[]
  {
  }

  /** The abstract map holds exactly the keys of the two tiers, and a key's value is the
      resident one or the value of its newest disk frame. */
  lemma ViewLookup<K, V>(s: State<K, V>, k: K)
    requires IndexInLog(s)
    requires s.resident.Keys !! s.index.Keys
    ensures k in View(s) <==> TierOf(s, k) != Absent
    ensures TierOf(s, k) == Resident ==> View(s)[k] == s.resident[k]
    ensures TierOf(s, k) == OnDisk ==> View(s)[k] == s.log[s.index[k]].1
  {
  }

  /** ViewLookup for every key at once. */
  lemma ViewFacts<K, V>(s: State<K, V>)
    requires IndexInLog(s)
    requires s.resident.Keys !! s.index.Keys
    ensures View(s).Keys == s.resident.Keys + s.index.Keys
    ensures forall k :: k in s.resident ==> View(s)[k] == s.resident[k]
    ensures forall k :: k in s.index ==> View(s)[k] == s.log[s.index[k]].1
  {
  }

  /** A frame no later frame overrides is the one replay keeps for its key. */
  lemma {:induction false} ReplayNewest<K, V>(log: seq<(K, V)>, p: nat)
    requires p < |log|
    requires forall j :: p < j < |log| ==> log[j].0 != log[p].0
    ensures log[p].0 in Replay(log) && Replay(log)[log[p].0] == log[p].1
    decreases |log|
  {
    if p < |log| - 1 {
      var init := log[..|log| - 1];
      forall j | p < j < |init|
        ensures init[j].0 != init[p].0
      {
        assert init[j] == log[j];
      }
      ReplayNewest(init, p);
      assert init[p] == log[p];
    }
  }

  /** The disk tier agrees with replaying its log: every indexed key's value is the value
      of its last frame, so the log alone reconstructs the disk tier. */
  lemma IndexReplays<K, V>(s: State<K, V>)
    requires IndexInLog(s) && IndexNewest(s)
    ensures forall k :: k in s.index ==> k in Replay(s.log) && Replay(s.log)[k] == s.log[s.index[k]].1
    ensures forall k :: k in s.index ==> DiskView(s)[k] == Replay(s.log)[k]
  {
    forall k | k in s.index
      ensures k in Replay(s.log) && Replay(s.log)[k] == s.log[s.index[k]].1
    {
      ReplayNewest(s.log, s.index[k]);
    }
  }

  /** A listing of the resident tier followed by a listing of the disk tier pairs every key
      with its value in the abstract map, and puts the resident keys first. */
  lemma ListingValues<K, V>(s: State<K, V>, rv: seq<V>, rk: seq<K>, dv: seq<V>, dk: seq<K>)
    requires IndexInLog(s) && s.resident.Keys !! s.index.Keys
    requires |rv| == |rk| == |s.resident| && |dv| == |dk|
    requires forall i :: 0 <= i < |rk| ==> rk[i] in s.resident && rv[i] == s.resident[rk[i]]
    requires forall i :: 0 <= i < |dk| ==> dk[i] in s.index && dv[i] == s.log[s.index[dk[i]]].1
    ensures forall i :: 0 <= i < |rk + dk| ==>
      (rk + dk)[i] in View(s) && (rv + dv)[i] == View(s)[(rk + dk)[i]]
    ensures forall i :: 0 <= i < |rk + dk| ==> (TierOf(s, (rk + dk)[i]) == Resident <==> i < |s.resident|)
  {
    ViewFacts(s);
    forall i | 0 <= i < |rk + dk|
      ensures (rk + dk)[i] in View(s) && (rv + dv)[i] == View(s)[(rk + dk)[i]]
      ensures TierOf(s, (rk + dk)[i]) == Resident <==> i < |s.resident|
    {
      if i < |rk| {
        assert (rk + dk)[i] == rk[i] && (rv + dv)[i] == rv[i];
      } else {
        assert (rk + dk)[i] == dk[i - |rk|];
      }
    }
  }

  /** Two duplicate-free listings of disjoint key sets concatenate to a duplicate-free listing. */
  lemma ListingDistinct<K>(a: set<K>, b: set<K>, rk: seq<K>, dk: seq<K>)
    requires a !! b
    requires forall i :: 0 <= i < |rk| ==> rk[i] in a
    requires forall i :: 0 <= i < |dk| ==> dk[i] in b
    requires forall i, j :: 0 <= i < j < |rk| ==> rk[i] != rk[j]
    requires forall i, j :: 0 <= i < j < |dk| ==> dk[i] != dk[j]
    ensures forall i, j :: 0 <= i < j < |rk + dk| ==> (rk + dk)[i] != (rk + dk)[j]
  {
    var order := rk + dk;
    forall i, j | 0 <= i < j < |order|
      ensures order[i] != order[j]
    {
      if j < |rk| {
        assert order[i] == rk[i] && order[j] == rk[j];
      } else if |rk| <= i {
        assert order[i] == dk[i - |rk|];
      } else {
        assert order[i] == rk[i];
      }
    }
  }

  /** Listings that cover two key sets concatenate to a listing that covers their union. */
  lemma ListingCovers<K>(a: set<K>, b: set<K>, rk: seq<K>, dk: seq<K>)
    requires forall k :: k in a ==> k in rk
    requires forall k :: k in b ==> k in dk
    ensures forall k :: k in a + b ==> k in rk + dk
  {
    forall k | k in a + b
      ensures k in rk + dk
    {
      if k in a {
        var i :| 0 <= i < |rk| && rk[i] == k;
        assert (rk + dk)[i] == k;
      } else {
        var i :| 0 <= i < |dk| && dk[i] == k;
        assert (rk + dk)[|rk| + i] == k;
      }
    }
  }

  /** size() counts both tiers and no key twice. */
  lemma ViewSize<K, V>(s: State<K, V>)
    requires IndexInLog(s)
    requires s.resident.Keys !! s.index.Keys
    ensures |View(s)| == |s.resident| + |s.index|
  {
    DiskViewKeys(s);
    DisjointUnionSize(s.resident.Keys, s.index.Keys);
    assert View(s).Keys == s.resident.Keys + s.index.Keys;
  }

  lemma DiskViewKeys<K, V>(s: State<K, V>)
    requires IndexInLog(s)
    ensures DiskView(s).Keys == s.index.Keys
  {
  }

  lemma DisjointUnionSize<K>(a: set<K>, b: set<K>)
    requires a !! b
    ensures |a + b| == |a| + |b|
  {
  }

  /** The resident tier never holds more keys than the budget has bytes. */
  lemma ResidentBound<K, V>(c: Config<V>, s: State<K, V>)
    requires Inv(c, s)
    ensures |s.resident| <= s.footprint <= c.threshold
  {
    CountAtMostTotal(s.charged);
    assert |s.charged.Keys| == |s.resident.Keys|;
  }

  /** Once the map holds more keys than the budget has bytes, some of them are on disk. */
  lemma SpillWhenOverBudget<K, V>(c: Config<V>, s: State<K, V>)
    requires Inv(c, s)
    requires |View(s)| > c.threshold
    ensures |s.index| > 0
  {
    ViewSize(s);
    ResidentBound(c, s);
  }

  lemma PutKeepsInv<K, V>(c: Config<V>, s: State<K, V>, k: K, v: V)
    requires Inv(c, s)
    ensures Inv(c, Put(c, s, k, v))
  {
    if k !in s.resident && k !in s.index && s.footprint + c.cost(v) <= c.threshold {
      TotalInsert(s.charged, k, c.cost(v));
    } else if k !in s.resident {
      AppendKeepsNewest(s, k, v);
    }
  }

  /** An appended frame becomes its key's newest, and overrides no other key's frame. */
  lemma AppendKeepsNewest<K, V>(s: State<K, V>, k: K, v: V)
    requires IndexInLog(s) && IndexNewest(s)
    ensures IndexInLog(Append(s, k, v)) && IndexNewest(Append(s, k, v))
  {
    var t := Append(s, k, v);
    forall j, i | j in t.index && t.index[j] < i < |t.log|
      ensures t.log[i].0 != j
    {
      assert t.index[j] == s.index[j];
      if i < |s.log| {
        assert t.log[i] == s.log[i];
      }
    }
  }

  /** A disk write of a key updates the abstract map at that key. */
  lemma AppendView<K, V>(s: State<K, V>, k: K, v: V)
    requires IndexInLog(s)
    ensures IndexInLog(Append(s, k, v))
    ensures DiskView(Append(s, k, v)) == DiskView(s)[k := v]
    ensures View(Append(s, k, v)) == View(s)[k := v]
  {
    var t := Append(s, k, v);
    forall j | j in s.index
      ensures t.log[s.index[j]] == s.log[s.index[j]]
    {
    }
    var d, e := DiskView(s), DiskView(t);
    assert e.Keys == d.Keys + {k};
    forall j | j in e
      ensures e[j] == d[k := v][j]
    {
      if j != k {
        assert t.index[j] == s.index[j];
      }
    }
    assert e == d[k := v];
    UnionUpdateRight(s.resident, d, k, v);
  }

  lemma UnionUpdateRight<K, V>(a: map<K, V>, b: map<K, V>, k: K, v: V)
    ensures a + b[k := v] == (a + b)[k := v]
  {
  }

  /** put(k, v) behaves as a map update, whichever tier takes the key. */
  lemma PutView<K, V>(c: Config<V>, s: State<K, V>, k: K, v: V)
    requires Inv(c, s)
    ensures IndexInLog(Put(c, s, k, v))
    ensures View(Put(c, s, k, v)) == View(s)[k := v]
  {
    if k in s.resident || (k !in s.index && s.footprint + c.cost(v) <= c.threshold) {
      assert DiskView(Put(c, s, k, v)) == DiskView(s);
      UnionUpdateLeft(s.resident, DiskView(s), k, v);
    } else {
      AppendView(s, k, v);
    }
  }

  lemma UnionUpdateLeft<K, V>(a: map<K, V>, b: map<K, V>, k: K, v: V)
    requires k !in b
    ensures a[k := v] + b == (a + b)[k := v]
  {
  }

  /** Routing of put: a key keeps its tier; a new key is resident exactly when its size fits.
      Every other key keeps its tier. */
  lemma PutRouting<K, V>(c: Config<V>, s: State<K, V>, k: K, v: V)
    ensures TierOf(Put(c, s, k, v), k) ==
      if TierOf(s, k) != Absent then TierOf(s, k)
      else if s.footprint + c.cost(v) <= c.threshold then Resident
      else OnDisk
    ensures forall j :: j != k ==> TierOf(Put(c, s, k, v), j) == TierOf(s, j)
  {
  }

  /** put never lowers the footprint, and raises it only by admitting a new key. */
  lemma PutFootprint<K, V>(c: Config<V>, s: State<K, V>, k: K, v: V)
    ensures Put(c, s, k, v).footprint ==
      if TierOf(s, k) == Absent && TierOf(Put(c, s, k, v), k) == Resident
      then s.footprint + c.cost(v) else s.footprint
  {
  }

  /** The log only grows: older frames are never rewritten, and a disk write puts the
      newest frame at the end, addressed by the index. */
  lemma PutAppendsOnly<K, V>(c: Config<V>, s: State<K, V>, k: K, v: V)
    ensures s.log <= Put(c, s, k, v).log
    ensures TierOf(Put(c, s, k, v), k) == OnDisk ==>
      Put(c, s, k, v).log == s.log + [(k, v)] && Put(c, s, k, v).index[k] == |s.log|
  {
  }

  lemma RemoveKeepsInv<K, V>(c: Config<V>, s: State<K, V>, k: K)
    requires Inv(c, s)
    ensures Inv(c, Remove(c, s, k))
  {
    if k in s.resident {
      TotalRemove(s.charged, k);
    }
  }

  /** remove(k) deletes k from the abstract map, whichever tier held it, and nothing else
      changes; the log keeps its frames. */
  lemma RemoveView<K, V>(c: Config<V>, s: State<K, V>, k: K)
    requires Inv(c, s)
    ensures IndexInLog(Remove(c, s, k))
    ensures View(Remove(c, s, k)) == View(s) - {k}
    ensures Remove(c, s, k).log == s.log
  {
    var t := Remove(c, s, k);
    var d := DiskView(s);
    if k in s.resident {
      DiskViewDropIndex(s, t, k);
      UnionRemoveLeft(s.resident, d, k);
    } else if k in s.index {
      DiskViewDropIndex(s, t, k);
      UnionRemoveRight(s.resident, d, k);
    }
  }

  /** Dropping a key's index entry and keeping the log drops that key from the disk tier. */
  lemma DiskViewDropIndex<K, V>(s: State<K, V>, t: State<K, V>, k: K)
    requires IndexInLog(s)
    requires t.log == s.log && t.index == s.index - {k}
    ensures IndexInLog(t) && DiskView(t) == DiskView(s) - {k}
  {
  }

  /** remove(k) takes k out of whichever tier held it and moves no other key between tiers. */
  lemma RemoveTier<K, V>(c: Config<V>, s: State<K, V>, k: K)
    requires Inv(c, s)
    ensures TierOf(Remove(c, s, k), k) == Absent
    ensures forall j :: j != k ==> TierOf(Remove(c, s, k), j) == TierOf(s, j)
  {
  }

  lemma UnionRemoveLeft<K, V>(a: map<K, V>, b: map<K, V>, k: K)
    requires k !in b
    ensures (a - {k}) + b == (a + b) - {k}
  {
  }

  lemma UnionRemoveRight<K, V>(a: map<K, V>, b: map<K, V>, k: K)
    requires k !in a
    ensures a + (b - {k}) == (a + b) - {k}
  {
  }

  /** clear() empties the abstract map and both tiers. */
  lemma ClearView<K, V>(c: Config<V>, s: State<K, V>)
    ensures Inv(c, Clear(s))
    ensures View(Clear(s)) == map[]
    ensures |Clear(s).resident| == 0 && |Clear(s).index| == 0 && Clear(s).log == []
  {
  }
}
