/**
 * Runs of put: a sequence of (key, value) upserts applied to the map one after
 * the other, as the record-merge path and its tests feed it. A run is compared
 * with the same upserts applied to a plain map.
 */
module SpillableRuns {
  import opened Accounting
  import opened SpillableState

  /** Applies the upserts `es` in order. */
  function PutAll<K, V>(c: Config<V>, s: State<K, V>, es: seq<(K, V)>): State<K, V>
    decreases |es|
  {
    if es == [] then s
    else
      var last := es[|es| - 1];
      Put(c, PutAll(c, s, es[..|es| - 1]), last.0, last.1)
  }

  /** Reference definition: the same upserts applied to a plain map. */
  function Upserted<K, V>(m: map<K, V>, es: seq<(K, V)>): map<K, V>
    decreases |es|
  {
    if es == [] then m
    else
      var last := es[|es| - 1];
      Upserted(m, es[..|es| - 1])[last.0 := last.1]
  }

  /** The keys a run of upserts mentions. */
  function RunKeys<K, V>(es: seq<(K, V)>): set<K> {
    set i | 0 <= i < |es| :: es[i].0
  }

  ghost predicate DistinctKeys<K, V>(es: seq<(K, V)>) {
    forall i, j :: 0 <= i < j < |es| ==> es[i].0 != es[j].0
  }

  /** No key of `es` is in the map yet. */
  ghost predicate FreshKeys<K, V>(s: State<K, V>, es: seq<(K, V)>) {
    forall i :: 0 <= i < |es| ==> TierOf(s, es[i].0) == Absent
  }

  lemma PutAllSnoc<K, V>(c: Config<V>, s: State<K, V>, es: seq<(K, V)>, e: (K, V))
    ensures PutAll(c, s, es + [e]) == Put(c, PutAll(c, s, es), e.0, e.1)
  {
    assert (es + [e])[..|es|] == es;
  }

  /** One more step of a run: the prefix of length i + 1 is the prefix of length i, then entry i. */
  lemma PutAllStep<K, V>(c: Config<V>, s: State<K, V>, es: seq<(K, V)>, i: nat)
    requires i < |es|
    ensures PutAll(c, s, es[..i + 1]) == Put(c, PutAll(c, s, es[..i]), es[i].0, es[i].1)
  {
    assert es[..i + 1] == es[..i] + [es[i]];
    PutAllSnoc(c, s, es[..i], es[i]);
  }

  lemma {:induction false} PutAllKeepsInv<K, V>(c: Config<V>, s: State<K, V>, es: seq<(K, V)>)
    requires Inv(c, s)
    ensures Inv(c, PutAll(c, s, es))
    decreases |es|
  {
    if es != [] {
      PutAllKeepsInv(c, s, es[..|es| - 1]);
      PutKeepsInv(c, PutAll(c, s, es[..|es| - 1]), es[|es| - 1].0, es[|es| - 1].1);
    }
  }

  /** A run of puts on the two-tier map has the effect of the same upserts on a plain map. */
  lemma {:induction false} PutAllView<K, V>(c: Config<V>, s: State<K, V>, es: seq<(K, V)>)
    requires Inv(c, s)
    ensures Inv(c, PutAll(c, s, es))
    ensures View(PutAll(c, s, es)) == Upserted(View(s), es)
    decreases |es|
  {
    PutAllKeepsInv(c, s, es);
    if es != [] {
      PutAllView(c, s, es[..|es| - 1]);
      PutView(c, PutAll(c, s, es[..|es| - 1]), es[|es| - 1].0, es[|es| - 1].1);
    }
  }

  /** After upserts with distinct keys, the plain map holds the old keys and every upserted
      key, each with the value it was upserted with. */
  lemma {:induction false} UpsertedDistinct<K, V>(m: map<K, V>, es: seq<(K, V)>)
    requires DistinctKeys(es)
    ensures Upserted(m, es).Keys == m.Keys + RunKeys(es)
    ensures forall i :: 0 <= i < |es| ==> Upserted(m, es)[es[i].0] == es[i].1
    ensures forall k :: k in m && k !in RunKeys(es) ==> Upserted(m, es)[k] == m[k]
    decreases |es|
  {
    if es != [] {
      var init := es[..|es| - 1];
      UpsertedDistinct(m, init);
      assert es == init + [es[|es| - 1]];
      assert RunKeys(es) == RunKeys(init) + {es[|es| - 1].0};
      forall i | 0 <= i < |es|
        ensures Upserted(m, es)[es[i].0] == es[i].1
      {
        if i < |es| - 1 {
          assert init[i] == es[i];
        }
      }
    }
  }

  /** Distinct keys: the run has as many keys as entries. */
  lemma {:induction false} DistinctKeyCount<K, V>(es: seq<(K, V)>)
    requires DistinctKeys(es)
    ensures |RunKeys(es)| == |es|
    decreases |es|
  {
    if es != [] {
      var init := es[..|es| - 1];
      var last := es[|es| - 1];
      DistinctKeyCount(init);
      assert es == init + [last];
      assert RunKeys(es) == RunKeys(init) + {last.0};
      forall j | 0 <= j < |init|
        ensures init[j].0 != last.0
      {
        assert init[j] == es[j];
      }
      assert last.0 !in RunKeys(init);
    }
  }

  /** Re-upserting, in the same order, new values for exactly the keys a map already holds
      keeps its key set and leaves every key with its new value. */
  lemma UpsertedSameKeys<K, V>(m: map<K, V>, es: seq<(K, V)>, fs: seq<(K, V)>)
    requires DistinctKeys(es) && m.Keys == RunKeys(es)
    requires |fs| == |es| && forall i :: 0 <= i < |es| ==> fs[i].0 == es[i].0
    ensures Upserted(m, fs).Keys == m.Keys
    ensures forall i :: 0 <= i < |fs| ==> fs[i].0 in Upserted(m, fs) && Upserted(m, fs)[fs[i].0] == fs[i].1
  {
    SameKeysDistinct(es, fs);
    UpsertedDistinct(m, fs);
  }

  /** A run with the keys of a distinct run, position by position, is distinct with the same key set. */
  lemma SameKeysDistinct<K, V>(es: seq<(K, V)>, fs: seq<(K, V)>)
    requires DistinctKeys(es)
    requires |fs| == |es| && forall i :: 0 <= i < |es| ==> fs[i].0 == es[i].0
    ensures DistinctKeys(fs) && RunKeys(fs) == RunKeys(es)
  {
  }

  /** Upserting distinct keys none of which is present grows the map by one entry per key. */
  lemma PutAllFreshSize<K, V>(c: Config<V>, s: State<K, V>, es: seq<(K, V)>)
    requires Inv(c, s)
    requires DistinctKeys(es) && FreshKeys(s, es)
    ensures Inv(c, PutAll(c, s, es))
    ensures |View(PutAll(c, s, es))| == |View(s)| + |es|
  {
    PutAllView(c, s, es);
    UpsertedDistinct(View(s), es);
    DistinctKeyCount(es);
    forall k | k in RunKeys(es)
      ensures k !in View(s)
    {
      var i :| 0 <= i < |es| && es[i].0 == k;
      ViewLookup(s, es[i].0);
    }
    assert View(s).Keys !! RunKeys(es);
    assert |View(s).Keys + RunKeys(es)| == |View(s).Keys| + |RunKeys(es)|;
  }

  /** A run of puts never takes a key out of its tier, and a key the run does not mention
      keeps its tier too. */
  lemma {:induction false} PutAllTier<K, V>(c: Config<V>, s: State<K, V>, es: seq<(K, V)>, k: K)
    ensures TierOf(s, k) != Absent ==> TierOf(PutAll(c, s, es), k) == TierOf(s, k)
    ensures k !in RunKeys(es) ==> TierOf(PutAll(c, s, es), k) == TierOf(s, k)
    decreases |es|
  {
    if es != [] {
      var init := es[..|es| - 1];
      assert es == init + [es[|es| - 1]];
      assert RunKeys(es) == RunKeys(init) + {es[|es| - 1].0};
      PutAllTier(c, s, init, k);
      PutRouting(c, PutAll(c, s, init), es[|es| - 1].0, es[|es| - 1].1);
    }
  }

  /** The footprint never decreases along a run of puts. */
  lemma {:induction false} PutAllFootprint<K, V>(c: Config<V>, s: State<K, V>, es: seq<(K, V)>)
    ensures PutAll(c, s, es).footprint >= s.footprint
    decreases |es|
  {
    if es != [] {
      PutAllFootprint(c, s, es[..|es| - 1]);
      PutFootprint(c, PutAll(c, s, es[..|es| - 1]), es[|es| - 1].0, es[|es| - 1].1);
    }
  }

  /** Running a concatenation is running its parts one after the other. */
  lemma {:induction false} PutAllConcat<K, V>(c: Config<V>, s: State<K, V>, a: seq<(K, V)>, b: seq<(K, V)>)
    ensures PutAll(c, s, a + b) == PutAll(c, PutAll(c, s, a), b)
    decreases |b|
  {
    if b == [] {
      assert a + b == a;
    } else {
      var init := b[..|b| - 1];
      assert a + b == (a + init) + [b[|b| - 1]];
      assert b == init + [b[|b| - 1]];
      PutAllSnoc(c, s, a + init, b[|b| - 1]);
      PutAllSnoc(c, PutAll(c, s, a), init, b[|b| - 1]);
      PutAllConcat(c, s, a, init);
    }
  }

  /** Where entry i of a run of fresh, distinct keys ends up is decided when it is put:
      resident exactly when its size fits the footprint reached by the entries before it. */
  lemma EntryTier<K, V>(c: Config<V>, s: State<K, V>, es: seq<(K, V)>, i: nat)
    requires DistinctKeys(es) && FreshKeys(s, es)
    requires i < |es|
    ensures TierOf(PutAll(c, s, es), es[i].0) ==
      if PutAll(c, s, es[..i]).footprint + c.cost(es[i].1) <= c.threshold then Resident else OnDisk
  {
    var before := PutAll(c, s, es[..i]);
    var rest := es[i + 1..];
    assert es == es[..i] + [es[i]] + rest;
    PutAllConcat(c, s, es[..i] + [es[i]], rest);
    PutAllSnoc(c, s, es[..i], es[i]);
    assert es[i].0 !in RunKeys(es[..i]) by {
      forall j | 0 <= j < i
        ensures es[..i][j].0 != es[i].0
      {
        assert es[..i][j] == es[j];
      }
    }
    PutAllTier(c, s, es[..i], es[i].0);
    PutRouting(c, before, es[i].0, es[i].1);
    var after := Put(c, before, es[i].0, es[i].1);
    assert es[i].0 !in RunKeys(rest) by {
      forall j | 0 <= j < |rest|
        ensures rest[j].0 != es[i].0
      {
        assert es[i + 1 + j] == rest[j];
      }
    }
    PutAllTier(c, after, rest, es[i].0);
  }

  /** Into an empty map, the first key of a run stays resident exactly when its own size fits the budget. */
  lemma FirstEntryTier<K, V>(c: Config<V>, es: seq<(K, V)>)
    requires DistinctKeys(es) && |es| > 0
    ensures TierOf(PutAll(c, Empty(), es), es[0].0) ==
      if c.cost(es[0].1) <= c.threshold then Resident else OnDisk
  {
    EntryTier(c, Empty(), es, 0);
    assert es[..0] == [];
  }

  /** Spilling is sticky: once an entry of a run has gone to disk, every later new entry that
      is at least as large goes to disk as well (there is no demotion and no eviction). */
  lemma SpillIsSticky<K, V>(c: Config<V>, s: State<K, V>, es: seq<(K, V)>, i: nat, j: nat)
    requires DistinctKeys(es) && FreshKeys(s, es)
    requires i < j < |es|
    requires c.cost(es[i].1) <= c.cost(es[j].1)
    requires TierOf(PutAll(c, s, es), es[i].0) == OnDisk
    ensures TierOf(PutAll(c, s, es), es[j].0) == OnDisk
  {
    EntryTier(c, s, es, i);
    EntryTier(c, s, es, j);
    PrefixFootprint(c, s, es, i, j);
  }

  /** The footprint reached by a longer prefix of a run is at least that of a shorter one. */
  lemma PrefixFootprint<K, V>(c: Config<V>, s: State<K, V>, es: seq<(K, V)>, i: nat, j: nat)
    requires i <= j <= |es|
    ensures PutAll(c, s, es[..i]).footprint <= PutAll(c, s, es[..j]).footprint
  {
    assert es[..j] == es[..i] + es[i..j];
    PutAllConcat(c, s, es[..i], es[i..j]);
    PutAllFootprint(c, PutAll(c, s, es[..i]), es[i..j]);
  }

  /** Upserting more fresh keys than the budget has bytes into an empty map spills one of the
      first threshold + 1 of them. */
  lemma EarlySpill<K, V>(c: Config<V>, es: seq<(K, V)>)
    requires DistinctKeys(es) && |es| > c.threshold
    ensures exists i :: 0 <= i <= c.threshold && TierOf(PutAll(c, Empty(), es), es[i].0) == OnDisk
  {
    var p := es[..c.threshold + 1];
    var rest := es[c.threshold + 1..];
    assert es == p + rest;
    assert DistinctKeys(p) by {
      forall i, j | 0 <= i < j < |p|
        ensures p[i].0 != p[j].0
      {
        assert p[i] == es[i];
      }
    }
    EmptyIsValid<K, V>(c);
    var mid := PutAll(c, Empty(), p);
    PutAllFreshSize(c, Empty(), p);
    SpillWhenOverBudget(c, mid);
    var k :| k in mid.index;
    PutAllView(c, Empty(), p);
    UpsertedDistinct(map[], p);
    ViewLookup(mid, k);
    var i :| 0 <= i < |p| && p[i].0 == k;
    assert es[i].0 == k;
    assert TierOf(mid, k) == OnDisk;
    PutAllConcat(c, Empty(), p, rest);
    PutAllTier(c, mid, rest, k);
  }

  /** When every entry has the same estimated size, as with one frozen per-entry estimate, the
      entries after the first threshold + 1 all go to disk: early keys stay resident, later keys
      spill. */
  lemma UniformTailSpills<K, V>(c: Config<V>, es: seq<(K, V)>)
    requires DistinctKeys(es) && |es| > c.threshold
    requires forall i :: 0 <= i < |es| ==> c.cost(es[i].1) == c.cost(es[0].1)
    ensures forall j :: c.threshold < j < |es| ==> TierOf(PutAll(c, Empty(), es), es[j].0) == OnDisk
  {
    EarlySpill(c, es);
    var i :| 0 <= i <= c.threshold && TierOf(PutAll(c, Empty(), es), es[i].0) == OnDisk;
    forall j | c.threshold < j < |es|
      ensures TierOf(PutAll(c, Empty(), es), es[j].0) == OnDisk
    {
      SpillIsSticky(c, Empty(), es, i, j);
    }
  }
}
