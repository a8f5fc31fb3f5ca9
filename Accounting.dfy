/**
 * Size accounting of the resident tier. Every resident key is booked with the
 * estimated size it was admitted with; the tracked footprint is the total of
 * those bookings.
 */
module Accounting {

  /** Estimated footprint of one entry in bytes; an estimator never answers 0. */
  type Size = n: nat | 0 < n witness 1

  /** Sum of all bookings in `m`. */
  ghost function Total<K>(m: map<K, Size>): nat
    decreases |m|
  {
    if m == map[] then 0
    else
      var k :| k in m;
      m[k] + Total(m - {k})
  }

  /** Taking any one key out of the bookings lowers the total by exactly its booking. */
  lemma {:induction false} TotalRemove<K>(m: map<K, Size>, k: K)
    requires k in m
    ensures Total(m) == m[k] + Total(m - {k})
    decreases |m|
  {
    var j :| j in m && Total(m) == m[j] + Total(m - {j});
    if j != k {
      TotalRemove(m - {j}, k);
      TotalRemove(m - {k}, j);
      assert m - {j} - {k} == m - {k} - {j};
    }
  }

  /** Booking a new key raises the total by exactly its booking. */
  lemma TotalInsert<K>(m: map<K, Size>, k: K, c: Size)
    requires k !in m
    ensures Total(m[k := c]) == Total(m) + c
  {
    TotalRemove(m[k := c], k);
    assert m[k := c] - {k} == m;
  }

  /** Every booking is at least one byte, so the total bounds the number of booked keys. */
  lemma {:induction false} CountAtMostTotal<K>(m: map<K, Size>)
    ensures |m| <= Total(m)
    decreases |m|
  {
    if m != map[] {
      var k :| k in m;
      TotalRemove(m, k);
      CountAtMostTotal(m - {k});
    }
  }
}
