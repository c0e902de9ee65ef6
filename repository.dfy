/**
 * The bucket store: a map from epoch-second key to the aggregate of the
 * transactions of that second, with merge-on-insert, eviction of buckets that
 * have left the retention window, and a full clear.
 */
module Repository {
  import opened Wrappers
  import opened Decimal
  import opened Statistics

  /**
   * `updateStatistic` on a value: the bucket after one more transaction. Its
   * sum and count grow by the amount and by one, its key becomes the
   * transaction's, its extrema take in the amount, and its average is
   * recomputed from the new sum and count.
   */
  function Merged(a: Agg, tx: Transaction): (r: Agg)
    requires a.count >= 0
    ensures r.timestamp == tx.timestamp
    ensures r.sum == a.sum + tx.amount && r.count == a.count + 1
    ensures r.max.Some? && tx.amount <= r.max.value
    ensures a.max.Some? ==> a.max.value <= r.max.value
    ensures r.max.value == tx.amount || r.max == a.max
    ensures r.min.Some? && r.min.value <= tx.amount
    ensures a.min.Some? ==> r.min.value <= a.min.value
    ensures r.min.value == tx.amount || r.min == a.min
    ensures r.avg == AvgOf(r.sum, r.count)
  {
    var sum := a.sum + tx.amount;
    var max := if a.max.Some? then Max(a.max.value, tx.amount) else tx.amount;
    var min := if a.min.Some? then Min(a.min.value, tx.amount) else tx.amount;
    var count := a.count + 1;
    Agg(tx.timestamp, sum, AvgOf(sum, count), Some(max), Some(min), count)
  }

  /** Merging keeps an aggregate well formed and makes it non-empty. */
  lemma MergedWellFormed(a: Agg, tx: Transaction)
    requires WellFormed(a)
    ensures WellFormed(Merged(a, tx)) && Merged(a, tx).count >= 1
  {
  }

  /** Merging a list of amounts, in order, into one bucket with key `k`. */
  function MergeAmounts(a: Agg, k: int, amounts: seq<real>): (r: Agg)
    requires a.count >= 0
    ensures r.count == a.count + |amounts|
  {
    if amounts == [] then a
    else Merged(MergeAmounts(a, k, amounts[..|amounts| - 1]), Transaction(amounts[|amounts| - 1], k))
  }

  /**
   * No amount is lost: merging amounts into an empty bucket gives exactly the
   * sum, count, extrema and average the amounts themselves have.
   */
  lemma {:induction false} MergeAmountsSummary(k: int, amounts: seq<real>)
    ensures SameStats(MergeAmounts(Zero(), k, amounts), Summary(amounts))
  {
    if amounts != [] {
      MergeAmountsSummary(k, amounts[..|amounts| - 1]);
    }
  }

  /** The eviction predicate of `cleanOldStatistics`: a bucket `k` survives `now`. */
  predicate Live(k: int, now: int, timeToKeepAlive: int) {
    now - k < timeToKeepAlive
  }

  /** `cleanOldStatistics` on a value: keep exactly the live buckets, unchanged. */
  function Evicted(m: map<int, Agg>, now: int, timeToKeepAlive: int): (r: map<int, Agg>)
    ensures forall k :: k in r <==> k in m && Live(k, now, timeToKeepAlive)
    ensures forall k :: k in r ==> r[k] == m[k]
  {
    map k | k in m && Live(k, now, timeToKeepAlive) :: m[k]
  }

  /**
   * The map part-way through `removeIf`: the keys still `pending` have not been
   * looked at yet; of the others only the live ones remain.
   */
  function Kept(m: map<int, Agg>, pending: set<int>, now: int, timeToKeepAlive: int): map<int, Agg> {
    map k | k in m && (k in pending || Live(k, now, timeToKeepAlive)) :: m[k]
  }

  lemma KeptAll(m: map<int, Agg>, now: int, timeToKeepAlive: int)
    ensures Kept(m, m.Keys, now, timeToKeepAlive) == m
  {
  }

  lemma KeptNone(m: map<int, Agg>, now: int, timeToKeepAlive: int)
    ensures Kept(m, {}, now, timeToKeepAlive) == Evicted(m, now, timeToKeepAlive)
  {
  }

  /** Looking at one pending key removes it exactly when it is not live. */
  lemma KeptStep(m: map<int, Agg>, pending: set<int>, k: int, now: int, timeToKeepAlive: int)
    requires k in pending
    ensures Kept(m, pending - {k}, now, timeToKeepAlive)
         == if Live(k, now, timeToKeepAlive) then Kept(m, pending, now, timeToKeepAlive)
            else Kept(m, pending, now, timeToKeepAlive) - {k}
  {
  }

  /** A non-empty key set has a key to pick. */
  lemma NonEmpty(s: set<int>)
    requires s != {}
    ensures exists k :: k in s
  {
    if forall k :: k !in s {
      assert false;
    }
  }

  /** `ConcurrentHashMap.merge` as the store calls it: a fresh bucket or an updated one. */
  function Merge(m: map<int, Agg>, tx: Transaction): map<int, Agg>
    requires forall k :: k in m ==> m[k].count >= 0
  {
    var k := tx.timestamp;
    m[k := if k in m then Merged(m[k], tx) else Merged(Zero(), tx)]
  }

  /** `save` on a value: evict against `now`, then merge into bucket `tx.timestamp`. */
  function Saved(m: map<int, Agg>, tx: Transaction, now: int, timeToKeepAlive: int): map<int, Agg>
    requires forall k :: k in m ==> m[k].count >= 0
  {
    Merge(Evicted(m, now, timeToKeepAlive), tx)
  }

  /**
   * `merge` is an upsert: the key gains the transaction, merged into its
   * bucket when there is one and into a fresh `Statistic` otherwise; every
   * other bucket is kept as it was.
   */
  lemma MergeUpserts(m: map<int, Agg>, tx: Transaction)
    requires forall k :: k in m ==> m[k].count >= 0
    ensures var r := Merge(m, tx);
            && r.Keys == m.Keys + {tx.timestamp}
            && r[tx.timestamp] == Merged(if tx.timestamp in m then m[tx.timestamp] else Zero(), tx)
            && forall j :: j in m && j != tx.timestamp ==> r[j] == m[j]
  {
  }

  /**
   * `save` evicts first and merges second: the transaction's bucket is the
   * merge into its old bucket only when that bucket survived the eviction,
   * and the key set is the surviving keys plus the transaction's.
   */
  lemma SavedEvictsThenMerges(m: map<int, Agg>, tx: Transaction, now: int, timeToKeepAlive: int)
    requires forall k :: k in m ==> m[k].count >= 0
    ensures var r := Saved(m, tx, now, timeToKeepAlive);
            var k := tx.timestamp;
            && r.Keys == Evicted(m, now, timeToKeepAlive).Keys + {k}
            && r[k] == Merged(if k in m && Live(k, now, timeToKeepAlive) then m[k] else Zero(), tx)
  {
  }

  /** The store invariant: each bucket is well formed, non-empty and carries its own key. */
  predicate Buckets(m: map<int, Agg>) {
    forall k :: k in m ==> m[k].timestamp == k && m[k].count >= 1 && WellFormed(m[k])
  }

  /** Eviction keeps the store invariant. */
  lemma EvictedBuckets(m: map<int, Agg>, now: int, timeToKeepAlive: int)
    requires Buckets(m)
    ensures Buckets(Evicted(m, now, timeToKeepAlive))
  {
  }

  /** Eviction is idempotent: a second pass with the same `now` removes nothing. */
  lemma EvictedIdempotent(m: map<int, Agg>, now: int, timeToKeepAlive: int)
    ensures Evicted(Evicted(m, now, timeToKeepAlive), now, timeToKeepAlive) == Evicted(m, now, timeToKeepAlive)
  {
  }

  /** Eviction removes nothing from a map whose buckets are all live. */
  lemma EvictedAllLive(m: map<int, Agg>, now: int, timeToKeepAlive: int)
    requires forall k :: k in m ==> Live(k, now, timeToKeepAlive)
    ensures Evicted(m, now, timeToKeepAlive) == m
  {
  }

  /** An eviction at a later time subsumes one at an earlier time. */
  lemma EvictedLater(m: map<int, Agg>, now1: int, now2: int, timeToKeepAlive: int)
    requires now1 <= now2
    ensures Evicted(Evicted(m, now1, timeToKeepAlive), now2, timeToKeepAlive) == Evicted(m, now2, timeToKeepAlive)
  {
  }

  /**
   * Save keeps the store invariant, and bucket `tx.timestamp` is present
   * afterwards even when it is itself outside the window.
   */
  lemma SavedBuckets(m: map<int, Agg>, tx: Transaction, now: int, timeToKeepAlive: int)
    requires Buckets(m)
    ensures Buckets(Saved(m, tx, now, timeToKeepAlive))
    ensures tx.timestamp in Saved(m, tx, now, timeToKeepAlive)
  {
    var e := Evicted(m, now, timeToKeepAlive);
    var k := tx.timestamp;
    MergedWellFormed(if k in e then e[k] else Zero(), tx);
  }

  /**
   * The bucket that save touches: its count is one more than the surviving
   * bucket's, or one when the key was absent or has just been evicted; its sum
   * grows by the amount in the same way.
   */
  lemma SavedBucket(m: map<int, Agg>, tx: Transaction, now: int, timeToKeepAlive: int)
    requires Buckets(m)
    ensures var r := Saved(m, tx, now, timeToKeepAlive);
            var k := tx.timestamp;
            var kept := k in m && Live(k, now, timeToKeepAlive);
            && k in r
            && r[k].count == (if kept then m[k].count + 1 else 1)
            && r[k].sum == (if kept then m[k].sum else 0.0) + tx.amount
  {
  }

  /** Save changes no bucket but its own: every other key is evicted or untouched. */
  lemma SavedOthers(m: map<int, Agg>, tx: Transaction, now: int, timeToKeepAlive: int)
    requires Buckets(m)
    ensures var r := Saved(m, tx, now, timeToKeepAlive);
            forall j :: j != tx.timestamp ==>
              (j in r <==> j in m && Live(j, now, timeToKeepAlive)) && (j in r ==> r[j] == m[j])
  {
  }

  /** The map after saving `amounts`, in order, into bucket `k` with the clock at `now`. */
  function SaveAll(m: map<int, Agg>, k: int, amounts: seq<real>, now: int, timeToKeepAlive: int): (r: map<int, Agg>)
    requires Buckets(m)
    ensures Buckets(r)
  {
    if amounts == [] then m
    else
      var before := SaveAll(m, k, amounts[..|amounts| - 1], now, timeToKeepAlive);
      SavedBuckets(before, Transaction(amounts[|amounts| - 1], k), now, timeToKeepAlive);
      Saved(before, Transaction(amounts[|amounts| - 1], k), now, timeToKeepAlive)
  }

  /**
   * Saving several transactions into one live bucket, one after the other,
   * loses none of them: the bucket is the old one with every amount merged in,
   * and the other buckets are only evicted.
   */
  lemma {:induction false} SaveAllSameKey(m: map<int, Agg>, k: int, amounts: seq<real>, now: int, timeToKeepAlive: int)
    requires Buckets(m)
    requires Live(k, now, timeToKeepAlive)
    requires amounts != []
    ensures var r := SaveAll(m, k, amounts, now, timeToKeepAlive);
            && k in r
            && r[k] == MergeAmounts(if k in m then m[k] else Zero(), k, amounts)
            && forall j :: j != k ==> (j in r <==> j in m && Live(j, now, timeToKeepAlive)) && (j in r ==> r[j] == m[j])
  {
    var p := amounts[..|amounts| - 1];
    var tx := Transaction(amounts[|amounts| - 1], k);
    var start := if k in m then m[k] else Zero();
    var before := SaveAll(m, k, p, now, timeToKeepAlive);
    if p == [] {
      assert before == m;
      assert MergeAmounts(start, k, p) == start;
    } else {
      SaveAllSameKey(m, k, p, now, timeToKeepAlive);
    }
    assert k in before <==> k in m || p != [];
    assert k in before ==> before[k] == MergeAmounts(start, k, p);
  }

  /**
   * The only state of `StatisticsRepositoryImpl`: the bucket map (a
   * `ConcurrentHashMap` in the source, here updated sequentially) and the
   * retention window in seconds.
   */
  class StatisticsRepository {
    var statistics: map<int, Agg>
    const timeToKeepAlive: int

    predicate Valid()
      reads this
    {
      Buckets(statistics)
    }

    constructor (timeToKeepAlive: int)
      ensures Valid()
      ensures statistics == map[] && this.timeToKeepAlive == timeToKeepAlive
    {
      statistics := map[];
      this.timeToKeepAlive := timeToKeepAlive;
    }

    /** `cleanAllStatistics`: the map is empty afterwards. */
    method CleanAllStatistics()
      modifies this
      ensures Valid()
      ensures statistics == map[]
    {
      statistics := map[];
    }

    /** `getStatistics`: the buckets as they stand. */
    method GetStatistics() returns (m: map<int, Agg>)
      requires Valid()
      ensures m == statistics && Buckets(m)
    {
      m := statistics;
    }

    /** `save`: evict against `currentTime`, then merge the transaction into its bucket. */
    method Save(transaction: Transaction, currentTime: int)
      requires Valid()
      modifies this
      ensures Valid()
      ensures statistics == Saved(old(statistics), transaction, currentTime, timeToKeepAlive)
    {
      SavedBuckets(statistics, transaction, currentTime, timeToKeepAlive);
      CleanOldStatistics(currentTime);
      var k := transaction.timestamp;
      var created := Merged(Zero(), transaction);
      statistics := statistics[k := if k in statistics then Merged(statistics[k], transaction) else created];
    }

    /**
     * `cleanOldStatistics`: `removeIf` over the key set, dropping each key `k`
     * with `currentTime - k >= timeToKeepAlive` and keeping the rest unchanged.
     */
    method CleanOldStatistics(currentTime: int)
      requires Valid()
      modifies this
      ensures Valid()
      ensures statistics == Evicted(old(statistics), currentTime, timeToKeepAlive)
    {
      var pending := statistics.Keys;
      KeptAll(statistics, currentTime, timeToKeepAlive);
      while pending != {}
        invariant statistics == Kept(old(statistics), pending, currentTime, timeToKeepAlive)
        decreases pending
      {
        NonEmpty(pending);
        var k :| k in pending;
        KeptStep(old(statistics), pending, k, currentTime, timeToKeepAlive);
        if currentTime - k >= timeToKeepAlive {
          statistics := statistics - {k};
        }
        pending := pending - {k};
      }
      KeptNone(old(statistics), currentTime, timeToKeepAlive);
      EvictedBuckets(old(statistics), currentTime, timeToKeepAlive);
    }

    /**
     * `updateStatistic`: merges the transaction into the given `Statistic` in
     * place, through its setters, and returns that same object.
     */
    method UpdateStatistic(transaction: Transaction, statistic: Statistic) returns (r: Statistic)
      requires statistic.count >= 0
      modifies statistic
      ensures r == statistic
      ensures statistic.Value() == Merged(old(statistic.Value()), transaction)
    {
      statistic.timestamp := transaction.timestamp;
      statistic.sum := statistic.sum + transaction.amount;
      statistic.max := Some(if statistic.max.Some? then Max(statistic.max.value, transaction.amount) else transaction.amount);
      statistic.min := Some(if statistic.min.Some? then Min(statistic.min.value, transaction.amount) else transaction.amount);
      statistic.count := statistic.count + 1;
      statistic.avg := AvgOf(statistic.sum, statistic.count);
      r := statistic;
    }
  }
}
