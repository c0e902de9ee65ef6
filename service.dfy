/**
 * The statistics facade: record a transaction, reset, and compute the window
 * statistics by evicting stale buckets and folding the rest, in whatever order
 * the map yields them, into a fresh `Statistic`.
 */
module Service {
  import opened Wrappers
  import opened Decimal
  import opened Statistics
  import opened Repository

  /**
   * The accumulator of the reduce in `getStatistics`: `statisticA` takes in
   * `statisticB`. Sums and counts add; an absent extremum on either side is
   * ignored; the average is recomputed; the timestamp stays the accumulator's.
   */
  function Combine(a: Agg, b: Agg): (r: Agg)
    ensures r.timestamp == a.timestamp
    ensures r.sum == a.sum + b.sum && r.count == a.count + b.count
    ensures r.avg == AvgOf(r.sum, r.count)
  {
    var sum := a.sum + b.sum;
    var count := a.count + b.count;
    Agg(a.timestamp, sum, AvgOf(sum, count), MaxOpt(a.max, b.max), MinOpt(a.min, b.min), count)
  }

  /**
   * The combined max is the larger of the two present maxima, ignoring an
   * absent one; the combined min likewise.
   */
  lemma CombineExtrema(a: Agg, b: Agg)
    ensures var r := Combine(a, b);
            && (r.max.None? <==> a.max.None? && b.max.None?)
            && (r.max.Some? ==> r.max == a.max || r.max == b.max)
            && (a.max.Some? ==> r.max.Some? && a.max.value <= r.max.value)
            && (b.max.Some? ==> r.max.Some? && b.max.value <= r.max.value)
            && (r.min.None? <==> a.min.None? && b.min.None?)
            && (r.min.Some? ==> r.min == a.min || r.min == b.min)
            && (a.min.Some? ==> r.min.Some? && r.min.value <= a.min.value)
            && (b.min.Some? ==> r.min.Some? && r.min.value <= b.min.value)
  {
  }

  /** The fresh `Statistic` is a left identity of the fold. */
  lemma CombineZeroLeft(a: Agg)
    requires WellFormed(a)
    ensures SameStats(Combine(Zero(), a), a) && Combine(Zero(), a).timestamp == 0
  {
  }

  /** Folding in an empty aggregate changes nothing. */
  lemma CombineZeroRight(a: Agg)
    requires WellFormed(a)
    ensures Combine(a, Zero()) == a
  {
  }

  /** The fold's combine is associative. */
  lemma CombineAssoc(a: Agg, b: Agg, c: Agg)
    ensures Combine(Combine(a, b), c) == Combine(a, Combine(b, c))
  {
  }

  /** The fold's combine is commutative except for the accumulator's timestamp. */
  lemma CombineComm(a: Agg, b: Agg)
    ensures SameStats(Combine(a, b), Combine(b, a))
  {
  }

  /** Two buckets can be folded into an accumulator in either order. */
  lemma CombineRightComm(x: Agg, a: Agg, b: Agg)
    ensures Combine(Combine(x, a), b) == Combine(Combine(x, b), a)
  {
  }

  /** Combining keeps aggregates well formed. */
  lemma CombineWellFormed(a: Agg, b: Agg)
    requires WellFormed(a) && WellFormed(b)
    ensures WellFormed(Combine(a, b))
  {
  }

  lemma {:induction false} SumOfAppend(xs: seq<real>, ys: seq<real>)
    ensures SumOf(xs + ys) == SumOf(xs) + SumOf(ys)
  {
    if ys != [] {
      assert (xs + ys)[..|xs + ys| - 1] == xs + ys[..|ys| - 1];
      SumOfAppend(xs, ys[..|ys| - 1]);
    } else {
      assert xs + ys == xs;
    }
  }

  lemma {:induction false} MaxOfAppend(xs: seq<real>, ys: seq<real>)
    ensures MaxOf(xs + ys) == MaxOpt(MaxOf(xs), MaxOf(ys))
  {
    if ys != [] {
      assert (xs + ys)[..|xs + ys| - 1] == xs + ys[..|ys| - 1];
      MaxOfAppend(xs, ys[..|ys| - 1]);
    } else {
      assert xs + ys == xs;
    }
  }

  lemma {:induction false} MinOfAppend(xs: seq<real>, ys: seq<real>)
    ensures MinOf(xs + ys) == MinOpt(MinOf(xs), MinOf(ys))
  {
    if ys != [] {
      assert (xs + ys)[..|xs + ys| - 1] == xs + ys[..|ys| - 1];
      MinOfAppend(xs, ys[..|ys| - 1]);
    } else {
      assert xs + ys == xs;
    }
  }

  /**
   * Bucketing does not matter: the combination of the aggregates of two groups
   * of amounts is the aggregate of all the amounts together.
   */
  lemma CombineSummary(xs: seq<real>, ys: seq<real>)
    ensures SameStats(Combine(Summary(xs), Summary(ys)), Summary(xs + ys))
  {
    SumOfAppend(xs, ys);
    MaxOfAppend(xs, ys);
    MinOfAppend(xs, ys);
  }

  /**
   * The same for buckets built by merging transactions: two buckets folded
   * together carry exactly what one bucket fed all their amounts would.
   */
  lemma MergedBucketsCombine(k1: int, xs: seq<real>, k2: int, ys: seq<real>, k: int)
    ensures SameStats(Combine(MergeAmounts(Zero(), k1, xs), MergeAmounts(Zero(), k2, ys)), MergeAmounts(Zero(), k, xs + ys))
  {
    MergeAmountsSummary(k1, xs);
    MergeAmountsSummary(k2, ys);
    MergeAmountsSummary(k, xs + ys);
    CombineSummary(xs, ys);
  }

  /**
   * The reduce over the buckets with keys `ks`, taking them in an arbitrary
   * order (the map's values have none), starting from a fresh `Statistic`.
   */
  ghost function ReduceKeys(m: map<int, Agg>, ks: set<int>): (r: Agg)
    requires ks <= m.Keys
    ensures r.timestamp == 0 && r.avg == AvgOf(r.sum, r.count)
    decreases ks
  {
    if ks == {} then Zero()
    else
      NonEmpty(ks);
      var k :| k in ks;
      Combine(ReduceKeys(m, ks - {k}), m[k])
  }

  /** The reduce over every bucket of the map; with no bucket it is the fresh `Statistic`. */
  ghost function Reduce(m: map<int, Agg>): (r: Agg)
    ensures r.timestamp == 0 && r.avg == AvgOf(r.sum, r.count)
    ensures m == map[] ==> r == Zero()
  {
    ReduceKeys(m, m.Keys)
  }

  /**
   * Order independence: whichever bucket is taken last, the fold gives the same
   * result as folding it into the fold of all the others.
   */
  lemma {:induction false} ReduceKeysPick(m: map<int, Agg>, ks: set<int>, k: int)
    requires ks <= m.Keys && k in ks
    ensures ReduceKeys(m, ks) == Combine(ReduceKeys(m, ks - {k}), m[k])
    decreases ks
  {
    NonEmpty(ks);
    var j :| j in ks && ReduceKeys(m, ks) == Combine(ReduceKeys(m, ks - {j}), m[j]);
    if j != k {
      var rest := ks - {j} - {k};
      assert ks - {k} - {j} == rest;
      ReduceKeysPick(m, ks - {j}, k);
      ReduceKeysPick(m, ks - {k}, j);
      CombineRightComm(ReduceKeys(m, rest), m[k], m[j]);
    }
  }

  /** The fold depends only on the buckets it folds. */
  lemma {:induction false} ReduceKeysFrame(m1: map<int, Agg>, m2: map<int, Agg>, ks: set<int>)
    requires ks <= m1.Keys && ks <= m2.Keys
    requires forall k :: k in ks ==> m1[k] == m2[k]
    ensures ReduceKeys(m1, ks) == ReduceKeys(m2, ks)
    decreases ks
  {
    if ks != {} {
      NonEmpty(ks);
      var k :| k in ks;
      ReduceKeysPick(m1, ks, k);
      ReduceKeysPick(m2, ks, k);
      ReduceKeysFrame(m1, m2, ks - {k});
    }
  }

  /**
   * Partition independence: folding two disjoint groups of buckets separately
   * and combining the results is the fold of all of them.
   */
  lemma {:induction false} ReducePartition(m: map<int, Agg>, a: set<int>, b: set<int>)
    requires a <= m.Keys && b <= m.Keys && a !! b
    ensures ReduceKeys(m, a + b) == Combine(ReduceKeys(m, a), ReduceKeys(m, b))
    decreases b
  {
    if b == {} {
      assert a + b == a;
      ReduceZeroRight(m, a);
    } else {
      NonEmpty(b);
      var k :| k in b;
      var b' := b - {k};
      assert (a + b) - {k} == a + b';
      ReduceKeysPick(m, a + b, k);
      assert ReduceKeys(m, a + b) == Combine(ReduceKeys(m, a + b'), m[k]);
      ReducePartition(m, a, b');
      assert ReduceKeys(m, a + b') == Combine(ReduceKeys(m, a), ReduceKeys(m, b'));
      ReduceKeysPick(m, b, k);
      assert ReduceKeys(m, b) == Combine(ReduceKeys(m, b'), m[k]);
      CombineAssoc(ReduceKeys(m, a), ReduceKeys(m, b'), m[k]);
    }
  }

  lemma ReduceZeroRight(m: map<int, Agg>, a: set<int>)
    requires a <= m.Keys
    ensures Combine(ReduceKeys(m, a), Zero()) == ReduceKeys(m, a)
  {
    var r := ReduceKeys(m, a);
    assert r.avg == AvgOf(r.sum, r.count);
  }

  /** The fold of a single well-formed bucket is that bucket's statistics. */
  lemma ReduceSingle(m: map<int, Agg>, k: int)
    requires k in m && WellFormed(m[k])
    ensures SameStats(ReduceKeys(m, {k}), m[k])
  {
    ReduceKeysPick(m, {k}, k);
    assert {k} - {k} == {};
    CombineZeroLeft(m[k]);
  }

  /** The fold of well-formed buckets is well formed. */
  lemma {:induction false} ReduceWellFormed(m: map<int, Agg>, ks: set<int>)
    requires ks <= m.Keys
    requires forall k :: k in ks ==> WellFormed(m[k])
    ensures WellFormed(ReduceKeys(m, ks))
    decreases ks
  {
    if ks != {} {
      NonEmpty(ks);
      var k :| k in ks;
      ReduceKeysPick(m, ks, k);
      ReduceWellFormed(m, ks - {k});
      CombineWellFormed(ReduceKeys(m, ks - {k}), m[k]);
    }
  }

  /**
   * The result's max is the largest present bucket max, ignoring absent ones,
   * and it is absent exactly when every bucket's max is absent.
   */
  lemma {:induction false} ReduceMax(m: map<int, Agg>, ks: set<int>)
    requires ks <= m.Keys
    ensures var r := ReduceKeys(m, ks);
            && (r.max.None? <==> forall k :: k in ks ==> m[k].max.None?)
            && (r.max.Some? ==> exists k :: k in ks && m[k].max == r.max)
            && (forall k :: k in ks && m[k].max.Some? ==> r.max.Some? && m[k].max.value <= r.max.value)
    decreases ks
  {
    if ks != {} {
      NonEmpty(ks);
      var k :| k in ks;
      ReduceKeysPick(m, ks, k);
      ReduceMax(m, ks - {k});
      CombineExtrema(ReduceKeys(m, ks - {k}), m[k]);
    }
  }

  /**
   * The result's min is the smallest present bucket min, ignoring absent ones,
   * and it is absent exactly when every bucket's min is absent.
   */
  lemma {:induction false} ReduceMin(m: map<int, Agg>, ks: set<int>)
    requires ks <= m.Keys
    ensures var r := ReduceKeys(m, ks);
            && (r.min.None? <==> forall k :: k in ks ==> m[k].min.None?)
            && (r.min.Some? ==> exists k :: k in ks && m[k].min == r.min)
            && (forall k :: k in ks && m[k].min.Some? ==> r.min.Some? && r.min.value <= m[k].min.value)
    decreases ks
  {
    if ks != {} {
      NonEmpty(ks);
      var k :| k in ks;
      ReduceKeysPick(m, ks, k);
      ReduceMin(m, ks - {k});
      CombineExtrema(ReduceKeys(m, ks - {k}), m[k]);
    }
  }

  /**
   * The window: after evicting against `now`, a bucket contributes to the
   * statistics exactly when `now - k < timeToKeepAlive`.
   */
  lemma WindowInclusion(m: map<int, Agg>, now: int, timeToKeepAlive: int, k: int)
    requires k in m
    ensures Live(k, now, timeToKeepAlive) ==>
              Reduce(Evicted(m, now, timeToKeepAlive)) == Combine(Reduce(Evicted(m - {k}, now, timeToKeepAlive)), m[k])
    ensures !Live(k, now, timeToKeepAlive) ==>
              Reduce(Evicted(m, now, timeToKeepAlive)) == Reduce(Evicted(m - {k}, now, timeToKeepAlive))
  {
    var e := Evicted(m, now, timeToKeepAlive);
    var e' := Evicted(m - {k}, now, timeToKeepAlive);
    if Live(k, now, timeToKeepAlive) {
      assert e'.Keys == e.Keys - {k};
      ReduceKeysPick(e, e.Keys, k);
      ReduceKeysFrame(e, e', e.Keys - {k});
    } else {
      assert e' == e;
    }
  }

  /** `getStatistics`'s accumulator lambda: sets the fields of `statisticA` in place. */
  method Accumulate(statisticA: Statistic, statisticB: Agg) returns (r: Statistic)
    modifies statisticA
    ensures r == statisticA
    ensures statisticA.Value() == Combine(old(statisticA.Value()), statisticB)
  {
    statisticA.sum := statisticA.sum + statisticB.sum;
    statisticA.count := statisticA.count + statisticB.count;
    statisticA.max := if statisticA.max.None? then statisticB.max
                      else if statisticB.max.None? then statisticA.max
                      else Some(Max(statisticA.max.value, statisticB.max.value));
    statisticA.min := if statisticA.min.None? then statisticB.min
                      else if statisticB.min.None? then statisticA.min
                      else Some(Min(statisticA.min.value, statisticB.min.value));
    statisticA.avg := if statisticA.count > 0 then RoundHalfUp2(statisticA.sum / statisticA.count as real) else 0.0;
    r := statisticA;
  }

  /**
   * The stream reduce of `getStatistics`: visits the buckets in an arbitrary
   * order, folding each into one fresh `Statistic` through `Accumulate`.
   */
  method ReduceStatistics(buckets: map<int, Agg>) returns (r: Agg)
    ensures r == Reduce(buckets)
  {
    var statistic := new Statistic();
    var pending := buckets.Keys;
    assert buckets.Keys - pending == {};
    while pending != {}
      invariant pending <= buckets.Keys
      invariant fresh(statistic)
      invariant statistic.Value() == ReduceKeys(buckets, buckets.Keys - pending)
      decreases pending
    {
      NonEmpty(pending);
      var k :| k in pending;
      var done := buckets.Keys - pending;
      assert (done + {k}) - {k} == done;
      ReduceKeysPick(buckets, done + {k}, k);
      statistic := Accumulate(statistic, buckets[k]);
      pending := pending - {k};
      assert buckets.Keys - pending == done + {k};
    }
    assert buckets.Keys - pending == buckets.Keys;
    r := statistic.Value();
  }

  /** `TransactionService`: the facade over one repository. */
  class TransactionService {
    const statisticsRepository: StatisticsRepository

    ghost predicate Valid()
      reads this, statisticsRepository
    {
      statisticsRepository.Valid()
    }

    constructor (statisticsRepository: StatisticsRepository)
      requires statisticsRepository.Valid()
      ensures Valid() && this.statisticsRepository == statisticsRepository
    {
      this.statisticsRepository := statisticsRepository;
    }

    /** `save`: hands the transaction to the store with the current second. */
    method Save(transaction: Transaction, now: int)
      requires Valid()
      modifies statisticsRepository
      ensures Valid()
      ensures statisticsRepository.statistics
           == Saved(old(statisticsRepository.statistics), transaction, now, statisticsRepository.timeToKeepAlive)
    {
      statisticsRepository.Save(transaction, now);
    }

    /**
     * `getStatistics`: evicts against `now`, then folds every remaining bucket
     * into a fresh `Statistic`. The buckets themselves are not changed.
     */
    method GetStatistics(now: int) returns (r: Agg)
      requires Valid()
      modifies statisticsRepository
      ensures Valid()
      ensures statisticsRepository.statistics
           == Evicted(old(statisticsRepository.statistics), now, statisticsRepository.timeToKeepAlive)
      ensures r == Reduce(statisticsRepository.statistics)
      ensures WellFormed(r)
    {
      statisticsRepository.CleanOldStatistics(now);
      var buckets := statisticsRepository.GetStatistics();
      r := ReduceStatistics(buckets);
      ReduceWellFormed(buckets, buckets.Keys);
    }

    /** `deleteStatistics`: clears the store. */
    method DeleteStatistics()
      requires Valid()
      modifies statisticsRepository
      ensures Valid()
      ensures statisticsRepository.statistics == map[]
    {
      statisticsRepository.CleanAllStatistics();
    }
  }
}
