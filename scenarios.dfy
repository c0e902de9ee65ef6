/**
 * End-to-end outcomes of the store and the service on the situations the
 * repository's own tests describe, derived from the general model.
 */
module Scenarios {
  import opened Wrappers
  import opened Decimal
  import opened Statistics
  import opened Repository
  import opened Service
  import opened Converter

  /** The amounts `lo`, `lo + 1`, ..., `lo + n - 1`. */
  function Ramp(lo: int, n: nat): (r: seq<real>)
    ensures |r| == n
    ensures forall i :: 0 <= i < n ==> r[i] == (lo + i) as real
  {
    if n == 0 then [] else Ramp(lo, n - 1) + [(lo + n - 1) as real]
  }

  /** Twice the sum of a ramp, in closed form. */
  function RampDouble(lo: int, n: nat): int {
    n * (2 * lo + n - 1)
  }

  lemma RampDoubleStep(lo: int, n: nat)
    requires n > 0
    ensures RampDouble(lo, n) == RampDouble(lo, n - 1) + 2 * (lo + n - 1)
  {
    var m := n - 1;
    assert n * (2 * lo + n - 1) == (m + 1) * (2 * lo + m);
    assert (m + 1) * (2 * lo + m) == m * (2 * lo + m) + (2 * lo + m);
    assert m * (2 * lo + m) == m * (2 * lo + m - 1) + m;
  }

  lemma {:induction false} RampSum(lo: int, n: nat)
    ensures 2.0 * SumOf(Ramp(lo, n)) == RampDouble(lo, n) as real
  {
    if n > 0 {
      RampSum(lo, n - 1);
      RampDoubleStep(lo, n);
      assert Ramp(lo, n)[..n - 1] == Ramp(lo, n - 1);
      assert SumOf(Ramp(lo, n)) == SumOf(Ramp(lo, n - 1)) + (lo + n - 1) as real;
    }
  }

  lemma {:induction false} RampExtrema(lo: int, n: nat)
    requires n > 0
    ensures MaxOf(Ramp(lo, n)) == Some((lo + n - 1) as real)
    ensures MinOf(Ramp(lo, n)) == Some(lo as real)
  {
    if n > 1 {
      RampExtrema(lo, n - 1);
    }
    assert Ramp(lo, n)[..n - 1] == Ramp(lo, n - 1);
  }

  /** The store and the service report zeros when nothing is stored, including right after a delete. */
  lemma EmptyRead(now: int, timeToKeepAlive: int)
    ensures Reduce(Evicted(map[], now, timeToKeepAlive)) == Zero()
    ensures AsStatisticDTO(Some(ViewOf(Reduce(Evicted(map[], now, timeToKeepAlive)))))
         == Success(StatisticDTO(0.0, 0.0, 0.0, 0.0, 0))
  {
    assert Evicted(map[], now, timeToKeepAlive) == map[];
    EmptyStatisticDTO();
  }

  /** One save into an empty store creates exactly one bucket, whose sum is the amount. */
  lemma SingleSave(amount: real, now: int, timeToKeepAlive: int)
    ensures var m := Saved(map[], Transaction(amount, now), now, timeToKeepAlive);
            m.Keys == {now} && m[now].sum == amount && m[now].count == 1
  {
    assert Evicted(map[], now, timeToKeepAlive) == map[];
  }

  /** Two saves in the same second land in one bucket holding both amounts. */
  lemma TwoSavesSameSecond(now: int, timeToKeepAlive: int)
    requires timeToKeepAlive > 0
    ensures var m := SaveAll(map[], now, [100.0, 100.0], now, timeToKeepAlive);
            m.Keys == {now} && m[now].sum == 200.0 && m[now].count == 2
  {
    SaveAllSameKey(map[], now, [100.0, 100.0], now, timeToKeepAlive);
    MergeAmountsSummary(now, [100.0, 100.0]);
  }

  /**
   * A second save more than `timeToKeepAlive` seconds after the first evicts
   * the first bucket, whatever key the second transaction carries: only the
   * second amount remains.
   */
  lemma SaveAfterExpiry(a1: real, a2: real, t: int, key2: int, timeToKeepAlive: int)
    ensures var m1 := Saved(map[], Transaction(a1, t), t, timeToKeepAlive);
            var m2 := Saved(m1, Transaction(a2, key2), t + timeToKeepAlive + 1, timeToKeepAlive);
            m2.Keys == {key2} && m2[key2].sum == a2 && m2[key2].count == 1
  {
    var m1 := Saved(map[], Transaction(a1, t), t, timeToKeepAlive);
    assert Evicted(map[], t, timeToKeepAlive) == map[];
    assert Evicted(m1, t + timeToKeepAlive + 1, timeToKeepAlive) == map[];
  }

  /**
   * The amounts -1 to 98 saved in one second, then read in the same second:
   * sum 4850, count 100, min -1, max 98 (and average 48.50).
   */
  lemma HundredSavesSameSecond(now: int, timeToKeepAlive: int)
    requires timeToKeepAlive > 0
    ensures var r := Reduce(Evicted(SaveAll(map[], now, Ramp(-1, 100), now, timeToKeepAlive), now, timeToKeepAlive));
            r.sum == 4850.0 && r.count == 100 && r.min == Some(-1.0) && r.max == Some(98.0) && r.avg == 48.5
  {
    var amounts := Ramp(-1, 100);
    var m := SaveAll(map[], now, amounts, now, timeToKeepAlive);
    SaveAllSameKey(map[], now, amounts, now, timeToKeepAlive);
    assert m.Keys == {now};
    assert Evicted(m, now, timeToKeepAlive) == m;
    ReduceSingle(m, now);
    MergeAmountsSummary(now, amounts);
    RampSum(-1, 100);
    assert RampDouble(-1, 100) == 9700;
    RampExtrema(-1, 100);
    RoundHalfUp2OfCents(48.5);
  }

  /** The bucket a single transaction of `amount` creates in second `key`. */
  function Single(amount: real, key: int): (r: Agg)
    ensures r.sum == amount && r.count == 1 && r.max == Some(amount) && r.min == Some(amount)
  {
    Merged(Zero(), Transaction(amount, key))
  }

  /** Ten saves, amount i in second t + i with the clock at t + i. */
  function Series(t: int, n: nat, timeToKeepAlive: int): (r: map<int, Agg>)
    ensures Buckets(r)
  {
    if n == 0 then map[]
    else
      var before := Series(t, n - 1, timeToKeepAlive);
      var tx := Transaction((n - 1) as real, t + n - 1);
      SavedBuckets(before, tx, t + n - 1, timeToKeepAlive);
      Saved(before, tx, t + n - 1, timeToKeepAlive)
  }

  /** One single-transaction bucket per second t, ..., t + n - 1, holding amount i in second t + i. */
  function Staircase(t: int, n: nat): (r: map<int, Agg>)
    ensures forall j :: j in r ==> t <= j < t + n && r[j].count == 1
  {
    if n == 0 then map[] else Staircase(t, n - 1)[t + n - 1 := Single((n - 1) as real, t + n - 1)]
  }

  /** Saving the next amount of the series, inside the window, adds its own bucket. */
  lemma StaircaseSaved(t: int, n: nat, timeToKeepAlive: int)
    requires 0 < n <= timeToKeepAlive
    ensures Saved(Staircase(t, n - 1), Transaction((n - 1) as real, t + n - 1), t + n - 1, timeToKeepAlive) == Staircase(t, n)
  {
    var before := Staircase(t, n - 1);
    var k := t + n - 1;
    EvictedAllLive(before, k, timeToKeepAlive);
    assert k !in before;
  }

  /** While the series is no longer than the window, nothing is evicted. */
  lemma {:induction false} SeriesStaircase(t: int, n: nat, timeToKeepAlive: int)
    requires n <= timeToKeepAlive
    ensures Series(t, n, timeToKeepAlive) == Staircase(t, n)
  {
    if n > 0 {
      SeriesStaircase(t, n - 1, timeToKeepAlive);
      StaircaseSaved(t, n, timeToKeepAlive);
    }
  }

  /** Evicting a map with one more bucket `k`: that bucket stays exactly when it is live. */
  lemma EvictedInsert(m: map<int, Agg>, k: int, v: Agg, now: int, timeToKeepAlive: int)
    requires k !in m
    ensures Evicted(m[k := v], now, timeToKeepAlive)
         == if Live(k, now, timeToKeepAlive) then Evicted(m, now, timeToKeepAlive)[k := v] else Evicted(m, now, timeToKeepAlive)
  {
  }

  /** The buckets of the first six seconds are all gone 65 seconds after the start. */
  lemma StaircaseEarlyEvicted(t: int)
    ensures Evicted(Staircase(t, 6), t + 65, 60) == map[]
  {
    assert forall j :: j in Staircase(t, 6) ==> !Live(j, t + 65, 60);
  }

  /** The four buckets left 65 seconds after the start of the series. */
  function LateBuckets(t: int): map<int, Agg> {
    map[t + 6 := Single(6.0, t + 6), t + 7 := Single(7.0, t + 7), t + 8 := Single(8.0, t + 8), t + 9 := Single(9.0, t + 9)]
  }

  /** The buckets left when the series is read 65 seconds after its start under a 60-second window. */
  lemma SeriesLateBuckets(t: int)
    ensures Evicted(Series(t, 10, 60), t + 65, 60) == LateBuckets(t)
  {
    SeriesStaircase(t, 10, 60);
    StaircaseEarlyEvicted(t);
    EvictedInsert(Staircase(t, 6), t + 6, Single(6.0, t + 6), t + 65, 60);
    EvictedInsert(Staircase(t, 7), t + 7, Single(7.0, t + 7), t + 65, 60);
    EvictedInsert(Staircase(t, 8), t + 8, Single(8.0, t + 8), t + 65, 60);
    EvictedInsert(Staircase(t, 9), t + 9, Single(9.0, t + 9), t + 65, 60);
  }

  /** Folding the four late buckets: sum 30, count 4, min 6, max 9, average 7.50. */
  lemma LateBucketsReduce(t: int)
    ensures var r := Reduce(LateBuckets(t));
            r.sum == 30.0 && r.count == 4 && r.min == Some(6.0) && r.max == Some(9.0) && r.avg == 7.5
  {
    var e := LateBuckets(t);
    var k6, k7, k8, k9 := {t + 6}, {t + 6, t + 7}, {t + 6, t + 7, t + 8}, {t + 6, t + 7, t + 8, t + 9};
    assert e.Keys == k9;
    assert k6 - {t + 6} == {};
    ReduceKeysPick(e, k6, t + 6);
    var r6 := ReduceKeys(e, k6);
    assert r6.sum == 6.0 && r6.count == 1 && r6.max == Some(6.0) && r6.min == Some(6.0);
    assert k7 - {t + 7} == k6;
    ReduceKeysPick(e, k7, t + 7);
    var r7 := ReduceKeys(e, k7);
    assert r7.sum == 13.0 && r7.count == 2 && r7.max == Some(7.0) && r7.min == Some(6.0);
    assert k8 - {t + 8} == k7;
    ReduceKeysPick(e, k8, t + 8);
    var r8 := ReduceKeys(e, k8);
    assert r8.sum == 21.0 && r8.count == 3 && r8.max == Some(8.0) && r8.min == Some(6.0);
    assert k9 - {t + 9} == k8;
    ReduceKeysPick(e, k9, t + 9);
    var r9 := ReduceKeys(e, k9);
    assert r9.sum == 30.0 && r9.count == 4 && r9.max == Some(9.0) && r9.min == Some(6.0);
    assert r9.avg == RoundHalfUp2(7.5);
    RoundHalfUp2OfCents(7.5);
  }

  /**
   * After the ten saves, a read 65 seconds after the first one under a
   * 60-second window sees only the amounts 6 to 9: sum 30, count 4, min 6,
   * max 9.
   */
  lemma SeriesThenLateRead(t: int)
    ensures var r := Reduce(Evicted(Series(t, 10, 60), t + 65, 60));
            r.sum == 30.0 && r.count == 4 && r.min == Some(6.0) && r.max == Some(9.0) && r.avg == 7.5
  {
    SeriesLateBuckets(t);
    LateBucketsReduce(t);
  }

  /** 25 / 3 rounds half-up to 8.33. */
  lemma RoundTwentyFiveThirds()
    ensures RoundHalfUp2(25.0 / 3.0) == 8.33
  {
    var x := 25.0 / 3.0;
    assert x * 3.0 == 25.0;
    assert 833.0 <= x * 100.0 + 0.5 < 834.0;
    assert (x * 100.0 + 0.5).Floor == 833;
  }

  /** Three amounts saved in one second and read in the same second: sum 25, count 3, max 20, min -5, avg 8.33. */
  lemma ThreeAmountsRead(now: int, timeToKeepAlive: int)
    requires timeToKeepAlive > 0
    ensures var r := Reduce(Evicted(SaveAll(map[], now, [10.0, 20.0, -5.0], now, timeToKeepAlive), now, timeToKeepAlive));
            r.sum == 25.0 && r.count == 3 && r.max == Some(20.0) && r.min == Some(-5.0) && r.avg == 8.33
  {
    var amounts := [10.0, 20.0, -5.0];
    var m := SaveAll(map[], now, amounts, now, timeToKeepAlive);
    SaveAllSameKey(map[], now, amounts, now, timeToKeepAlive);
    assert m.Keys == {now};
    assert Evicted(m, now, timeToKeepAlive) == m;
    ReduceSingle(m, now);
    MergeAmountsSummary(now, amounts);
    assert amounts[..2] == [10.0, 20.0] && [10.0, 20.0][..1] == [10.0] && [10.0][..0] == [];
    assert SumOf(amounts) == 25.0;
    assert MaxOf(amounts) == Some(20.0) && MinOf(amounts) == Some(-5.0);
    var r := Reduce(m);
    assert r.sum == 25.0 && r.count == 3;
    assert r.avg == RoundHalfUp2(25.0 / 3.0);
    RoundTwentyFiveThirds();
  }

  /**
   * Three amounts in one second, read in the same second, are reported as
   * sum 25.00, avg 8.33, max 20.00, min -5.00, count 3.
   */
  lemma ThreeAmountsReport(now: int, timeToKeepAlive: int)
    requires timeToKeepAlive > 0
    ensures var r := Reduce(Evicted(SaveAll(map[], now, [10.0, 20.0, -5.0], now, timeToKeepAlive), now, timeToKeepAlive));
            AsStatisticDTO(Some(ViewOf(r))) == Success(StatisticDTO(25.0, 8.33, 20.0, -5.0, 3))
  {
    ThreeAmountsRead(now, timeToKeepAlive);
    RoundHalfUp2OfCents(25.0);
    RoundHalfUp2OfCents(8.33);
    RoundHalfUp2OfCents(20.0);
    RoundHalfUp2OfCents(-5.0);
  }

  /**
   * A transaction exactly `timeToKeepAlive` seconds old is accepted by the
   * converter, yet its bucket is already evicted in that same second.
   */
  lemma EdgeAcceptedThenEvicted(amount: real, now: int, timeToKeepAlive: int)
    requires timeToKeepAlive >= 0
    ensures var r := AsTransactionEntity(Some(TransactionDTO(Parsed(amount), Parsed((now - timeToKeepAlive) as real))), now as real, timeToKeepAlive);
            r.Success? && !Live(r.value.timestamp, now, timeToKeepAlive)
            && Evicted(Saved(map[], r.value, now, timeToKeepAlive), now, timeToKeepAlive) == map[]
  {
    var r := AsTransactionEntity(Some(TransactionDTO(Parsed(amount), Parsed((now - timeToKeepAlive) as real))), now as real, timeToKeepAlive);
    assert r.value.timestamp == now - timeToKeepAlive;
    assert Evicted(map[], now, timeToKeepAlive) == map[];
  }
}
