/**
 * The aggregate record of one bucket (and of the combined result): the
 * transaction it is fed with, its value, its well-formedness, and the mutable
 * `Statistic` object with its zero state.
 */
module Statistics {
  import opened Wrappers
  import opened Decimal

  /** A validated transaction: an exact amount and its epoch-second bucket key. */
  datatype Transaction = Transaction(amount: real, timestamp: int)

  /**
   * The fields of a `Statistic` at one moment. `max` and `min` are `None` while
   * nothing has been merged; `count` is a Java `long` (overflow not modelled).
   */
  datatype Agg = Agg(timestamp: int, sum: real, avg: real, max: Option<real>, min: Option<real>, count: int)

  /** The state of a freshly constructed `Statistic`: the identity of the fold. */
  function Zero(): Agg {
    Agg(0, 0.0, 0.0, None, None, 0)
  }

  /** The average the system reports for a sum over a count: 0 for no transactions. */
  function AvgOf(sum: real, count: int): real {
    if count > 0 then RoundHalfUp2(sum / count as real) else 0.0
  }

  /**
   * The average is 0 without transactions; otherwise it has two decimals and
   * is the quotient rounded half-up, so within half a cent of it.
   */
  lemma AvgOfNearest(sum: real, count: int)
    ensures count <= 0 ==> AvgOf(sum, count) == 0.0
    ensures count > 0 ==>
              && IsCents(AvgOf(sum, count))
              && -0.005 <= AvgOf(sum, count) - sum / count as real <= 0.005
              && AvgOf(sum, count) == RoundHalfUp2(sum / count as real)
  {
    if count > 0 {
      RoundHalfUp2Error(sum / count as real);
    }
  }

  /**
   * The invariant of every aggregate the system builds: a non-negative count,
   * nothing at all when the count is zero, ordered extrema otherwise, and an
   * average derived from sum and count.
   */
  predicate WellFormed(a: Agg) {
    && a.count >= 0
    && (a.count == 0 ==> a.sum == 0.0 && a.max.None? && a.min.None?)
    && (a.count > 0 ==> a.max.Some? && a.min.Some? && a.min.value <= a.max.value)
    && a.avg == AvgOf(a.sum, a.count)
  }

  /** Two aggregates describe the same transactions, whatever their timestamps. */
  predicate SameStats(a: Agg, b: Agg) {
    a.sum == b.sum && a.avg == b.avg && a.max == b.max && a.min == b.min && a.count == b.count
  }

  /** Reference definition: the total of a list of amounts. */
  function SumOf(s: seq<real>): real {
    if s == [] then 0.0 else SumOf(s[..|s| - 1]) + s[|s| - 1]
  }

  /** Reference definition: the largest of a list of amounts, `None` for none. */
  function MaxOf(s: seq<real>): Option<real> {
    if s == [] then None else MaxOpt(MaxOf(s[..|s| - 1]), Some(s[|s| - 1]))
  }

  /** Reference definition: the smallest of a list of amounts, `None` for none. */
  function MinOf(s: seq<real>): Option<real> {
    if s == [] then None else MinOpt(MinOf(s[..|s| - 1]), Some(s[|s| - 1]))
  }

  /** The aggregate that a list of amounts ought to produce. */
  function Summary(s: seq<real>): Agg {
    Agg(0, SumOf(s), AvgOf(SumOf(s), |s|), MaxOf(s), MinOf(s), |s|)
  }

  /** MaxOf is the maximum of the list: it is an element and bounds every element. */
  lemma {:induction false} MaxOfIsMaximum(s: seq<real>)
    ensures MaxOf(s).None? <==> s == []
    ensures MaxOf(s).Some? ==> MaxOf(s).value in s
    ensures forall i :: 0 <= i < |s| ==> MaxOf(s).Some? && s[i] <= MaxOf(s).value
  {
    if s != [] {
      var p, x := s[..|s| - 1], s[|s| - 1];
      MaxOfIsMaximum(p);
      var r := MaxOf(s);
      assert r == MaxOpt(MaxOf(p), Some(x));
      if r != Some(x) {
        var j :| 0 <= j < |p| && p[j] == r.value;
        assert s[j] == p[j];
      }
      forall i | 0 <= i < |s| - 1 ensures s[i] <= r.value {
        assert s[i] == p[i];
      }
    }
  }

  /** MinOf is the minimum of the list: it is an element and bounds every element. */
  lemma {:induction false} MinOfIsMinimum(s: seq<real>)
    ensures MinOf(s).None? <==> s == []
    ensures MinOf(s).Some? ==> MinOf(s).value in s
    ensures forall i :: 0 <= i < |s| ==> MinOf(s).Some? && MinOf(s).value <= s[i]
  {
    if s != [] {
      var p, x := s[..|s| - 1], s[|s| - 1];
      MinOfIsMinimum(p);
      var r := MinOf(s);
      assert r == MinOpt(MinOf(p), Some(x));
      if r != Some(x) {
        var j :| 0 <= j < |p| && p[j] == r.value;
        assert s[j] == p[j];
      }
      forall i | 0 <= i < |s| - 1 ensures r.value <= s[i] {
        assert s[i] == p[i];
      }
    }
  }

  /** The summary of any list of amounts is well formed. */
  lemma SummaryWellFormed(s: seq<real>)
    ensures WellFormed(Summary(s))
  {
    MaxOfIsMaximum(s);
    MinOfIsMinimum(s);
    if s != [] {
      assert s[0] <= MaxOf(s).value && MinOf(s).value <= s[0];
    }
  }

  /**
   * A `Statistic` object: Java's mutable record with boxed fields. The
   * constructor leaves `max` and `min` null and calls `reset`.
   */
  class Statistic {
    var timestamp: int
    var sum: real
    var avg: real
    var max: Option<real>
    var min: Option<real>
    var count: int

    /** The current field values. */
    function Value(): Agg
      reads this
    {
      Agg(timestamp, sum, avg, max, min, count)
    }

    /** `new Statistic()`: sum, count, avg and timestamp are zero; max and min are null. */
    constructor ()
      ensures Value() == Zero()
      ensures WellFormed(Value())
    {
      max := None;
      min := None;
      new;
      Reset();
    }

    /** `reset`: zeroes avg, count, sum and timestamp; leaves max and min as they were. */
    method Reset()
      modifies this
      ensures avg == 0.0 && count == 0 && sum == 0.0 && timestamp == 0
      ensures max == old(max) && min == old(min)
    {
      avg := 0.0;
      count := 0;
      sum := 0.0;
      timestamp := 0;
    }
  }
}
