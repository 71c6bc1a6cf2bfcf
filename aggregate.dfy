/**
  The per-book rating aggregate: the running average `avg_rating` and the count
  `number_rating` that review submission updates incrementally, with `real`
  standing in for the stored float.
 */
module Aggregate {

  /** A rating the review model accepts: between 1 and 5 inclusive. */
  predicate ValidRating(r: int) {
    1 <= r <= 5
  }

  predicate AllValidRatings(rs: seq<int>) {
    forall i :: 0 <= i < |rs| ==> ValidRating(rs[i])
  }

  function Sum(rs: seq<int>): int {
    if rs == [] then 0 else rs[0] + Sum(rs[1..])
  }

  /** The arithmetic mean of the ratings, 0 when there are none (the field default). */
  function Mean(rs: seq<int>): real {
    if rs == [] then 0.0 else Sum(rs) as real / |rs| as real
  }

  /** The update the submission path applies: `(avg * n + r) / (n + 1)`. */
  function NewAverage(avg: real, n: nat, r: int): real {
    (avg * n as real + r as real) / (n as real + 1.0)
  }

  /** The stored pair agrees with the ratings submitted so far. */
  predicate AggregateMatches(avg: real, n: nat, rs: seq<int>) {
    n == |rs| && avg == Mean(rs) && AllValidRatings(rs)
  }

  lemma {:induction false} SumAppend(rs: seq<int>, r: int)
    ensures Sum(rs + [r]) == Sum(rs) + r
  {
    if rs != [] {
      assert (rs + [r])[1..] == rs[1..] + [r];
      SumAppend(rs[1..], r);
    }
  }

  lemma {:induction false} SumBounds(rs: seq<int>)
    requires AllValidRatings(rs)
    ensures |rs| <= Sum(rs) <= 5 * |rs|
  {
    if rs != [] {
      assert AllValidRatings(rs[1..]) by {
        forall i | 0 <= i < |rs[1..]| ensures ValidRating(rs[1..][i]) {
          assert rs[1..][i] == rs[i + 1];
        }
      }
      SumBounds(rs[1..]);
    }
  }

  /** The mean times the count is the sum: `avg_rating * number_rating` is the total of the ratings. */
  lemma MeanTimesCount(rs: seq<int>)
    ensures Mean(rs) * |rs| as real == Sum(rs) as real
  {
  }

  /** The incremental update computes exactly the mean of the ratings with the new one appended. */
  lemma NewAverageIsMean(rs: seq<int>, r: int)
    ensures NewAverage(Mean(rs), |rs|, r) == Mean(rs + [r])
  {
    SumAppend(rs, r);
    MeanTimesCount(rs);
  }

  /** Dividing a total bounded by `lo * n` and `hi * n` by a positive `n` lands in [lo, hi]. */
  lemma QuotientBounds(s: real, n: real, lo: real, hi: real)
    requires n > 0.0 && lo * n <= s <= hi * n
    ensures lo <= s / n <= hi
  {
    var q := s / n;
    assert q * n == s;
  }

  lemma ScaleBy(a: real, b: real, m: real)
    requires a <= b && m >= 0.0
    ensures a * m <= b * m
  {
  }

  /** Once there is at least one rating, all in 1..5, the mean lies in [1, 5]. */
  lemma MeanInRange(rs: seq<int>)
    requires AllValidRatings(rs) && |rs| >= 1
    ensures 1.0 <= Mean(rs) <= 5.0
  {
    SumBounds(rs);
    var n := |rs| as real;
    var s := Sum(rs) as real;
    QuotientBounds(s, n, 1.0, 5.0);
  }

  /** Scaling an average in [1, 5] by a count `m` keeps it between `m` and `5 * m`. */
  lemma ScaledRange(avg: real, m: real)
    requires m >= 0.0
    requires m == 0.0 || 1.0 <= avg <= 5.0
    ensures m <= avg * m <= 5.0 * m
  {
    if m > 0.0 {
      ScaleBy(1.0, avg, m);
      ScaleBy(avg, 5.0, m);
    }
  }

  /** The update on reals: a count `m`, an average in [1, 5] (or no count) and a rating in [1, 5]. */
  lemma RealStepInRange(avg: real, m: real, x: real)
    requires m >= 0.0 && (m == 0.0 || 1.0 <= avg <= 5.0) && 1.0 <= x <= 5.0
    ensures 1.0 <= (avg * m + x) / (m + 1.0) <= 5.0
  {
    ScaledRange(avg, m);
    var t := avg * m;
    QuotientBounds(t + x, m + 1.0, 1.0, 5.0);
  }

  /** One update step keeps the average in [1, 5] when the new rating is valid. */
  lemma NewAverageInRange(avg: real, n: nat, r: int)
    requires ValidRating(r)
    requires n == 0 || 1.0 <= avg <= 5.0
    ensures 1.0 <= NewAverage(avg, n, r) <= 5.0
  {
    var m, x := n as real, r as real;
    RealStepInRange(avg, m, x);
    assert NewAverage(avg, n, r) == (avg * m + x) / (m + 1.0);
  }

  /** Adding one valid rating through the update keeps the stored pair in step with the ratings. */
  lemma AggregateStep(avg: real, n: nat, rs: seq<int>, r: int)
    requires AggregateMatches(avg, n, rs) && ValidRating(r)
    ensures AggregateMatches(NewAverage(avg, n, r), n + 1, rs + [r])
  {
    NewAverageIsMean(rs, r);
  }

  /** The aggregate `avg * n` equals the sum of the ratings, and the average lies in [1, 5] once rated. */
  lemma AggregateMeaning(avg: real, n: nat, rs: seq<int>)
    requires AggregateMatches(avg, n, rs)
    ensures avg * n as real == Sum(rs) as real
    ensures n >= 1 ==> 1.0 <= avg <= 5.0
  {
    MeanTimesCount(rs);
    if n >= 1 {
      MeanInRange(rs);
    }
  }

  /**
    The aggregate obtained by starting from the defaults 0 / 0 and applying the
    update for each rating in turn.
   */
  function Replay(rs: seq<int>): (agg: (real, nat))
    ensures agg.0 == Mean(rs) && agg.1 == |rs|
  {
    if rs == [] then (0.0, 0)
    else
      var prev := Replay(rs[..|rs| - 1]);
      assert rs == rs[..|rs| - 1] + [rs[|rs| - 1]];
      NewAverageIsMean(rs[..|rs| - 1], rs[|rs| - 1]);
      (NewAverage(prev.0, prev.1, rs[|rs| - 1]), prev.1 + 1)
  }
}
