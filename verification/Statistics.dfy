/**
 Robust statistics: `robust_mad_score` in services/api/app/domain/fraud.py and
 `percentile` in services/api/app/domain/analytics.py, over real numbers.

 Both are built from order statistics. Everything rests on one fact about
 them: the k-th smallest sample is at most y exactly when more than k samples
 are at most y. The results: a minority of wild samples cannot move the median
 or the deviation out of bounds, so an outlier is flagged whatever they are;
 and the percentile is monotone, bounded and independent of sample order.
 */
module Statistics {
  import opened Common

  // ----------------------------------------------------------------- sorting

  predicate Sorted(a: seq<real>) {
    forall i, j :: 0 <= i <= j < |a| ==> a[i] <= a[j]
  }

  function Insert(x: real, a: seq<real>): (r: seq<real>)
    ensures |r| == |a| + 1
  {
    if a == [] || x <= a[0] then [x] + a else [a[0]] + Insert(x, a[1..])
  }

  /** `sorted(samples)` */
  function Sort(s: seq<real>): (r: seq<real>)
    ensures |r| == |s|
  {
    if s == [] then [] else Insert(s[0], Sort(s[1..]))
  }

  /** How many samples are at most `y`. */
  function CountLe(s: seq<real>, y: real): (n: nat)
    ensures n <= |s|
  {
    if s == [] then 0 else (if s[0] <= y then 1 else 0) + CountLe(s[1..], y)
  }

  lemma {:induction false} InsertSorted(x: real, a: seq<real>)
    requires Sorted(a)
    ensures Sorted(Insert(x, a))
    ensures forall i :: 0 <= i < |Insert(x, a)| ==> Insert(x, a)[i] == x || Insert(x, a)[i] in a
  {
    if a != [] && x > a[0] {
      InsertSorted(x, a[1..]);
      var rest := Insert(x, a[1..]);
      forall i | 0 <= i < |rest| ensures a[0] <= rest[i] {
      }
    }
  }

  lemma {:induction false} SortSorted(s: seq<real>)
    ensures Sorted(Sort(s))
  {
    if s != [] {
      SortSorted(s[1..]);
      InsertSorted(s[0], Sort(s[1..]));
    }
  }

  lemma {:induction false} CountInsert(x: real, a: seq<real>, y: real)
    ensures CountLe(Insert(x, a), y) == (if x <= y then 1 else 0) + CountLe(a, y)
  {
    if a == [] || x <= a[0] {
      assert ([x] + a)[1..] == a;
    } else {
      CountInsert(x, a[1..], y);
      assert ([a[0]] + Insert(x, a[1..]))[1..] == Insert(x, a[1..]);
    }
  }

  lemma {:induction false} CountSort(s: seq<real>, y: real)
    ensures CountLe(Sort(s), y) == CountLe(s, y)
  {
    if s != [] {
      CountSort(s[1..], y);
      CountInsert(s[0], Sort(s[1..]), y);
    }
  }

  lemma {:induction false} SortedCount(a: seq<real>, y: real, k: nat)
    requires Sorted(a) && k < |a|
    ensures a[k] <= y <==> CountLe(a, y) > k
  {
    if k == 0 {
      if a[0] > y {
        NoneLe(a, y);
      }
    } else {
      SortedCount(a[1..], y, k - 1);
      if a[k] > y && a[0] > y {
        NoneLe(a, y);
      }
    }
  }

  lemma {:induction false} NoneLe(a: seq<real>, y: real)
    requires forall i :: 0 <= i < |a| ==> a[i] > y
    ensures CountLe(a, y) == 0
  {
    if a != [] {
      NoneLe(a[1..], y);
    }
  }

  /** The order statistic: the k-th smallest is at most y exactly when more than k samples are. */
  lemma OrderStatistic(s: seq<real>, y: real, k: nat)
    requires k < |s|
    ensures Sort(s)[k] <= y <==> CountLe(s, y) > k
  {
    SortSorted(s);
    SortedCount(Sort(s), y, k);
    CountSort(s, y);
  }

  /** Raising samples raises every order statistic. */
  predicate Raised(s: seq<real>, t: seq<real>) {
    |s| == |t| && forall i :: 0 <= i < |s| ==> s[i] <= t[i]
  }

  lemma {:induction false} RaisedCount(s: seq<real>, t: seq<real>, y: real)
    requires Raised(s, t)
    ensures CountLe(t, y) <= CountLe(s, y)
  {
    if s != [] {
      RaisedCount(s[1..], t[1..], y);
    }
  }

  lemma RaisedSort(s: seq<real>, t: seq<real>, k: nat)
    requires Raised(s, t) && k < |s|
    ensures Sort(s)[k] <= Sort(t)[k]
  {
    var y := Sort(t)[k];
    OrderStatistic(t, y, k);
    RaisedCount(s, t, y);
    OrderStatistic(s, y, k);
  }

  /** Sorting forgets the order of the samples. */
  lemma {:induction false} PermutedCount(s: seq<real>, t: seq<real>, y: real)
    requires multiset(s) == multiset(t)
    ensures CountLe(s, y) == CountLe(t, y)
    decreases |s|
  {
    if s == [] {
      assert |multiset(t)| == 0;
    } else {
      assert s[0] in multiset(t);
      var j :| 0 <= j < |t| && t[j] == s[0];
      RemoveOne(s, t, j);
      PermutedCount(s[1..], t[..j] + t[j + 1..], y);
      CountWithout(t, j, y);
    }
  }

  lemma RemoveOne(s: seq<real>, t: seq<real>, j: nat)
    requires |s| > 0 && j < |t| && t[j] == s[0] && multiset(s) == multiset(t)
    ensures multiset(s[1..]) == multiset(t[..j] + t[j + 1..])
  {
    assert s == [s[0]] + s[1..];
    assert t == t[..j] + [t[j]] + t[j + 1..];
    assert multiset(s) - multiset{s[0]} == multiset(s[1..]);
    assert multiset(t) - multiset{t[j]} == multiset(t[..j] + t[j + 1..]);
  }

  lemma CountWithout(t: seq<real>, j: nat, y: real)
    requires j < |t|
    ensures CountLe(t, y) == (if t[j] <= y then 1 else 0) + CountLe(t[..j] + t[j + 1..], y)
  {
    var tail := [t[j]] + t[j + 1..];
    assert CountLe(tail, y) == (if t[j] <= y then 1 else 0) + CountLe(t[j + 1..], y) by {
      assert tail[1..] == t[j + 1..];
    }
    hide CountLe;
    assert t == t[..j] + tail;
    CountAppend(t[..j], tail, y);
    CountAppend(t[..j], t[j + 1..], y);
  }

  lemma {:induction false} CountAppend(a: seq<real>, b: seq<real>, y: real)
    ensures CountLe(a + b, y) == CountLe(a, y) + CountLe(b, y)
  {
    if a == [] {
      assert a + b == b;
    } else {
      assert (a + b)[1..] == a[1..] + b;
      CountAppend(a[1..], b, y);
    }
  }

  lemma PermutedSort(s: seq<real>, t: seq<real>)
    requires multiset(s) == multiset(t)
    ensures Sort(s) == Sort(t)
  {
    assert |s| == |multiset(s)| == |t|;
    forall k | 0 <= k < |s| ensures Sort(s)[k] == Sort(t)[k] {
      var x, y := Sort(s)[k], Sort(t)[k];
      OrderStatistic(s, x, k);
      OrderStatistic(t, x, k);
      OrderStatistic(s, y, k);
      OrderStatistic(t, y, k);
      PermutedCount(s, t, x);
      PermutedCount(s, t, y);
    }
  }

  // ------------------------------------------------------------------ median

  /** `statistics.median` */
  function Median(s: seq<real>): real
    requires |s| > 0
  {
    var a, n := Sort(s), |s|;
    if n % 2 == 1 then a[n / 2] else (a[n / 2 - 1] + a[n / 2]) / 2.0
  }

  /** How many samples lie in the interval. */
  function CountIn(s: seq<real>, lo: real, hi: real): (n: nat)
    ensures n <= |s|
  {
    if s == [] then 0 else (if lo <= s[0] <= hi then 1 else 0) + CountIn(s[1..], lo, hi)
  }

  lemma {:induction false} CountInAtMostLe(s: seq<real>, lo: real, hi: real)
    ensures CountIn(s, lo, hi) <= CountLe(s, hi)
  {
    if s != [] {
      CountInAtMostLe(s[1..], lo, hi);
    }
  }

  /** Samples below the interval and samples inside it are different ones. */
  lemma {:induction false} CountInAndBelow(s: seq<real>, lo: real, hi: real, y: real)
    requires y < lo
    ensures CountIn(s, lo, hi) + CountLe(s, y) <= |s|
  {
    if s != [] {
      CountInAndBelow(s[1..], lo, hi, y);
    }
  }

  /** With a majority of samples in the interval, so are the middle order statistics. */
  lemma MiddleInside(s: seq<real>, lo: real, hi: real, k: nat)
    requires k < |s| && |s| - CountIn(s, lo, hi) <= k < CountIn(s, lo, hi)
    ensures lo <= Sort(s)[k] <= hi
  {
    CountInAtMostLe(s, lo, hi);
    OrderStatistic(s, hi, k);
    var y := Sort(s)[k];
    if y < lo {
      OrderStatistic(s, y, k);
      CountInAndBelow(s, lo, hi, y);
    }
  }

  /** If strictly more than half of the samples lie in an interval, so does the median. */
  lemma MedianInside(s: seq<real>, lo: real, hi: real)
    requires 2 * CountIn(s, lo, hi) > |s|
    ensures |s| > 0 && lo <= Median(s) <= hi
  {
    var n := |s|;
    MiddleInside(s, lo, hi, n / 2);
    if n % 2 == 0 {
      MiddleInside(s, lo, hi, n / 2 - 1);
    }
  }

  // -------------------------------------------------------- the outlier test

  function Abs(x: real): real {
    if x < 0.0 then -x else x
  }

  function Deviations(s: seq<real>, center: real): seq<real> {
    if s == [] then [] else [Abs(s[0] - center)] + Deviations(s[1..], center)
  }

  lemma {:induction false} DeviationsLength(s: seq<real>, center: real)
    ensures |Deviations(s, center)| == |s|
  {
    if s != [] {
      DeviationsLength(s[1..], center);
    }
  }

  datatype Score = Score(score: real, threshold: real, anomalous: bool, median: Option<real>, mad: Option<real>)

  const MIN_SAMPLES := 5
  const CONSISTENCY := 0.6745

  /** The median absolute deviation from the median. */
  function Mad(samples: seq<real>): real
    requires |samples| > 0
  {
    DeviationsLength(samples, Median(samples));
    Median(Deviations(samples, Median(samples)))
  }

  function RawScore(value: real, center: real, mad: real, threshold: real): real {
    if mad == 0.0 then (if value == center then 0.0 else threshold + 1.0)
    else Abs(CONSISTENCY * (value - center) / mad)
  }

  function RobustMadScore(value: real, samples: seq<real>, threshold: real): Score {
    if |samples| < MIN_SAMPLES then
      Score(0.0, threshold, false, if samples == [] then None else Some(Median(samples)), None)
    else
      var center, mad := Median(samples), Mad(samples);
      var score := RawScore(value, center, mad, threshold);
      Score(score, threshold, score >= threshold, Some(center), Some(mad))
  }

  lemma {:induction false} DeviationsInside(s: seq<real>, center: real, lo: real, hi: real)
    requires lo <= center <= hi
    ensures CountIn(s, lo, hi) <= CountIn(Deviations(s, center), 0.0, hi - lo)
  {
    if s != [] {
      DeviationsInside(s[1..], center, lo, hi);
      assert Deviations(s, center)[1..] == Deviations(s[1..], center);
    }
  }

  /** A majority in the interval also bounds the deviation by the interval's width. */
  lemma MadBounded(s: seq<real>, lo: real, hi: real)
    requires 2 * CountIn(s, lo, hi) > |s|
    ensures |s| > 0 && 0.0 <= Mad(s) <= hi - lo
  {
    MedianInside(s, lo, hi);
    var deviations := Deviations(s, Median(s));
    DeviationsLength(s, Median(s));
    DeviationsInside(s, Median(s), lo, hi);
    MedianInside(deviations, 0.0, hi - lo);
  }

  lemma ProductNonnegative(x: real, y: real)
    requires x >= 0.0 && y >= 0.0
    ensures x * y >= 0.0
  {
  }

  lemma ProductNegative(x: real, y: real)
    requires x < 0.0 && y > 0.0
    ensures x * y < 0.0
  {
  }

  lemma QuotientBound(a: real, b: real, c: real)
    requires b > 0.0 && a >= c * b
    ensures a / b >= c
  {
    var d := a / b - c;
    assert d * b == a - c * b;
    if d < 0.0 {
      ProductNegative(d, b);
    }
  }

  lemma ScoreIsLarge(value: real, center: real, mad: real, width: real, distance: real, threshold: real)
    requires 0.0 <= mad <= width && 0.0 < distance <= Abs(value - center)
    requires CONSISTENCY * distance >= threshold * width
    ensures RawScore(value, center, mad, threshold) >= threshold
  {
    if mad > 0.0 && threshold >= 0.0 {
      var gap := Abs(value - center);
      ProductNonnegative(threshold, width - mad);
      assert threshold * mad <= threshold * width;
      QuotientBound(CONSISTENCY * gap, mad, threshold);
      AbsQuotient(value - center, mad);
    }
  }

  lemma AbsQuotient(x: real, b: real)
    requires b > 0.0
    ensures Abs(CONSISTENCY * x / b) == CONSISTENCY * Abs(x) / b
  {
    var q := CONSISTENCY * x / b;
    assert q * b == CONSISTENCY * x;
    if x < 0.0 {
      assert q < 0.0;
      assert -q == CONSISTENCY * (-x) / b;
    } else {
      assert q >= 0.0;
    }
  }

  /** The distance of a value from an interval. */
  function Distance(value: real, lo: real, hi: real): real {
    if value < lo then lo - value else if value > hi then value - hi else 0.0
  }

  /**
   Breakdown resistance. If strictly more than half of at least five samples
   lie in an interval, a value outside it by enough is flagged, whatever the
   other samples are.
   */
  lemma OutlierIsFlagged(value: real, samples: seq<real>, threshold: real, lo: real, hi: real)
    requires |samples| >= MIN_SAMPLES && 2 * CountIn(samples, lo, hi) > |samples|
    requires Distance(value, lo, hi) > 0.0
    requires CONSISTENCY * Distance(value, lo, hi) >= threshold * (hi - lo)
    ensures RobustMadScore(value, samples, threshold).anomalous
  {
    hide Median, Mad, RawScore, CountIn;
    MedianInside(samples, lo, hi);
    MadBounded(samples, lo, hi);
    ScoreIsLarge(value, Median(samples), Mad(samples), hi - lo, Distance(value, lo, hi), threshold);
  }

  lemma RatioIff(a: real, b: real, c: real)
    requires b > 0.0
    ensures a / b >= c <==> a >= c * b
  {
    var d := a / b - c;
    assert d * b == a - c * b;
    if d < 0.0 {
      ProductNegative(d, b);
    } else {
      ProductNonnegative(d, b);
    }
  }

  /**
   The verdict without the quotient: with enough samples a value is flagged
   exactly when it is off a median without spread, or when its distance from
   the median is at least the threshold times the deviation, on the scale of
   the constant. With fewer samples nothing is flagged.
   */
  lemma FlaggedIff(value: real, samples: seq<real>, threshold: real)
    requires threshold > 0.0
    ensures RobustMadScore(value, samples, threshold).anomalous <==>
              && |samples| >= 5
              && (if Mad(samples) == 0.0 then value != Median(samples)
                  else 0.6745 * Abs(value - Median(samples)) >= threshold * Mad(samples))
  {
    if |samples| >= 5 {
      hide Median, Mad;
      MadNonnegative(samples);
      var mad := Mad(samples);
      if mad > 0.0 {
        AbsQuotient(value - Median(samples), mad);
        RatioIff(CONSISTENCY * Abs(value - Median(samples)), mad, threshold);
      }
    }
  }

  /**
   What is reported: nothing but the median below five samples, and from five
   on the median, the deviation, and the distance of the value from the median
   in deviations, on the scale of the constant.
   */
  lemma ScoreIs(value: real, samples: seq<real>, threshold: real)
    ensures var r := RobustMadScore(value, samples, threshold);
            && r.threshold == threshold
            && (|samples| < 5 ==>
                  && r.score == 0.0 && !r.anomalous && r.mad == None
                  && r.median == if samples == [] then None else Some(Median(samples)))
            && (|samples| >= 5 ==>
                  && r.median == Some(Median(samples)) && r.mad == Some(Mad(samples))
                  && (r.anomalous <==> r.score >= threshold)
                  && (Mad(samples) == 0.0 ==> r.score == if value == Median(samples) then 0.0 else threshold + 1.0)
                  && (Mad(samples) != 0.0 ==>
                        && r.score >= 0.0
                        && r.score * Mad(samples) == 0.6745 * Distance(value, Median(samples), Median(samples))))
  {
    hide Median, Mad;
    if |samples| >= 5 && Mad(samples) != 0.0 {
      MadNonnegative(samples);
      var x, mad := value - Median(samples), Mad(samples);
      AbsQuotient(x, mad);
      var score := 0.6745 * Abs(x) / mad;
      assert score * mad == 0.6745 * Abs(x);
      if score < 0.0 {
        ProductNegative(score, mad);
      }
    }
  }

  lemma MadNonnegative(samples: seq<real>)
    requires |samples| > 0
    ensures Mad(samples) >= 0.0
  {
    var deviations := Deviations(samples, Median(samples));
    DeviationsLength(samples, Median(samples));
    forall k | 0 <= k < |deviations| ensures Sort(deviations)[k] >= 0.0 {
      var y := Sort(deviations)[k];
      OrderStatistic(deviations, y, k);
      if y < 0.0 {
        DeviationsNotBelow(samples, Median(samples), y);
      }
    }
  }

  lemma {:induction false} DeviationsNotBelow(s: seq<real>, center: real, y: real)
    requires y < 0.0
    ensures CountLe(Deviations(s, center), y) == 0
  {
    if s != [] {
      DeviationsNotBelow(s[1..], center, y);
      assert Deviations(s, center)[1..] == Deviations(s[1..], center);
    }
  }

  /** Samples on another scale: multiplied by `k` and shifted by `b`. */
  function Affine(s: seq<real>, k: real, b: real): (t: seq<real>)
    ensures |t| == |s|
  {
    if s == [] then [] else [k * s[0] + b] + Affine(s[1..], k, b)
  }

  lemma {:induction false} CountAffine(s: seq<real>, k: real, b: real, y: real)
    requires k > 0.0
    ensures CountLe(Affine(s, k, b), k * y + b) == CountLe(s, y)
  {
    if s != [] {
      CountAffine(s[1..], k, b, y);
      assert Affine(s, k, b)[1..] == Affine(s[1..], k, b);
      ScaleOrder(s[0], y, k);
    }
  }

  lemma ScaleOrder(x: real, y: real, k: real)
    requires k > 0.0
    ensures k * x <= k * y <==> x <= y
  {
    if x <= y {
      ProductNonnegative(k, y - x);
    } else {
      ProductNegative(y - x, k);
    }
  }

  lemma SortAffine(s: seq<real>, k: real, b: real, i: nat)
    requires k > 0.0 && i < |s|
    ensures Sort(Affine(s, k, b))[i] == k * Sort(s)[i] + b
  {
    hide Sort, CountLe, Affine;
    var t := Affine(s, k, b);
    var x := Sort(s)[i];
    OrderStatistic(s, x, i);
    CountAffine(s, k, b, x);
    OrderStatistic(t, k * x + b, i);
    var z := Sort(t)[i];
    var y := (z - b) / k;
    assert k * y + b == z;
    OrderStatistic(t, z, i);
    CountAffine(s, k, b, y);
    OrderStatistic(s, y, i);
    ScaleOrder(x, y, k);
  }

  lemma MedianAffine(s: seq<real>, k: real, b: real)
    requires k > 0.0 && |s| > 0
    ensures Median(Affine(s, k, b)) == k * Median(s) + b
  {
    hide Sort, Affine;
    var n := |s|;
    SortAffine(s, k, b, n / 2);
    if n % 2 == 0 {
      SortAffine(s, k, b, n / 2 - 1);
      var x, y := Sort(s)[n / 2 - 1], Sort(s)[n / 2];
      assert k * ((x + y) / 2.0) == (k * x + k * y) / 2.0;
    }
  }

  lemma ScaledDistance(x: real, c: real, k: real, b: real)
    requires k > 0.0
    ensures Abs((k * x + b) - (k * c + b)) == k * Abs(x - c)
  {
    assert (k * x + b) - (k * c + b) == k * (x - c);
    if x < c {
      ProductNegative(x - c, k);
    } else {
      ProductNonnegative(k, x - c);
    }
  }

  lemma {:induction false} DeviationsAffine(s: seq<real>, c: real, k: real, b: real)
    requires k > 0.0
    ensures Deviations(Affine(s, k, b), k * c + b) == Affine(Deviations(s, c), k, 0.0)
  {
    if s != [] {
      hide Abs, Affine, Deviations;
      DeviationsAffine(s[1..], c, k, b);
      ScaledDistance(s[0], c, k, b);
      AffineCons(s, k, b);
      DeviationsCons(s, c);
      DeviationsCons(Affine(s, k, b), k * c + b);
      AffineCons(Deviations(s, c), k, 0.0);
      SameFirstAndRest(Deviations(Affine(s, k, b), k * c + b), Affine(Deviations(s, c), k, 0.0));
    }
  }

  lemma SameFirstAndRest(t: seq<real>, u: seq<real>)
    requires t != [] && u != [] && t[0] == u[0] && t[1..] == u[1..]
    ensures t == u
  {
    assert t == [t[0]] + t[1..] && u == [u[0]] + u[1..];
  }

  lemma AffineCons(s: seq<real>, k: real, b: real)
    requires s != []
    ensures Affine(s, k, b)[0] == k * s[0] + b && Affine(s, k, b)[1..] == Affine(s[1..], k, b)
  {
  }

  lemma DeviationsCons(s: seq<real>, c: real)
    requires s != []
    ensures Deviations(s, c) != []
    ensures Deviations(s, c)[0] == Abs(s[0] - c) && Deviations(s, c)[1..] == Deviations(s[1..], c)
  {
  }

  lemma MadAffine(s: seq<real>, k: real, b: real)
    requires k > 0.0 && |s| > 0
    ensures Mad(Affine(s, k, b)) == k * Mad(s)
  {
    hide Median, Affine, Deviations;
    var c, d := Median(s), Deviations(s, Median(s));
    MedianAffine(s, k, b);
    DeviationsAffine(s, c, k, b);
    DeviationsLength(s, c);
    MedianAffine(d, k, 0.0);
    MadIs(Affine(s, k, b), k * c + b, Affine(d, k, 0.0));
    MadIs(s, c, d);
  }

  lemma MadIs(s: seq<real>, center: real, deviations: seq<real>)
    requires |s| > 0 && Median(s) == center && Deviations(s, center) == deviations
    ensures |deviations| > 0 && Mad(s) == Median(deviations)
  {
    hide Median, Deviations;
    DeviationsLength(s, center);
  }

  /** The verdict does not depend on the unit or the origin in which amounts are measured. */
  lemma VerdictIsScaleFree(value: real, samples: seq<real>, threshold: real, k: real, b: real)
    requires threshold > 0.0 && k > 0.0
    ensures RobustMadScore(k * value + b, Affine(samples, k, b), threshold).anomalous
            == RobustMadScore(value, samples, threshold).anomalous
  {
    hide RobustMadScore, Median, Mad, Affine, Abs;
    FlaggedIff(value, samples, threshold);
    FlaggedIff(k * value + b, Affine(samples, k, b), threshold);
    if |samples| >= MIN_SAMPLES {
      MedianAffine(samples, k, b);
      MadAffine(samples, k, b);
      ScaledVerdict(value, Median(samples), Mad(samples), k * value + b, Median(Affine(samples, k, b)),
                    Mad(Affine(samples, k, b)), threshold, k, b);
    }
  }

  lemma ScaledVerdict(value: real, center: real, mad: real, value': real, center': real, mad': real,
                      threshold: real, k: real, b: real)
    requires k > 0.0 && value' == k * value + b && center' == k * center + b && mad' == k * mad
    ensures mad' == 0.0 <==> mad == 0.0
    ensures value' == center' <==> value == center
    ensures CONSISTENCY * Abs(value' - center') >= threshold * mad'
            <==> CONSISTENCY * Abs(value - center) >= threshold * mad
  {
    ScaledDistance(value, center, k, b);
    ScaleOrder(value, center, k);
    ScaleOrder(center, value, k);
    ScaleOrder(mad, 0.0, k);
    ScaleOrder(0.0, mad, k);
    var p, q := threshold * mad, CONSISTENCY * Abs(value - center);
    ScaleOrder(p, q, k);
    assert k * p == threshold * (k * mad);
    assert k * q == CONSISTENCY * (k * Abs(value - center));
  }

  function Repeat(n: nat, x: real): seq<real> {
    if n == 0 then [] else [x] + Repeat(n - 1, x)
  }

  lemma {:induction false} CountRepeat(n: nat, x: real, lo: real, hi: real, y: real)
    ensures |Repeat(n, x)| == n
    ensures CountLe(Repeat(n, x), y) == (if x <= y then n else 0)
    ensures CountIn(Repeat(n, x), lo, hi) == (if lo <= x <= hi then n else 0)
  {
    if n > 0 {
      CountRepeat(n - 1, x, lo, hi, y);
      assert Repeat(n, x)[1..] == Repeat(n - 1, x);
    }
  }

  lemma {:induction false} CountInAppend(a: seq<real>, b: seq<real>, lo: real, hi: real)
    ensures CountIn(a + b, lo, hi) == CountIn(a, lo, hi) + CountIn(b, lo, hi)
  {
    if a == [] {
      assert a + b == b;
    } else {
      assert (a + b)[1..] == a[1..] + b;
      CountInAppend(a[1..], b, lo, hi);
    }
  }

  lemma TwoPointCounts(m: nat, low: real, high: real, y: real)
    requires low < high
    ensures var s := Repeat(m, low) + Repeat(m, high);
            && |s| == 2 * m && CountIn(s, low, low) == m
            && CountLe(s, y) == (if y < low then 0 else if y < high then m else 2 * m)
  {
    CountRepeat(m, low, low, low, y);
    CountRepeat(m, high, low, low, y);
    CountAppend(Repeat(m, low), Repeat(m, high), y);
    CountInAppend(Repeat(m, low), Repeat(m, high), low, low);
  }

  /** Exactly half is not enough: the other half pulls the median halfway to wherever it lies. */
  lemma HalfIsNotEnough(m: nat, low: real, high: real)
    requires m > 0 && low < high
    ensures var s := Repeat(m, low) + Repeat(m, high);
            2 * CountIn(s, low, low) == |s| > 0 && Median(s) == (low + high) / 2.0
  {
    hide Sort, CountLe, CountIn, Repeat;
    var s := Repeat(m, low) + Repeat(m, high);
    TwoPointCounts(m, low, high, low);
    var x, y := Sort(s)[m - 1], Sort(s)[m];
    OrderStatistic(s, low, m - 1);
    OrderStatistic(s, x, m - 1);
    TwoPointCounts(m, low, high, x);
    OrderStatistic(s, high, m);
    TwoPointCounts(m, low, high, high);
    OrderStatistic(s, y, m);
    TwoPointCounts(m, low, high, y);
  }

  // -------------------------------------------------------------- percentile

  datatype Percentile = NoValues | IndexError | Value(value: real)

  /** `int(x)`: truncation toward zero. */
  function Truncate(x: real): int {
    if x >= 0.0 then x.Floor else -((-x).Floor)
  }

  /** Python indexing, where negative indexes count from the end. */
  function At(a: seq<real>, i: int): Option<real> {
    if 0 <= i < |a| then Some(a[i]) else if -|a| <= i < 0 then Some(a[|a| + i]) else None
  }

  /** The sample at a position among the sorted ones, interpolated between two neighbours. */
  function AtPosition(ordered: seq<real>, position: real): Percentile
    requires |ordered| > 0
  {
    var lower := Truncate(position);
    var upper := if lower + 1 < |ordered| - 1 then lower + 1 else |ordered| - 1;
    var fraction := position - lower as real;
    match (At(ordered, lower), At(ordered, upper))
    case (Some(l), Some(u)) => Value(Line(l, u, fraction))
    case _ => IndexError
  }

  function Line(l: real, u: real, f: real): real {
    l + (u - l) * f
  }

  function PercentileOf(values: seq<real>, quantile: real): Percentile {
    if values == [] then NoValues
    else
      var ordered := Sort(values);
      if |ordered| == 1 then Value(ordered[0])
      else AtPosition(ordered, Position(|ordered|, quantile))
  }

  /** The value interpolated at a position within a sorted list. */
  function Interpolate(a: seq<real>, position: real): real
    requires |a| > 0 && 0.0 <= position <= (|a| - 1) as real
  {
    var i := position.Floor;
    if i == |a| - 1 then a[i] else Line(a[i], a[i + 1], position - i as real)
  }

  /** A quantile as a position among `n` samples. */
  function Position(n: nat, quantile: real): real {
    (n - 1) as real * quantile
  }

  lemma PositionInside(n: nat, q: real)
    requires n > 0 && 0.0 <= q <= 1.0
    ensures 0.0 <= Position(n, q) <= (n - 1) as real
  {
    ProductNonnegative((n - 1) as real, q);
    ProductNonnegative((n - 1) as real, 1.0 - q);
  }

  lemma PositionMonotone(n: nat, p: real, q: real)
    requires n > 0 && p <= q
    ensures Position(n, p) <= Position(n, q)
  {
    ProductNonnegative((n - 1) as real, q - p);
  }

  lemma AtPositionInterpolates(a: seq<real>, position: real)
    requires |a| > 0 && 0.0 <= position <= (|a| - 1) as real
    ensures AtPosition(a, position) == Value(Interpolate(a, position))
    ensures |a| == 1 ==> Interpolate(a, position) == a[0]
  {
  }

  /** Within the unit interval the percentile is the interpolated order statistic. */
  lemma PercentileInterpolates(values: seq<real>, q: real)
    requires |values| > 0 && 0.0 <= q <= 1.0
    ensures 0.0 <= Position(|values|, q) <= (|values| - 1) as real
    ensures PercentileOf(values, q) == Value(Interpolate(Sort(values), Position(|values|, q)))
  {
    hide AtPosition, Interpolate, Position, Sort;
    PositionInside(|values|, q);
    AtPositionInterpolates(Sort(values), Position(|values|, q));
  }

  /** No samples have no percentile, and a single one is its own at every quantile. */
  lemma FewSamples(values: seq<real>, q: real)
    ensures PercentileOf(values, q) == NoValues <==> values == []
    ensures |values| == 1 ==> PercentileOf(values, q) == Value(values[0])
  {
    hide Position, Line;
    if |values| == 1 {
      assert values[1..] == [];
      assert Sort(values) == Insert(values[0], []) == [values[0]];
    }
  }

  /**
   The lookup at any quantile, with `i` the position truncated toward zero: it
   fails exactly when `i` is no index, where negative indexes count from the
   end, and otherwise goes on from sample `i` toward the next one.
   */
  lemma LookupIs(values: seq<real>, q: real, i: int)
    requires |values| > 1
    requires var p := Position(|values|, q);
             if p >= 0.0 then i as real <= p < i as real + 1.0 else i as real - 1.0 < p <= i as real
    ensures var a, n, p := Sort(values), |values|, Position(|values|, q);
            && (!(-n <= i < n) ==> PercentileOf(values, q) == IndexError)
            && (-n <= i < n ==>
                  var l := if i < 0 then a[n + i] else a[i];
                  var u := if i < -1 then a[n + i + 1] else if i < n - 1 then a[i + 1] else a[n - 1];
                  PercentileOf(values, q) == Value(l + (u - l) * (p - i as real)))
  {
    hide Position, Sort, Truncate, AtPosition;
    var a, n, p := Sort(values), |values|, Position(|values|, q);
    TruncateIs(p, i);
    AtPositionIs(a, p, i);
    if -n <= i < n {
      var l := if i < 0 then a[n + i] else a[i];
      var u := if i < -1 then a[n + i + 1] else if i < n - 1 then a[i + 1] else a[n - 1];
      assert PercentileOf(values, q) == Value(Line(l, u, p - i as real));
      assert Line(l, u, p - i as real) == l + (u - l) * (p - i as real);
    }
  }

  lemma TruncateIs(x: real, i: int)
    requires if x >= 0.0 then i as real <= x < i as real + 1.0 else i as real - 1.0 < x <= i as real
    ensures Truncate(x) == i
  {
    if x < 0.0 {
      assert (-i) as real == -(i as real);
    }
  }

  lemma AtPositionIs(a: seq<real>, p: real, i: int)
    requires |a| > 1 && Truncate(p) == i
    ensures !(-|a| <= i < |a|) ==> AtPosition(a, p) == IndexError
    ensures -|a| <= i < |a| ==>
              AtPosition(a, p) == Value(Line(if i < 0 then a[|a| + i] else a[i],
                                             if i < -1 then a[|a| + i + 1]
                                             else if i < |a| - 1 then a[i + 1] else a[|a| - 1],
                                             p - i as real))
  {
    hide Truncate, Line;
  }

  lemma LineMonotone(l: real, u: real, f: real, g: real)
    requires l <= u && f <= g
    ensures Line(l, u, f) <= Line(l, u, g)
  {
    ProductNonnegative(u - l, g - f);
  }

  lemma LineBetween(l: real, u: real, f: real)
    requires l <= u && 0.0 <= f <= 1.0
    ensures l <= Line(l, u, f) <= u
  {
    LineMonotone(l, u, 0.0, f);
    LineMonotone(l, u, f, 1.0);
  }

  lemma InterpolateBetween(a: seq<real>, p: real)
    requires Sorted(a) && |a| > 0 && 0.0 <= p <= (|a| - 1) as real
    ensures a[p.Floor] <= Interpolate(a, p)
    ensures p.Floor < |a| - 1 ==> Interpolate(a, p) <= a[p.Floor + 1]
  {
    var i := p.Floor;
    if i < |a| - 1 {
      LineBetween(a[i], a[i + 1], p - i as real);
    }
  }

  lemma InterpolateMonotone(a: seq<real>, p: real, q: real)
    requires Sorted(a) && |a| > 0 && 0.0 <= p <= q <= (|a| - 1) as real
    ensures Interpolate(a, p) <= Interpolate(a, q)
  {
    var i, j := p.Floor, q.Floor;
    assert i <= j;
    if i == j {
      if i < |a| - 1 {
        LineMonotone(a[i], a[i + 1], p - i as real, q - i as real);
      }
    } else {
      InterpolateBetween(a, p);
      InterpolateBetween(a, q);
      assert a[i + 1] <= a[j];
    }
  }

  /** The percentile never falls when the quantile rises. */
  lemma PercentileMonotone(values: seq<real>, p: real, q: real)
    requires |values| > 0 && 0.0 <= p <= q <= 1.0
    ensures PercentileOf(values, p).Value? && PercentileOf(values, q).Value?
    ensures PercentileOf(values, p).value <= PercentileOf(values, q).value
  {
    hide PercentileOf, Interpolate, Position;
    PercentileInterpolates(values, p);
    PercentileInterpolates(values, q);
    PositionMonotone(|values|, p, q);
    SortSorted(values);
    InterpolateMonotone(Sort(values), Position(|values|, p), Position(|values|, q));
  }

  lemma PositionEnds(n: nat)
    requires n > 0
    ensures Position(n, 0.0) == 0.0 && Position(n, 1.0) == (n - 1) as real
  {
  }

  lemma InterpolateEnds(a: seq<real>)
    requires |a| > 0
    ensures Interpolate(a, 0.0) == a[0] && Interpolate(a, (|a| - 1) as real) == a[|a| - 1]
  {
  }

  /** At the ends of the unit interval it is the smallest and the largest sample. */
  lemma PercentileEnds(values: seq<real>)
    requires |values| > 0
    ensures PercentileOf(values, 0.0) == Value(Sort(values)[0])
    ensures PercentileOf(values, 1.0) == Value(Sort(values)[|values| - 1])
  {
    hide PercentileOf, Interpolate, Position;
    PercentileInterpolates(values, 0.0);
    PercentileInterpolates(values, 1.0);
    PositionEnds(|values|);
    InterpolateEnds(Sort(values));
  }

  /** It lies between the smallest and the largest sample. */
  lemma PercentileBetween(values: seq<real>, q: real)
    requires |values| > 0 && 0.0 <= q <= 1.0
    ensures PercentileOf(values, q).Value?
    ensures Sort(values)[0] <= PercentileOf(values, q).value <= Sort(values)[|values| - 1]
  {
    PercentileEnds(values);
    PercentileMonotone(values, 0.0, q);
    PercentileMonotone(values, q, 1.0);
  }

  /** It does not depend on the order of the samples. */
  lemma PercentilePermuted(s: seq<real>, t: seq<real>, q: real)
    requires multiset(s) == multiset(t)
    ensures PercentileOf(s, q) == PercentileOf(t, q)
  {
    hide AtPosition, Position;
    PermutedSort(s, t);
    assert |s| == |multiset(s)| == |t|;
  }

  lemma LineRaised(l: real, u: real, l': real, u': real, f: real)
    requires l <= l' && u <= u' && 0.0 <= f <= 1.0
    ensures Line(l, u, f) <= Line(l', u', f)
  {
    ProductNonnegative(l' - l, 1.0 - f);
    ProductNonnegative(u' - u, f);
  }

  lemma InterpolateRaised(s: seq<real>, t: seq<real>, p: real)
    requires |s| > 0 && Raised(s, t) && 0.0 <= p <= (|s| - 1) as real
    ensures Interpolate(Sort(s), p) <= Interpolate(Sort(t), p)
  {
    hide Sort;
    var i := p.Floor;
    RaisedSort(s, t, i);
    if i < |s| - 1 {
      RaisedSort(s, t, i + 1);
      LineRaised(Sort(s)[i], Sort(s)[i + 1], Sort(t)[i], Sort(t)[i + 1], p - i as real);
    }
  }

  /** It never falls when samples are raised. */
  lemma PercentileRaised(s: seq<real>, t: seq<real>, q: real)
    requires |s| > 0 && Raised(s, t) && 0.0 <= q <= 1.0
    ensures PercentileOf(s, q).Value? && PercentileOf(t, q).Value?
    ensures PercentileOf(s, q).value <= PercentileOf(t, q).value
  {
    hide PercentileOf, Interpolate, Position;
    PercentileInterpolates(s, q);
    PercentileInterpolates(t, q);
    InterpolateRaised(s, t, Position(|s|, q));
  }

  /** At one half it is the median. */
  lemma HalfIsMedian(values: seq<real>)
    requires |values| > 0
    ensures PercentileOf(values, 0.5) == Value(Median(values))
  {
    var n := |values|;
    var position := Position(n, 0.5);
    PercentileInterpolates(values, 0.5);
    if n % 2 == 1 {
      assert position == (n / 2) as real;
    } else {
      assert position == (n / 2 - 1) as real + 0.5;
      assert position.Floor == n / 2 - 1;
    }
  }
}
