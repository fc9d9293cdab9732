/** The performance analyser: the ledger reduced to win/loss statistics and
    the maximum drawdown of its cumulative-profit curve (src/lib.rs,
    calculate_performance_metrics). */
module Metrics {
  import opened Types
  import opened Series

  // ---------------------------------------------------------------------
  // Sorting and medians (the robust win/loss ratio)
  // ---------------------------------------------------------------------

  predicate IsSorted(s: seq<real>) {
    forall i, j :: 0 <= i < j < |s| ==> s[i] <= s[j]
  }

  /** Inserts x into an ascending sequence. */
  function Insert(x: real, s: seq<real>): (r: seq<real>)
    requires IsSorted(s)
    ensures IsSorted(r)
    ensures multiset(r) == multiset(s) + multiset{x}
    decreases |s|
  {
    if s == [] then [x]
    else if x <= s[0] then [x] + s
    else
      var rest := Insert(x, s[1..]);
      assert s == [s[0]] + s[1..];
      BoundedByMultiset(s[0], rest, multiset(s[1..]) + multiset{x});
      ConsSorted(s[0], rest);
      [s[0]] + rest
  }

  /** A lower bound of every element of a multiset bounds every element of
      a sequence with that multiset. */
  lemma BoundedByMultiset(a: real, r: seq<real>, m: multiset<real>)
    requires multiset(r) == m && forall y :: y in m ==> a <= y
    ensures forall k :: 0 <= k < |r| ==> a <= r[k]
  {
    forall k | 0 <= k < |r|
      ensures a <= r[k]
    {
      assert r[k] in multiset(r);
    }
  }

  /** A lower bound of a sorted sequence can be put in front of it. */
  lemma ConsSorted(a: real, r: seq<real>)
    requires IsSorted(r) && forall k :: 0 <= k < |r| ==> a <= r[k]
    ensures IsSorted([a] + r)
  {
  }

  /** The ascending rearrangement of an amount list (the engine sorts the
      win and loss amounts before taking medians). */
  function Sort(s: seq<real>): (r: seq<real>)
    ensures IsSorted(r)
    ensures multiset(r) == multiset(s)
    decreases |s|
  {
    if s == [] then []
    else
      assert s == [s[0]] + s[1..];
      Insert(s[0], Sort(s[1..]))
  }

  /** Middle element for odd length, mean of the two middle elements for even
      length, 0 for an empty list. */
  function Median(s: seq<real>): real {
    if |s| == 0 then 0.0
    else
      var mid := |s| / 2;
      if |s| % 2 == 0 then (s[mid - 1] + s[mid]) / 2.0 else s[mid]
  }

  /** The median of a sorted list lies between its smallest and largest element. */
  lemma MedianWithinRange(s: seq<real>)
    requires IsSorted(s) && |s| > 0
    ensures s[0] <= Median(s) <= s[|s| - 1]
  {
  }

  /** The median of a list of positive amounts is positive. */
  lemma MedianOfPositives(s: seq<real>)
    requires |s| > 0
    requires forall i :: 0 <= i < |s| ==> s[i] > 0.0
    ensures Median(Sort(s)) > 0.0
  {
    var t := Sort(s);
    assert |t| == |multiset(t)| == |multiset(s)| == |s|;
    assert t[0] in multiset(s);
    MedianWithinRange(t);
  }

  // ---------------------------------------------------------------------
  // The statistics, as functions of the profit list
  // ---------------------------------------------------------------------

  /** Arithmetic mean, 0 for an empty list. */
  function Mean(s: seq<real>): real {
    if |s| == 0 then 0.0 else Sum(s) / |s| as real
  }

  function WinProbability(ps: seq<real>): real
    requires |ps| > 0
  {
    |Positives(ps)| as real / |ps| as real
  }

  function LossProbability(ps: seq<real>): real
    requires |ps| > 0
  {
    |Negatives(ps)| as real / |ps| as real
  }

  /** Mean profit of the winning trades. */
  function AvgWin(ps: seq<real>): real {
    Mean(Positives(ps))
  }

  /** Mean profit of the losing trades: a signed (non-positive) amount. */
  function AvgLoss(ps: seq<real>): real {
    Mean(Negatives(ps))
  }

  function MedianWin(ps: seq<real>): real {
    Median(Sort(Positives(ps)))
  }

  /** Median of the magnitudes of the losses. */
  function MedianLoss(ps: seq<real>): real {
    Median(Sort(Magnitudes(Negatives(ps))))
  }

  function WinLossRatio(ps: seq<real>): real {
    if MedianLoss(ps) != 0.0 then MedianWin(ps) / MedianLoss(ps) else 0.0
  }

  function GrossProfit(ps: seq<real>): real {
    Sum(Positives(ps))
  }

  function GrossLoss(ps: seq<real>): real {
    Sum(Magnitudes(Negatives(ps)))
  }

  function ProfitFactor(ps: seq<real>): real {
    if GrossLoss(ps) != 0.0 then GrossProfit(ps) / GrossLoss(ps) else 0.0
  }

  /** win_probability * avg_win - loss_probability * |avg_loss|. */
  function Expectancy(ps: seq<real>): real
    requires |ps| > 0
  {
    WinProbability(ps) * AvgWin(ps) - LossProbability(ps) * Abs(AvgLoss(ps))
  }

  // ---------------------------------------------------------------------
  // Properties of the statistics
  // ---------------------------------------------------------------------

  /** Both probabilities are frequencies and, since break-even trades are
      in neither class, they add up to at most 1. */
  lemma ProbabilitiesBounded(ps: seq<real>)
    requires |ps| > 0
    ensures 0.0 <= WinProbability(ps) <= 1.0
    ensures 0.0 <= LossProbability(ps) <= 1.0
    ensures WinProbability(ps) + LossProbability(ps) <= 1.0
  {
    PartitionSize(ps);
    FractionsBounded(|Positives(ps)| as real, |Negatives(ps)| as real, |ps| as real);
  }

  lemma FractionsBounded(a: real, b: real, n: real)
    requires 0.0 <= a && 0.0 <= b && a + b <= n && n > 0.0
    ensures 0.0 <= a / n <= 1.0 && 0.0 <= b / n <= 1.0 && a / n + b / n <= 1.0
  {
    assert a / n + b / n == (a + b) / n;
    QuotientSign(a, n);
    QuotientSign(b, n);
    assert (a + b) / n <= n / n;
  }

  lemma QuotientSign(x: real, y: real)
    requires y > 0.0
    ensures x > 0.0 ==> x / y > 0.0
    ensures x >= 0.0 ==> x / y >= 0.0
    ensures x == 0.0 ==> x / y == 0.0
  {
  }

  /** avg_loss is a non-positive mean, zero exactly when there is no loss;
      avg_win is a non-negative mean, zero exactly when there is no win. */
  lemma AveragesSigns(ps: seq<real>)
    ensures AvgLoss(ps) <= 0.0
    ensures AvgLoss(ps) == 0.0 <==> forall i :: 0 <= i < |ps| ==> ps[i] >= 0.0
    ensures AvgWin(ps) >= 0.0
    ensures AvgWin(ps) == 0.0 <==> forall i :: 0 <= i < |ps| ==> ps[i] <= 0.0
  {
    SumOfNegatives(Negatives(ps));
    SumOfPositives(Positives(ps));
    NoNegativesIff(ps);
    NoPositivesIff(ps);
  }

  lemma LossMagnitudesPositive(ps: seq<real>)
    ensures forall i :: 0 <= i < |Magnitudes(Negatives(ps))| ==> Magnitudes(Negatives(ps))[i] > 0.0
  {
  }

  /** The robust win/loss ratio is non-negative, and it is 0 exactly when the
      ledger has no winning trade or no losing trade. */
  lemma WinLossRatioZeroIff(ps: seq<real>)
    ensures WinLossRatio(ps) >= 0.0
    ensures WinLossRatio(ps) == 0.0 <==> (|Positives(ps)| == 0 || |Negatives(ps)| == 0)
  {
    var mw, ml := MedianWin(ps), MedianLoss(ps);
    assert |Negatives(ps)| == 0 ==> ml == 0.0;
    assert |Positives(ps)| == 0 ==> mw == 0.0;
    if |Negatives(ps)| > 0 {
      LossMagnitudesPositive(ps);
      MedianOfPositives(Magnitudes(Negatives(ps)));
      assert ml > 0.0;
      if |Positives(ps)| > 0 {
        MedianOfPositives(Positives(ps));
        assert mw > 0.0;
      }
      QuotientSign(mw, ml);
    }
  }

  /** The profit factor is non-negative, and it is 0 exactly when the ledger
      has no winning trade or no losing trade. */
  lemma ProfitFactorZeroIff(ps: seq<real>)
    ensures ProfitFactor(ps) >= 0.0
    ensures ProfitFactor(ps) == 0.0 <==> (|Positives(ps)| == 0 || |Negatives(ps)| == 0)
  {
    SumOfPositives(Positives(ps));
    SumMagnitudesOfNegatives(Negatives(ps));
    SumOfNegatives(Negatives(ps));
  }

  /** The expectancy formula reduces to the mean profit per trade. */
  lemma ExpectancyIsMeanProfit(ps: seq<real>)
    requires |ps| > 0
    ensures Expectancy(ps) == Sum(ps) / |ps| as real
  {
    WinTerm(ps);
    LossTerm(ps);
    GrossDifference(ps);
    DifferenceOfQuotients(Expectancy(ps), WinProbability(ps) * AvgWin(ps),
      LossProbability(ps) * Abs(AvgLoss(ps)), GrossProfit(ps), GrossLoss(ps), Sum(ps), |ps| as real);
  }

  /** The winning side of the expectancy is the gross profit per trade. */
  lemma WinTerm(ps: seq<real>)
    requires |ps| > 0
    ensures WinProbability(ps) * AvgWin(ps) == GrossProfit(ps) / |ps| as real
  {
    FrequencyTimesMean(Positives(ps), WinProbability(ps), AvgWin(ps), GrossProfit(ps), |ps| as real);
  }

  /** The losing side of the expectancy is the gross loss per trade. */
  lemma LossTerm(ps: seq<real>)
    requires |ps| > 0
    ensures LossProbability(ps) * Abs(AvgLoss(ps)) == GrossLoss(ps) / |ps| as real
  {
    FrequencyTimesMeanMagnitude(Negatives(ps), LossProbability(ps), Abs(AvgLoss(ps)), GrossLoss(ps), |ps| as real);
  }

  /** Gross profit minus gross loss is the net profit of the ledger. */
  lemma GrossDifference(ps: seq<real>)
    ensures GrossProfit(ps) - GrossLoss(ps) == Sum(ps)
  {
    SumPartition(ps);
    SumMagnitudesOfNegatives(Negatives(ps));
  }

  /** A class's share of n trades times the class mean is its total over n. */
  lemma FrequencyTimesMean(c: seq<real>, share: real, mean: real, total: real, n: real)
    requires n > 0.0 && share == |c| as real / n && mean == Mean(c) && total == Sum(c)
    ensures share * mean == total / n
  {
    if |c| > 0 {
      CancelCount(|c| as real, n, Sum(c));
    }
  }

  /** The same for the magnitudes of a class of losses. */
  lemma FrequencyTimesMeanMagnitude(c: seq<real>, share: real, magnitude: real, total: real, n: real)
    requires n > 0.0 && forall i :: 0 <= i < |c| ==> c[i] < 0.0
    requires share == |c| as real / n && magnitude == Abs(Mean(c)) && total == Sum(Magnitudes(c))
    ensures share * magnitude == total / n
  {
    SumOfNegatives(c);
    SumMagnitudesOfNegatives(c);
    if |c| > 0 {
      NegatedQuotient(Sum(c), |c| as real);
      CancelCount(|c| as real, n, -Sum(c));
    }
  }

  lemma CancelCount(w: real, n: real, s: real)
    requires w > 0.0 && n > 0.0
    ensures (w / n) * (s / w) == s / n
  {
    assert (w / n) * (s / w) == (w * s) / (n * w);
  }

  lemma NegatedQuotient(s: real, l: real)
    requires s <= 0.0 && l > 0.0
    ensures Abs(s / l) == -s / l
  {
    QuotientSign(-s, l);
  }

  lemma DifferenceOfQuotients(e: real, x: real, y: real, a: real, b: real, total: real, n: real)
    requires n > 0.0 && e == x - y && x == a / n && y == b / n && total == a - b
    ensures e == total / n
  {
  }

  // ---------------------------------------------------------------------
  // Drawdown of the cumulative-profit curve
  // ---------------------------------------------------------------------

  /** The running peak after k trades; the peak starts at 0. */
  function Peak(ps: seq<real>, k: nat): real
    requires k <= |ps|
  {
    if k == 0 then 0.0 else Max(Peak(ps, k - 1), PrefixSum(ps, k))
  }

  /** The largest peak-minus-equity value seen after k trades. */
  function MaxDrawdown(ps: seq<real>, k: nat): real
    requires k <= |ps|
  {
    if k == 0 then 0.0 else Max(MaxDrawdown(ps, k - 1), Peak(ps, k) - PrefixSum(ps, k))
  }

  /** The running peak is the largest point of the curve so far, counting
      the starting point 0 (PrefixSum(ps, 0)). */
  lemma {:induction false} PeakIsRunningMaximum(ps: seq<real>, k: nat)
    requires k <= |ps|
    ensures forall j :: 0 <= j <= k ==> Peak(ps, k) >= PrefixSum(ps, j)
    ensures exists j :: 0 <= j <= k && Peak(ps, k) == PrefixSum(ps, j)
  {
    assert ps[..0] == [];
    if k == 0 {
      assert Peak(ps, 0) == PrefixSum(ps, 0);
    } else {
      PeakIsRunningMaximum(ps, k - 1);
      if Peak(ps, k) != PrefixSum(ps, k) {
        var j :| 0 <= j <= k - 1 && Peak(ps, k - 1) == PrefixSum(ps, j);
        assert Peak(ps, k) == PrefixSum(ps, j);
      }
    }
  }

  /** The maximum drawdown is the largest fall of the curve from an earlier
      (or the same) point to a later one, the curve starting at 0. */
  lemma {:induction false} MaxDrawdownIsLargestDecline(ps: seq<real>, k: nat)
    requires k <= |ps|
    ensures forall i, j :: 0 <= i <= j <= k ==> MaxDrawdown(ps, k) >= PrefixSum(ps, i) - PrefixSum(ps, j)
    ensures exists i, j :: 0 <= i <= j <= k && MaxDrawdown(ps, k) == PrefixSum(ps, i) - PrefixSum(ps, j)
    ensures MaxDrawdown(ps, k) >= 0.0
  {
    if k == 0 {
      assert MaxDrawdown(ps, 0) == PrefixSum(ps, 0) - PrefixSum(ps, 0);
    } else {
      MaxDrawdownIsLargestDecline(ps, k - 1);
      PeakIsRunningMaximum(ps, k);
      if MaxDrawdown(ps, k) == MaxDrawdown(ps, k - 1) {
        var i, j :| 0 <= i <= j <= k - 1 && MaxDrawdown(ps, k - 1) == PrefixSum(ps, i) - PrefixSum(ps, j);
        assert MaxDrawdown(ps, k) == PrefixSum(ps, i) - PrefixSum(ps, j);
      } else {
        var i :| 0 <= i <= k && Peak(ps, k) == PrefixSum(ps, i);
        assert MaxDrawdown(ps, k) == PrefixSum(ps, i) - PrefixSum(ps, k);
      }
    }
  }

  // ---------------------------------------------------------------------
  // The engine call
  // ---------------------------------------------------------------------

  /** Rejects an empty ledger; otherwise computes every statistic and scans
      the cumulative-profit curve for its maximum drawdown. */
  method CalculatePerformanceMetrics(trades: seq<Trade>) returns (r: Result<PerformanceMetrics>)
    ensures r.Failure? <==> |trades| == 0
    ensures r.Failure? ==> r.error == NoTrades
    ensures r.Success? ==>
      var m, ps := r.value, Profits(trades);
      && m.totalTrades == |trades|
      && m.winProbability == WinProbability(ps)
      && m.lossProbability == LossProbability(ps)
      && m.avgWin == AvgWin(ps)
      && m.avgLoss == AvgLoss(ps)
      && m.winLossRatio == WinLossRatio(ps)
      && m.profitFactor == ProfitFactor(ps)
      && m.expectancy == Sum(ps) / |ps| as real
      && m.maxDrawdown == MaxDrawdown(ps, |ps|)
      && m.sharpeRatio == None
    ensures r.Success? ==>
      var m := r.value;
      && 0.0 <= m.winProbability <= 1.0
      && 0.0 <= m.lossProbability <= 1.0
      && m.winProbability + m.lossProbability <= 1.0
      && m.avgWin >= 0.0 && m.avgLoss <= 0.0
      && m.winLossRatio >= 0.0 && m.profitFactor >= 0.0
      && m.maxDrawdown >= 0.0
  {
    if |trades| == 0 {
      return Failure(NoTrades);
    }
    var ps := Profits(trades);

    var equity, peak, maxDrawdown := 0.0, 0.0, 0.0;
    for i := 0 to |ps|
      invariant equity == PrefixSum(ps, i)
      invariant peak == Peak(ps, i)
      invariant maxDrawdown == MaxDrawdown(ps, i)
    {
      PrefixSumStep(ps, i);
      equity := equity + ps[i];
      if equity > peak {
        peak := equity;
      }
      var drawdown := peak - equity;
      if drawdown > maxDrawdown {
        maxDrawdown := drawdown;
      }
    }

    ProbabilitiesBounded(ps);
    AveragesSigns(ps);
    WinLossRatioZeroIff(ps);
    ProfitFactorZeroIff(ps);
    ExpectancyIsMeanProfit(ps);
    MaxDrawdownIsLargestDecline(ps, |ps|);
    r := Success(PerformanceMetrics(
      |trades|, WinProbability(ps), LossProbability(ps), AvgWin(ps), AvgLoss(ps),
      WinLossRatio(ps), ProfitFactor(ps), Expectancy(ps), maxDrawdown, None));
  }
}
