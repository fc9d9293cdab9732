/** The Kelly criterion: the fraction of capital to risk per trade given the
    probability of a win and the ratio of the average win to the average
    loss, scaled by a fractional multiplier (src/lib.rs,
    calculate_kelly_criterion). */
module Kelly {
  import opened Types

  /** Validates the inputs (the probability first), then returns the scaled
      Kelly fraction p - (1 - p) / R, which is never clamped. */
  function CalculateKellyCriterion(winProb: real, winLossRatio: real, multiplier: real): (r: Result<real>)
    ensures r.Failure? <==> winProb <= 0.0 || winProb >= 1.0 || winLossRatio <= 0.0
    ensures (winProb <= 0.0 || winProb >= 1.0) ==> r == Failure(WinProbabilityOutOfRange)
    ensures 0.0 < winProb < 1.0 && winLossRatio <= 0.0 ==> r == Failure(NonPositiveWinLossRatio)
  {
    if winProb <= 0.0 || winProb >= 1.0 then Failure(WinProbabilityOutOfRange)
    else if winLossRatio <= 0.0 then Failure(NonPositiveWinLossRatio)
    else Success((winProb - (1.0 - winProb) / winLossRatio) * multiplier)
  }

  /** The edge-over-odds form of the Kelly bet: f * R = (p * (R + 1) - 1) * m. */
  lemma KellyIsEdgeOverOdds(p: real, ratio: real, m: real)
    requires CalculateKellyCriterion(p, ratio, m).Success?
    ensures CalculateKellyCriterion(p, ratio, m).value * ratio == (p * (ratio + 1.0) - 1.0) * m
  {
    var k := p - (1.0 - p) / ratio;
    assert k * ratio == p * ratio - (1.0 - p) by {
      assert ((1.0 - p) / ratio) * ratio == 1.0 - p;
    }
    assert (k * m) * ratio == (k * ratio) * m;
  }

  /** With a positive multiplier the bet is positive exactly when the edge
      p * (R + 1) - 1 is positive, zero exactly when it is zero. */
  lemma KellySign(p: real, ratio: real, m: real)
    requires CalculateKellyCriterion(p, ratio, m).Success? && m > 0.0
    ensures CalculateKellyCriterion(p, ratio, m).value > 0.0 <==> p * (ratio + 1.0) > 1.0
    ensures CalculateKellyCriterion(p, ratio, m).value == 0.0 <==> p * (ratio + 1.0) == 1.0
    ensures CalculateKellyCriterion(p, ratio, m).value < 0.0 <==> p * (ratio + 1.0) < 1.0
  {
    KellyIsEdgeOverOdds(p, ratio, m);
    var f := CalculateKellyCriterion(p, ratio, m).value;
    var edge := p * (ratio + 1.0) - 1.0;
    ProductSign(f, ratio);
    ProductSign(edge, m);
  }

  lemma ProductSign(x: real, y: real)
    requires y > 0.0
    ensures x * y > 0.0 <==> x > 0.0
    ensures x * y == 0.0 <==> x == 0.0
    ensures x * y < 0.0 <==> x < 0.0
  {
    if x > 0.0 {
      assert x * y > 0.0;
    } else if x < 0.0 {
      assert x * y < 0.0;
    }
  }

  /** The bet never exceeds the scaled win probability: the loss side only
      subtracts. */
  lemma KellyBelowWinProbability(p: real, ratio: real, m: real)
    requires CalculateKellyCriterion(p, ratio, m).Success? && m > 0.0
    ensures CalculateKellyCriterion(p, ratio, m).value < p * m
  {
    var q := (1.0 - p) / ratio;
    assert q > 0.0;
    assert (p - q) * m == p * m - q * m;
    assert q * m > 0.0;
  }

  /** The multiplier scales the full Kelly fraction linearly. */
  lemma KellyScalesWithMultiplier(p: real, ratio: real, m: real)
    requires CalculateKellyCriterion(p, ratio, m).Success?
    ensures CalculateKellyCriterion(p, ratio, m).value == CalculateKellyCriterion(p, ratio, 1.0).value * m
  {
  }

  /** No clamping: a favourable bet can exceed the whole account and an
      unfavourable one is returned negative. */
  lemma KellyIsNotClamped()
    ensures CalculateKellyCriterion(0.9, 100.0, 2.0) == Success(1.798)
    ensures CalculateKellyCriterion(0.1, 1.0, 1.0) == Success(-0.8)
  {
  }
}
