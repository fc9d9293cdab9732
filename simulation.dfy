/** The prop-firm challenge simulator (src/lib.rs,
    run_monte_carlo_simulation): each simulated path replays a bootstrap
    resample of the ledger's profits against the challenge rules, and the
    pass count becomes a pass rate. The random indices of the resamples are
    an input. */
module Simulation {
  import opened Types
  import opened Series

  /** The profit target: the account grown by the target percentage. */
  function TargetEquity(p: ChallengeParams): real {
    p.accountSize * (1.0 + p.profitTargetPercent / 100.0)
  }

  /** The overall-loss floor, measured from the initial balance. */
  function FloorEquity(p: ChallengeParams): real {
    p.accountSize * (1.0 - p.maxOverallLossPercent / 100.0)
  }

  /** How a path ended: the final equity and whether a loss limit was hit. */
  datatype PathEnd = PathEnd(equity: real, breached: bool)

  /** The running state of a path: equity and the day's profit and loss. */
  datatype Account = Account(equity: real, dailyPl: real)

  /** What the checks after a trade decide, in the order they are made. */
  datatype Verdict = DailyLimitHit | FloorHit | TargetReached | Continue

  /** The profit or loss of one trade: the position (equity times the risk
      fraction) times the return, read as a percentage. */
  function TradePl(equity: real, riskFraction: real, ret: real): real {
    equity * riskFraction * (ret / 100.0)
  }

  /** A trade's profit or loss is added to both the equity and the day. */
  function AfterTrade(a: Account, riskFraction: real, ret: real): Account {
    Account(EquityAfter(a.equity, riskFraction, ret), a.dailyPl + TradePl(a.equity, riskFraction, ret))
  }

  function EquityAfter(equity: real, riskFraction: real, ret: real): real {
    equity + TradePl(equity, riskFraction, ret)
  }

  /** The daily limit first, then the overall floor, then the target. */
  function Check(p: ChallengeParams, a: Account): Verdict
    requires p.accountSize != 0.0
  {
    if a.dailyPl / p.accountSize < -p.maxDailyLossPercent / 100.0 then DailyLimitHit
    else if a.equity < FloorEquity(p) then FloorHit
    else if a.equity >= TargetEquity(p) then TargetReached
    else Continue
  }

  /** The state carried to the next trade. */
  function NextDay(a: Account, resetDaily: bool): Account {
    if resetDaily then a.(dailyPl := 0.0) else a
  }

  /** Replays the returns from the given state until a check ends the path
      or the returns run out. */
  function Walk(p: ChallengeParams, riskFraction: real, rets: seq<real>, resetDaily: bool, a: Account): PathEnd
    requires p.accountSize != 0.0
    decreases |rets|
  {
    if |rets| == 0 then PathEnd(a.equity, false)
    else
      var b := AfterTrade(a, riskFraction, rets[0]);
      match Check(p, b)
      case DailyLimitHit => PathEnd(b.equity, true)
      case FloorHit => PathEnd(b.equity, true)
      case TargetReached => PathEnd(b.equity, false)
      case Continue => Walk(p, riskFraction, rets[1..], resetDaily, NextDay(b, resetDaily))
  }

  /** A path starts with the whole account and no daily P&L. The daily P&L
      resets after every trade only on paths longer than 100 trades. */
  function PathEndOf(p: ChallengeParams, riskFraction: real, rets: seq<real>): PathEnd
    requires p.accountSize != 0.0
  {
    Walk(p, riskFraction, rets, |rets| > 100, Account(p.accountSize, 0.0))
  }

  /** A path passes when no limit was hit and the final equity reaches the
      target. */
  predicate PathPasses(p: ChallengeParams, riskFraction: real, rets: seq<real>)
    requires p.accountSize != 0.0
  {
    var end := PathEndOf(p, riskFraction, rets);
    !end.breached && end.equity >= TargetEquity(p)
  }

  /** The per-path loop, with its three early exits. */
  method SimulatePath(p: ChallengeParams, riskFraction: real, rets: seq<real>) returns (passed: bool)
    requires p.accountSize != 0.0
    ensures passed == PathPasses(p, riskFraction, rets)
  {
    var resetDaily := |rets| > 100;
    var equity := p.accountSize;
    var dailyPl := 0.0;
    passed := true;
    ghost var end := PathEndOf(p, riskFraction, rets);
    assert FloorEquity(p) == p.accountSize * (1.0 - p.maxOverallLossPercent / 100.0);
    assert TargetEquity(p) == p.accountSize * (1.0 + p.profitTargetPercent / 100.0);
    for i := 0 to |rets|
      invariant Walk(p, riskFraction, rets[i..], resetDaily, Account(equity, dailyPl)) == end
      invariant passed
    {
      assert rets[i..][1..] == rets[i + 1..];
      ghost var a := Account(equity, dailyPl);
      var positionSize := equity * riskFraction;
      var tradePl := positionSize * (rets[i] / 100.0);
      assert tradePl == TradePl(a.equity, riskFraction, rets[i]);
      dailyPl := dailyPl + tradePl;
      equity := equity + tradePl;
      ghost var b := AfterTrade(a, riskFraction, rets[i]);
      assert Account(equity, dailyPl) == b;
      if dailyPl / p.accountSize < -p.maxDailyLossPercent / 100.0 {
        assert Check(p, b) == DailyLimitHit;
        passed := false;
        break;
      }
      if equity < p.accountSize * (1.0 - p.maxOverallLossPercent / 100.0) {
        assert Check(p, b) == FloorHit;
        passed := false;
        break;
      }
      if equity >= p.accountSize * (1.0 + p.profitTargetPercent / 100.0) {
        assert Check(p, b) == TargetReached;
        break;
      }
      assert Check(p, b) == Continue;
      if resetDaily {
        dailyPl := 0.0;
      }
      assert Account(equity, dailyPl) == NextDay(b, resetDaily);
    }
    passed := passed && equity >= p.accountSize * (1.0 + p.profitTargetPercent / 100.0);
  }

  // ---------------------------------------------------------------------
  // Properties of a path
  // ---------------------------------------------------------------------

  /** The equity factor of one trade. */
  function GrowthFactor(riskFraction: real, ret: real): real {
    1.0 + riskFraction * (ret / 100.0)
  }

  /** The product of the equity factors of a sequence of returns. */
  function Compounded(riskFraction: real, rets: seq<real>): real
    decreases |rets|
  {
    if |rets| == 0 then 1.0 else GrowthFactor(riskFraction, rets[0]) * Compounded(riskFraction, rets[1..])
  }

  /** Equity e carried through the trades, each adding its profit or loss. */
  function GrownBy(e: real, riskFraction: real, rets: seq<real>): real
    decreases |rets|
  {
    if |rets| == 0 then e else GrownBy(EquityAfter(e, riskFraction, rets[0]), riskFraction, rets[1..])
  }

  /** Carrying equity through trades multiplies it by the product of the
      equity factors. */
  lemma {:induction false} GrownByIsProduct(e: real, riskFraction: real, rets: seq<real>)
    ensures GrownBy(e, riskFraction, rets) == e * Compounded(riskFraction, rets)
    decreases |rets|
  {
    if |rets| > 0 {
      var g := GrowthFactor(riskFraction, rets[0]);
      var next := EquityAfter(e, riskFraction, rets[0]);
      assert next == e * g by {
        TradeCompounds(e, riskFraction, rets[0]);
      }
      GrownByIsProduct(next, riskFraction, rets[1..]);
      CompoundStep(e, g, Compounded(riskFraction, rets[1..]), next,
        GrownBy(e, riskFraction, rets), Compounded(riskFraction, rets));
    }
  }

  lemma TradeCompounds(equity: real, riskFraction: real, ret: real)
    ensures EquityAfter(equity, riskFraction, ret) == equity * GrowthFactor(riskFraction, ret)
  {
  }

  /** The number of trades a walk plays before it ends. */
  function Played(p: ChallengeParams, riskFraction: real, rets: seq<real>, resetDaily: bool, a: Account): (n: nat)
    requires p.accountSize != 0.0
    ensures n <= |rets|
    decreases |rets|
  {
    if |rets| == 0 then 0
    else
      var b := AfterTrade(a, riskFraction, rets[0]);
      if Check(p, b) != Continue then 1
      else 1 + Played(p, riskFraction, rets[1..], resetDaily, NextDay(b, resetDaily))
  }

  /** A walk that stops before the last trade was stopped by a check. */
  lemma {:induction false} EarlyStopIsACheck(p: ChallengeParams, riskFraction: real, rets: seq<real>, resetDaily: bool, a: Account)
    requires p.accountSize != 0.0
    ensures Played(p, riskFraction, rets, resetDaily, a) < |rets| ==>
      Walk(p, riskFraction, rets, resetDaily, a).breached
      || Walk(p, riskFraction, rets, resetDaily, a).equity >= TargetEquity(p)
    decreases |rets|
  {
    if |rets| > 0 {
      var b := AfterTrade(a, riskFraction, rets[0]);
      if Check(p, b) == Continue {
        EarlyStopIsACheck(p, riskFraction, rets[1..], resetDaily, NextDay(b, resetDaily));
      }
    }
  }

  /** Positions are sized on current equity: a path's final equity is the
      starting equity compounded by the factors of the trades it played. */
  lemma {:induction false} WalkCompounds(p: ChallengeParams, riskFraction: real, rets: seq<real>, resetDaily: bool, a: Account)
    requires p.accountSize != 0.0
    ensures Walk(p, riskFraction, rets, resetDaily, a).equity
      == a.equity * Compounded(riskFraction, rets[..Played(p, riskFraction, rets, resetDaily, a)])
  {
    WalkGrows(p, riskFraction, rets, resetDaily, a);
    GrownByIsProduct(a.equity, riskFraction, rets[..Played(p, riskFraction, rets, resetDaily, a)]);
  }

  lemma {:induction false} WalkGrows(p: ChallengeParams, riskFraction: real, rets: seq<real>, resetDaily: bool, a: Account)
    requires p.accountSize != 0.0
    ensures Walk(p, riskFraction, rets, resetDaily, a).equity
      == GrownBy(a.equity, riskFraction, rets[..Played(p, riskFraction, rets, resetDaily, a)])
    decreases |rets|
  {
    if |rets| > 0 {
      var b := AfterTrade(a, riskFraction, rets[0]);
      var n := Played(p, riskFraction, rets, resetDaily, a);
      assert rets[..n][0] == rets[0];
      assert rets[..n][1..] == rets[1..][..n - 1];
      if Check(p, b) == Continue {
        WalkGrows(p, riskFraction, rets[1..], resetDaily, NextDay(b, resetDaily));
      } else {
        assert rets[1..][..n - 1] == [];
      }
    }
  }

  lemma CompoundStep(e: real, g: real, rest: real, next: real, final: real, total: real)
    requires next == e * g && final == next * rest && total == g * rest
    ensures final == e * total
  {
  }

  /** Risking nothing keeps equity where it started. */
  lemma {:induction false} ZeroRiskKeepsEquity(p: ChallengeParams, rets: seq<real>, resetDaily: bool, a: Account)
    requires p.accountSize != 0.0
    ensures Walk(p, 0.0, rets, resetDaily, a).equity == a.equity
    decreases |rets|
  {
    if |rets| > 0 {
      var b := AfterTrade(a, 0.0, rets[0]);
      assert b.equity == a.equity;
      ZeroRiskKeepsEquity(p, rets[1..], resetDaily, NextDay(b, resetDaily));
    }
  }

  /** With a positive account and a positive target, a path that risks
      nothing never passes. */
  lemma ZeroRiskNeverPasses(p: ChallengeParams, rets: seq<real>)
    requires p.accountSize > 0.0 && p.profitTargetPercent > 0.0
    ensures !PathPasses(p, 0.0, rets)
  {
    ZeroRiskKeepsEquity(p, rets, |rets| > 100, Account(p.accountSize, 0.0));
    assert p.accountSize * (p.profitTargetPercent / 100.0) > 0.0;
  }

  /** A path that ends without a breach ends at or above the overall-loss
      floor, when it starts there. */
  lemma {:induction false} UnbreachedAboveFloor(p: ChallengeParams, riskFraction: real, rets: seq<real>, resetDaily: bool, a: Account)
    requires p.accountSize != 0.0 && a.equity >= FloorEquity(p)
    ensures !Walk(p, riskFraction, rets, resetDaily, a).breached ==>
      Walk(p, riskFraction, rets, resetDaily, a).equity >= FloorEquity(p)
    decreases |rets|
  {
    if |rets| > 0 {
      var b := AfterTrade(a, riskFraction, rets[0]);
      if Check(p, b) == Continue {
        UnbreachedAboveFloor(p, riskFraction, rets[1..], resetDaily, NextDay(b, resetDaily));
      }
    }
  }

  /** Every passing path is one whose final equity is above the floor, for
      a floor below the starting balance. */
  lemma PassingPathAboveFloor(p: ChallengeParams, riskFraction: real, rets: seq<real>)
    requires p.accountSize > 0.0 && p.maxOverallLossPercent >= 0.0
    ensures PathPasses(p, riskFraction, rets) ==> PathEndOf(p, riskFraction, rets).equity >= FloorEquity(p)
  {
    assert p.accountSize * (p.maxOverallLossPercent / 100.0) >= 0.0;
    UnbreachedAboveFloor(p, riskFraction, rets, |rets| > 100, Account(p.accountSize, 0.0));
  }

  /** The minimum number of trading days plays no part in a path. */
  lemma MinTradingDaysIgnored(p: ChallengeParams, riskFraction: real, rets: seq<real>, days: nat)
    requires p.accountSize != 0.0
    ensures PathPasses(p, riskFraction, rets) == PathPasses(p.(minTradingDays := days), riskFraction, rets)
  {
    var q := p.(minTradingDays := days);
    WalkIgnoresDays(p, riskFraction, rets, |rets| > 100, Account(p.accountSize, 0.0), days);
    assert PathEndOf(p, riskFraction, rets) == PathEndOf(q, riskFraction, rets);
    assert TargetEquity(p) == TargetEquity(q);
  }

  lemma {:induction false} WalkIgnoresDays(p: ChallengeParams, riskFraction: real, rets: seq<real>, resetDaily: bool,
                                           a: Account, days: nat)
    requires p.accountSize != 0.0
    ensures Walk(p, riskFraction, rets, resetDaily, a) == Walk(p.(minTradingDays := days), riskFraction, rets, resetDaily, a)
    decreases |rets|
  {
    if |rets| > 0 {
      var b := AfterTrade(a, riskFraction, rets[0]);
      assert Check(p, b) == Check(p.(minTradingDays := days), b);
      WalkIgnoresDays(p, riskFraction, rets[1..], resetDaily, NextDay(b, resetDaily), days);
    }
  }

  // ---------------------------------------------------------------------
  // Resampling and aggregation
  // ---------------------------------------------------------------------

  /** Valid bootstrap indices into a ledger of n trades: one per trade, each
      inside the ledger. */
  predicate ValidSample(idxs: seq<nat>, n: nat) {
    |idxs| == n && forall k :: 0 <= k < |idxs| ==> idxs[k] < n
  }

  /** The resampled returns picked by the indices. */
  function Resample(profits: seq<real>, idxs: seq<nat>): (r: seq<real>)
    requires forall k :: 0 <= k < |idxs| ==> idxs[k] < |profits|
    ensures |r| == |idxs|
    ensures forall k :: 0 <= k < |idxs| ==> r[k] == profits[idxs[k]] && r[k] in profits
  {
    seq(|idxs|, k requires 0 <= k < |idxs| => profits[idxs[k]])
  }

  method BootstrapSample(profits: seq<real>, idxs: seq<nat>) returns (sample: seq<real>)
    requires forall k :: 0 <= k < |idxs| ==> idxs[k] < |profits|
    ensures sample == Resample(profits, idxs)
  {
    sample := [];
    for k := 0 to |idxs|
      invariant sample == Resample(profits, idxs[..k])
    {
      sample := sample + [profits[idxs[k]]];
    }
    assert idxs[..|idxs|] == idxs;
  }

  /** The number of true outcomes. */
  function CountTrue(bs: seq<bool>): (n: nat)
    ensures n <= |bs|
    decreases |bs|
  {
    if |bs| == 0 then 0 else CountTrue(bs[..|bs| - 1]) + (if bs[|bs| - 1] then 1 else 0)
  }

  /** Every outcome true, all counted; every outcome false, none counted. */
  lemma {:induction false} CountTrueExtremes(bs: seq<bool>)
    ensures CountTrue(bs) == |bs| <==> forall k :: 0 <= k < |bs| ==> bs[k]
    ensures CountTrue(bs) == 0 <==> forall k :: 0 <= k < |bs| ==> !bs[k]
    decreases |bs|
  {
    if |bs| > 0 {
      var init := bs[..|bs| - 1];
      CountTrueExtremes(init);
      assert forall k :: 0 <= k < |init| ==> init[k] == bs[k];
    }
  }

  /** The outcome of every simulated path, in order. */
  function Outcomes(p: ChallengeParams, riskFraction: real, profits: seq<real>, samples: seq<seq<nat>>): (r: seq<bool>)
    requires p.accountSize != 0.0
    requires forall s :: 0 <= s < |samples| ==> ValidSample(samples[s], |profits|)
    ensures |r| == |samples|
  {
    seq(|samples|, s requires 0 <= s < |samples| => SamplePasses(p, riskFraction, profits, samples[s]))
  }

  /** Whether the path played on one resample passes. */
  predicate SamplePasses(p: ChallengeParams, riskFraction: real, profits: seq<real>, idxs: seq<nat>)
    requires p.accountSize != 0.0
    requires ValidSample(idxs, |profits|)
  {
    PathPasses(p, riskFraction, Resample(profits, idxs))
  }

  const PassRateKey := "pass_rate"
  const TotalKey := "total_simulations"
  const PassedKey := "passed_simulations"

  /** Rejects an empty ledger; otherwise plays one path per index sequence
      and reports the pass rate, the number of paths and the number passed. */
  method RunMonteCarloSimulation(trades: seq<Trade>, p: ChallengeParams, riskFraction: real,
                                 numSimulations: nat, samples: seq<seq<nat>>)
    returns (r: Result<map<string, real>>)
    requires p.accountSize != 0.0 && numSimulations > 0
    requires |samples| == numSimulations
    requires forall s :: 0 <= s < |samples| ==> ValidSample(samples[s], |trades|)
    ensures r.Failure? <==> |trades| == 0
    ensures r.Failure? ==> r.error == NoTrades
    ensures r.Success? ==>
      var m, passed := r.value, CountTrue(Outcomes(p, riskFraction, Profits(trades), samples));
      && m.Keys == {PassRateKey, TotalKey, PassedKey}
      && m[TotalKey] == numSimulations as real
      && m[PassedKey] == passed as real
      && passed <= numSimulations
      && m[PassRateKey] == passed as real / numSimulations as real
      && 0.0 <= m[PassRateKey] <= 1.0
  {
    if |trades| == 0 {
      return Failure(NoTrades);
    }
    var profits := Profits(trades);
    ghost var expected := Outcomes(p, riskFraction, profits, samples);
    var results: seq<bool> := [];
    for s := 0 to numSimulations
      invariant results == expected[..s]
    {
      var sample := BootstrapSample(profits, samples[s]);
      var passed := SimulatePath(p, riskFraction, sample);
      results := results + [passed];
    }
    assert results == expected;
    var passCount := CountTrue(results);
    var passRate := passCount as real / numSimulations as real;
    RateBounded(passCount, numSimulations);
    r := Success(map[PassRateKey := passRate, TotalKey := numSimulations as real, PassedKey := passCount as real]);
  }

  lemma RateBounded(count: nat, total: nat)
    requires count <= total && total > 0
    ensures 0.0 <= count as real / total as real <= 1.0
  {
    assert count as real / total as real <= total as real / total as real;
  }
}
