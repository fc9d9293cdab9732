/** Ralph Vince's Optimal F as the engine computes it (src/lib.rs,
    calculate_optimal_f): the largest loss scales every trade, a grid of
    1000 fractions is searched for the largest terminal wealth relative
    (TWR), and the best grid point is refined by bounded hill-climbing. */
module OptimalF {
  import opened Types
  import opened Series

  /** The most negative profit, if any trade lost. */
  function MostNegative(ps: seq<real>): (r: Option<real>)
    ensures r.Some? ==> r.value < 0.0 && r.value in ps
    ensures r.Some? ==> forall i :: 0 <= i < |ps| && ps[i] < 0.0 ==> r.value <= ps[i]
    ensures r.None? <==> forall i :: 0 <= i < |ps| ==> ps[i] >= 0.0
    decreases |ps|
  {
    if |ps| == 0 then None
    else
      var x := ps[|ps| - 1];
      var rest := MostNegative(ps[..|ps| - 1]);
      assert forall i :: 0 <= i < |ps| - 1 ==> ps[..|ps| - 1][i] == ps[i];
      if x >= 0.0 then rest
      else if rest.Some? && rest.value <= x then rest
      else Some(x)
  }

  /** The magnitude of the most negative profit, or 1 for a ledger
      without losses. */
  function LargestLoss(ps: seq<real>): (l: real)
    ensures l > 0.0
    ensures MostNegative(ps).Some? ==> l == -MostNegative(ps).value
    ensures MostNegative(ps).None? ==> l == 1.0
  {
    Abs(MostNegative(ps).GetOr(-1.0))
  }

  /** The largest loss is the magnitude of every loss or more. */
  lemma LargestLossBoundsLosses(ps: seq<real>)
    ensures forall i :: 0 <= i < |ps| && ps[i] < 0.0 ==> -ps[i] <= LargestLoss(ps)
  {
  }

  /** The wealth factor of one trade when betting fraction f. */
  function Growth(p: real, f: real, largestLoss: real): real
    requires largestLoss > 0.0
  {
    1.0 + f * (-p / largestLoss)
  }

  /** Terminal wealth relative: the product of the wealth factors. */
  function Twr(ps: seq<real>, f: real, largestLoss: real): real
    requires largestLoss > 0.0
    decreases |ps|
  {
    if |ps| == 0 then 1.0 else Twr(ps[..|ps| - 1], f, largestLoss) * Growth(ps[|ps| - 1], f, largestLoss)
  }

  /** Betting nothing leaves wealth unchanged. */
  lemma {:induction false} TwrAtZero(ps: seq<real>, largestLoss: real)
    requires largestLoss > 0.0
    ensures Twr(ps, 0.0, largestLoss) == 1.0
    decreases |ps|
  {
    if |ps| > 0 {
      TwrAtZero(ps[..|ps| - 1], largestLoss);
    }
  }

  /** Grid point i: the fraction i / 10000. */
  function GridPoint(i: nat): (f: real)
    ensures f >= 0.0
  {
    i as real / 10000.0
  }

  const GridSize: nat := 1000

  /** The first grid index among 0..n-1 with the largest TWR. */
  function GridArgmax(ps: seq<real>, largestLoss: real, n: nat): (i: nat)
    requires largestLoss > 0.0 && n >= 1
    ensures i < n
    decreases n
  {
    if n == 1 then 0
    else
      var j := GridArgmax(ps, largestLoss, n - 1);
      if Twr(ps, GridPoint(n - 1), largestLoss) > Twr(ps, GridPoint(j), largestLoss) then n - 1 else j
  }

  /** The grid search picks a point whose TWR is maximal over the grid, and
      every earlier point has a strictly smaller TWR (ties keep the first). */
  lemma {:induction false} GridArgmaxIsFirstMaximum(ps: seq<real>, largestLoss: real, n: nat)
    requires largestLoss > 0.0 && n >= 1
    ensures forall k :: 0 <= k < n ==>
      Twr(ps, GridPoint(k), largestLoss) <= Twr(ps, GridPoint(GridArgmax(ps, largestLoss, n)), largestLoss)
    ensures forall k :: 0 <= k < GridArgmax(ps, largestLoss, n) ==>
      Twr(ps, GridPoint(k), largestLoss) < Twr(ps, GridPoint(GridArgmax(ps, largestLoss, n)), largestLoss)
    decreases n
  {
    if n > 1 {
      GridArgmaxIsFirstMaximum(ps, largestLoss, n - 1);
    }
  }

  /** A grid point that beats every other one is the one chosen. */
  lemma UniqueGridMaximum(ps: seq<real>, largestLoss: real, n: nat, i: nat)
    requires largestLoss > 0.0 && i < n
    requires forall k :: 0 <= k < n && k != i ==> Twr(ps, GridPoint(k), largestLoss) < Twr(ps, GridPoint(i), largestLoss)
    ensures GridArgmax(ps, largestLoss, n) == i
  {
    GridArgmaxIsFirstMaximum(ps, largestLoss, n);
  }

  /** The sum of (-p / L) / factor over the trades whose wealth factor is
      positive. */
  function Gradient(ps: seq<real>, f: real, largestLoss: real): real
    requires largestLoss > 0.0
    decreases |ps|
  {
    if |ps| == 0 then 0.0
    else
      var p := ps[|ps| - 1];
      var term := Growth(p, f, largestLoss);
      Gradient(ps[..|ps| - 1], f, largestLoss) + (if term > 0.0 then (-p / largestLoss) / term else 0.0)
  }

  const LearningRate: real := 0.001

  /** One gradient-ascent step: f + rate * gradient * TWR. */
  function NextF(ps: seq<real>, largestLoss: real, f: real): real
    requires largestLoss > 0.0
  {
    f + LearningRate * (Gradient(ps, f, largestLoss) * Twr(ps, f, largestLoss))
  }

  /** Hill-climbing from f for at most k steps: a step is taken unless it
      makes f negative; the climb stops after a step that changes TWR by
      less than tol, or instead of a step that does not raise TWR. */
  function Refine(ps: seq<real>, largestLoss: real, f: real, k: nat, tol: real): real
    requires largestLoss > 0.0
    decreases k
  {
    if k == 0 then f
    else
      var newF := NextF(ps, largestLoss, f);
      if newF < 0.0 then f
      else if Abs(Twr(ps, newF, largestLoss) - Twr(ps, f, largestLoss)) < tol then newF
      else if Twr(ps, newF, largestLoss) > Twr(ps, f, largestLoss) then Refine(ps, largestLoss, newF, k - 1, tol)
      else f
  }

  /** Refinement only ever moves to non-negative fractions. */
  lemma {:induction false} RefineNonNegative(ps: seq<real>, largestLoss: real, f: real, k: nat, tol: real)
    requires largestLoss > 0.0 && f >= 0.0
    ensures Refine(ps, largestLoss, f, k, tol) >= 0.0
    decreases k
  {
    if k > 0 && NextF(ps, largestLoss, f) >= 0.0 {
      RefineNonNegative(ps, largestLoss, NextF(ps, largestLoss, f), k - 1, tol);
    }
  }

  /** Refinement never loses more TWR than the tolerance: it either keeps or
      improves the starting TWR, or ends within tol of it. */
  lemma {:induction false} RefineImproves(ps: seq<real>, largestLoss: real, f: real, k: nat, tol: real)
    requires largestLoss > 0.0
    ensures var g := Refine(ps, largestLoss, f, k, tol);
      Twr(ps, g, largestLoss) >= Twr(ps, f, largestLoss) || Twr(ps, g, largestLoss) > Twr(ps, f, largestLoss) - tol
    decreases k
  {
    if k > 0 && NextF(ps, largestLoss, f) >= 0.0 {
      RefineImproves(ps, largestLoss, NextF(ps, largestLoss, f), k - 1, tol);
    }
  }

  /** Optimal F of a ledger of profits, or the empty-ledger error. */
  function OptimalFOf(ps: seq<real>, maxIterations: nat, tolerance: real): Result<real> {
    if |ps| == 0 then Failure(NoTrades)
    else
      var l := LargestLoss(ps);
      Success(Refine(ps, l, GridPoint(GridArgmax(ps, l, GridSize)), maxIterations, tolerance))
  }

  /** The grid loop: scans 0, 0.0001, ..., 0.0999 keeping the first
      fraction with the largest TWR (the best TWR starts at minus infinity). */
  method GridSearch(ps: seq<real>, largestLoss: real) returns (bestF: real)
    requires largestLoss > 0.0
    ensures bestF == GridPoint(GridArgmax(ps, largestLoss, GridSize))
  {
    bestF := 0.0;
    var bestTwr: Option<real> := None;
    for i := 0 to GridSize
      invariant i == 0 ==> bestTwr.None?
      invariant i > 0 ==> bestF == GridPoint(GridArgmax(ps, largestLoss, i))
      invariant i > 0 ==> bestTwr == Some(Twr(ps, bestF, largestLoss))
    {
      var f := i as real / 10000.0;
      var twr := Twr(ps, f, largestLoss);
      if bestTwr.None? || twr > bestTwr.value {
        bestTwr := Some(twr);
        bestF := f;
      }
    }
  }

  /** The gradient loop: accumulates over the trades with a positive wealth
      factor. */
  method GradientAt(ps: seq<real>, f: real, largestLoss: real) returns (gradient: real)
    requires largestLoss > 0.0
    ensures gradient == Gradient(ps, f, largestLoss)
  {
    gradient := 0.0;
    for j := 0 to |ps|
      invariant gradient == Gradient(ps[..j], f, largestLoss)
    {
      assert ps[..j + 1][..j] == ps[..j];
      var term := 1.0 + f * (-ps[j] / largestLoss);
      if term > 0.0 {
        gradient := gradient + (-ps[j] / largestLoss) / term;
      }
    }
    assert ps[..|ps|] == ps;
  }

  /** The gradient, scaled by the current TWR, and the candidate fraction. */
  method AscentStep(ps: seq<real>, largestLoss: real, f: real) returns (twr: real, newF: real)
    requires largestLoss > 0.0
    ensures twr == Twr(ps, f, largestLoss)
    ensures newF == NextF(ps, largestLoss, f)
  {
    var gradient := GradientAt(ps, f, largestLoss);
    twr := Twr(ps, f, largestLoss);
    gradient := gradient * twr;
    newF := f + LearningRate * gradient;
  }

  /** The refinement loop, with its three early exits. */
  method HillClimb(ps: seq<real>, largestLoss: real, start: real, maxIterations: nat, tolerance: real)
    returns (f: real)
    requires largestLoss > 0.0
    ensures f == Refine(ps, largestLoss, start, maxIterations, tolerance)
  {
    f := start;
    for step := 0 to maxIterations
      invariant Refine(ps, largestLoss, f, maxIterations - step, tolerance)
        == Refine(ps, largestLoss, start, maxIterations, tolerance)
    {
      var twr, newF := AscentStep(ps, largestLoss, f);
      if newF < 0.0 {
        break;
      }
      var newTwr := Twr(ps, newF, largestLoss);
      if Abs(newTwr - twr) < tolerance {
        f := newF;
        break;
      }
      if newTwr > twr {
        f := newF;
      } else {
        break;
      }
    }
  }

  /** Rejects an empty ledger; otherwise grid search, then at most
      maxIterations refinement steps. */
  method CalculateOptimalF(trades: seq<Trade>, maxIterations: nat, tolerance: real) returns (r: Result<real>)
    ensures r == OptimalFOf(Profits(trades), maxIterations, tolerance)
    ensures r.Failure? <==> |trades| == 0
    ensures r.Failure? ==> r.error == NoTrades
    ensures r.Success? ==> r.value >= 0.0
  {
    if |trades| == 0 {
      return Failure(NoTrades);
    }
    var ps := Profits(trades);
    var largestLoss := LargestLoss(ps);
    var bestF := GridSearch(ps, largestLoss);
    var f := HillClimb(ps, largestLoss, bestF, maxIterations, tolerance);
    RefineNonNegative(ps, largestLoss, bestF, maxIterations, tolerance);
    r := Success(f);
  }

  // ---------------------------------------------------------------------
  // A loss-free ledger
  // ---------------------------------------------------------------------

  lemma SquareBelow(t: real)
    requires -3.99 <= t <= 1.0
    ensures t * t <= 15.9201
  {
    if t < 0.0 {
      assert (-t) * (-t) <= 3.99 * (-t) <= 3.99 * 3.99;
    } else {
      assert t * t <= t;
    }
  }

  /** Two winning trades of 50: the fallback largest loss is 1, so the TWR
      (1 - 50 f)^2 grows with f past 0.02 and the largest grid point wins;
      refinement finds a zero gradient there and keeps it. The result is
      0.0999, not 0. */
  lemma LossFreeLedgerOptimalF()
    ensures OptimalFOf([50.0, 50.0], 1000, 0.000001) == Success(0.0999)
  {
    var ps := [50.0, 50.0];
    assert MostNegative(ps) == None;
    assert LargestLoss(ps) == 1.0;
    forall f: real
      ensures Twr(ps, f, 1.0) == (1.0 - 50.0 * f) * (1.0 - 50.0 * f)
    {
      assert ps[..1] == [50.0];
      assert ps[..1][..0] == [];
    }
    forall k | 0 <= k < GridSize && k != 999
      ensures Twr(ps, GridPoint(k), 1.0) < Twr(ps, GridPoint(999), 1.0)
    {
      var t := 1.0 - 50.0 * GridPoint(k);
      SquareBelow(t);
    }
    UniqueGridMaximum(ps, 1.0, GridSize, 999);
    assert GridPoint(999) == 0.0999;
    assert Gradient(ps, 0.0999, 1.0) == 0.0 by {
      assert ps[..1] == [50.0];
      assert ps[..1][..0] == [];
    }
  }
}
