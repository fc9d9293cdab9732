/** Reductions over sequences of real amounts, all defined by recursion on the
    last element so that a left-to-right accumulator loop matches them step
    by step. */
module Series {

  function Abs(x: real): (r: real)
    ensures r >= 0.0 && (r == x || r == -x)
  {
    if x < 0.0 then -x else x
  }

  function Max(a: real, b: real): (r: real)
    ensures r >= a && r >= b && (r == a || r == b)
  {
    if a >= b then a else b
  }

  /** The sum of all amounts (an empty sum is 0). */
  function Sum(s: seq<real>): real
    decreases |s|
  {
    if |s| == 0 then 0.0 else Sum(s[..|s| - 1]) + s[|s| - 1]
  }

  lemma {:induction false} SumAppend(a: seq<real>, b: seq<real>)
    ensures Sum(a + b) == Sum(a) + Sum(b)
    decreases |b|
  {
    if |b| == 0 {
      assert a + b == a;
    } else {
      assert (a + b)[..|a + b| - 1] == a + b[..|b| - 1];
      SumAppend(a, b[..|b| - 1]);
    }
  }

  /** The running total after the first k amounts: the cumulative-profit curve. */
  function PrefixSum(s: seq<real>, k: nat): real
    requires k <= |s|
  {
    Sum(s[..k])
  }

  lemma PrefixSumStep(s: seq<real>, k: nat)
    requires k < |s|
    ensures PrefixSum(s, k + 1) == PrefixSum(s, k) + s[k]
  {
    assert s[..k + 1][..k] == s[..k];
  }

  /** The strictly positive amounts, in order (the winning trades). */
  function Positives(s: seq<real>): (r: seq<real>)
    ensures |r| <= |s|
    ensures forall i :: 0 <= i < |r| ==> r[i] > 0.0
    decreases |s|
  {
    if |s| == 0 then []
    else if s[|s| - 1] > 0.0 then Positives(s[..|s| - 1]) + [s[|s| - 1]]
    else Positives(s[..|s| - 1])
  }

  /** The strictly negative amounts, in order (the losing trades). */
  function Negatives(s: seq<real>): (r: seq<real>)
    ensures |r| <= |s|
    ensures forall i :: 0 <= i < |r| ==> r[i] < 0.0
    decreases |s|
  {
    if |s| == 0 then []
    else if s[|s| - 1] < 0.0 then Negatives(s[..|s| - 1]) + [s[|s| - 1]]
    else Negatives(s[..|s| - 1])
  }

  /** A ledger has no winning amount exactly when no amount is positive. */
  lemma {:induction false} NoPositivesIff(s: seq<real>)
    ensures |Positives(s)| == 0 <==> forall i :: 0 <= i < |s| ==> s[i] <= 0.0
    decreases |s|
  {
    if |s| > 0 {
      var init := s[..|s| - 1];
      NoPositivesIff(init);
      assert forall i :: 0 <= i < |init| ==> init[i] == s[i];
    }
  }

  /** A ledger has no losing amount exactly when no amount is negative. */
  lemma {:induction false} NoNegativesIff(s: seq<real>)
    ensures |Negatives(s)| == 0 <==> forall i :: 0 <= i < |s| ==> s[i] >= 0.0
    decreases |s|
  {
    if |s| > 0 {
      var init := s[..|s| - 1];
      NoNegativesIff(init);
      assert forall i :: 0 <= i < |init| ==> init[i] == s[i];
    }
  }

  /** Absolute values, element by element. */
  function Magnitudes(s: seq<real>): (r: seq<real>)
    ensures |r| == |s|
    ensures forall i :: 0 <= i < |s| ==> r[i] == Abs(s[i])
  {
    seq(|s|, i requires 0 <= i < |s| => Abs(s[i]))
  }

  /** Break-even amounts are in neither partition, so the two partitions
      together are never longer than the whole. */
  lemma {:induction false} PartitionSize(s: seq<real>)
    ensures |Positives(s)| + |Negatives(s)| <= |s|
    decreases |s|
  {
    if |s| > 0 {
      PartitionSize(s[..|s| - 1]);
    }
  }

  /** Because zeros add nothing, the total is the sum of the two partitions. */
  lemma {:induction false} SumPartition(s: seq<real>)
    ensures Sum(s) == Sum(Positives(s)) + Sum(Negatives(s))
    decreases |s|
  {
    if |s| > 0 {
      var init := s[..|s| - 1];
      var x := s[|s| - 1];
      SumPartition(init);
      SumAppend(Positives(init), [x]);
      SumAppend(Negatives(init), [x]);
      assert Sum([x]) == x by {
        assert [x][..0] == [];
      }
    }
  }

  lemma {:induction false} SumOfPositives(s: seq<real>)
    requires forall i :: 0 <= i < |s| ==> s[i] > 0.0
    ensures |s| > 0 ==> Sum(s) > 0.0
    ensures Sum(s) >= 0.0
    decreases |s|
  {
    if |s| > 0 {
      SumOfPositives(s[..|s| - 1]);
    }
  }

  lemma {:induction false} SumOfNegatives(s: seq<real>)
    requires forall i :: 0 <= i < |s| ==> s[i] < 0.0
    ensures |s| > 0 ==> Sum(s) < 0.0
    ensures Sum(s) <= 0.0
    decreases |s|
  {
    if |s| > 0 {
      SumOfNegatives(s[..|s| - 1]);
    }
  }

  /** Summing magnitudes of negative amounts gives minus their sum. */
  lemma {:induction false} SumMagnitudesOfNegatives(s: seq<real>)
    requires forall i :: 0 <= i < |s| ==> s[i] < 0.0
    ensures Sum(Magnitudes(s)) == -Sum(s)
    decreases |s|
  {
    if |s| > 0 {
      var init := s[..|s| - 1];
      SumMagnitudesOfNegatives(init);
      assert Magnitudes(s)[..|s| - 1] == Magnitudes(init);
    }
  }
}
