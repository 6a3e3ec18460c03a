/**
 * The pure parts of RandomWalkMetropolisHastings: the block random-walk
 * proposal, the burn-in step-size adaptation rule and the checks its setters
 * make. The class that holds delta_ and calls these is in sampler.dfy.
 */
module RandomWalk {
  import opened Types

  /**
   * The instrumental distribution as setInstrumental sees it: its dimension
   * and the norms of its skewness and of its mean. Its realizations are
   * supplied to the draw as an oracle.
   */
  datatype Instrumental = Instrumental(dimension: nat, skewnessNorm: real, meanNorm: real)

  /**
   * setInstrumental's checks, in order: the dimension must be the block size,
   * and the distribution must be symmetric and centred within `epsilon`
   * (the ResourceMap key Distribution-DefaultQuantileEpsilon).
   */
  function CheckInstrumental(i: Instrumental, blockSize: nat, epsilon: real): (r: Outcome)
    ensures r.Pass? <==> i.dimension == blockSize && i.skewnessNorm < epsilon && i.meanNorm < epsilon
    ensures i.dimension != blockSize ==> r == Fail(InstrumentalDimensionMismatch)
    ensures i.dimension == blockSize && i.skewnessNorm >= epsilon ==> r == Fail(InstrumentalNotSymmetric)
    ensures (i.dimension == blockSize && i.skewnessNorm < epsilon && i.meanNorm >= epsilon)
            ==> r == Fail(InstrumentalMeanNotZero)
  {
    if i.dimension != blockSize then Fail(InstrumentalDimensionMismatch)
    else if !(i.skewnessNorm < epsilon) then Fail(InstrumentalNotSymmetric)
    else if !(i.meanNorm < epsilon) then Fail(InstrumentalMeanNotZero)
    else Pass
  }

  /** The adaptation settings: target acceptance range, the two factors, the window length. */
  datatype Adaptation = Adaptation(range: Interval, expansionFactor: real, shrinkFactor: real, period: nat)

  /** What the adaptation setters guarantee. */
  predicate ValidAdaptation(a: Adaptation)
  {
    && a.range.Valid() && a.range.Dimension() == 1
    && a.expansionFactor > 1.0
    && 0.0 < a.shrinkFactor < 1.0
    && a.period > 0
  }

  /**
   * Which getCandidate a sampler has: the base class's, which throws, or the
   * random walk's with its instrumental distribution and adaptation settings.
   */
  datatype Proposal =
    | BaseProposal
    | RandomWalkProposal(instrumental: Instrumental, adaptation: Adaptation)

  /** A random walk's settings pass the setters' checks and fit a block of blockSize indices and its step vector. */
  predicate ProposalFits(p: Proposal, blockSize: nat, delta: seq<real>)
  {
    p.RandomWalkProposal? ==>
      && ValidAdaptation(p.adaptation)
      && p.instrumental.dimension == blockSize
      && |delta| == blockSize
  }

  /** getCandidate re-adapts before proposing when this holds of the step counter. */
  predicate AdaptationDue(samplesNumber: nat, burnIn: nat, period: nat)
    requires period > 0
  {
    samplesNumber < burnIn && samplesNumber % period == period - 1
  }

  /** rho: the acceptance ratio over the current window. */
  function AcceptanceRatio(acceptedNumberAdaptation: nat, period: nat): real
    requires period > 0
  {
    acceptedNumberAdaptation as real / period as real
  }

  /** `delta *= f` */
  function Scale(delta: seq<real>, f: real): (r: seq<real>)
    ensures |r| == |delta|
    ensures forall j :: 0 <= j < |delta| ==> r[j] == delta[j] * f
  {
    seq(|delta|, j requires 0 <= j < |delta| => delta[j] * f)
  }

  /** The step vector after an adaptation with `acceptedNumberAdaptation` acceptances in the window. */
  function Rescale(delta: seq<real>, a: Adaptation, acceptedNumberAdaptation: nat): seq<real>
    requires ValidAdaptation(a)
  {
    var rho := AcceptanceRatio(acceptedNumberAdaptation, a.period);
    if rho < a.range.lowerBound[0] then Scale(delta, a.shrinkFactor)
    else if rho > a.range.upperBound[0] then Scale(delta, a.expansionFactor)
    else delta
  }

  function Abs(x: real): real { if x < 0.0 then -x else x }

  /**
   * The rescaling rule entry by entry: when the window's acceptance ratio is
   * below the range every entry is multiplied by the shrink factor (and does
   * not grow in magnitude), when above by the expansion factor (and does not
   * shrink in magnitude), otherwise delta is kept; the factors being
   * positive, no entry changes sign.
   */
  lemma RescaleRule(delta: seq<real>, a: Adaptation, acceptedNumberAdaptation: nat)
    requires ValidAdaptation(a)
    ensures var r := Rescale(delta, a, acceptedNumberAdaptation);
            var rho := AcceptanceRatio(acceptedNumberAdaptation, a.period);
            && |r| == |delta|
            && (rho < a.range.lowerBound[0] ==>
                  forall j :: 0 <= j < |delta| ==>
                    r[j] == delta[j] * a.shrinkFactor && Abs(r[j]) <= Abs(delta[j]))
            && (a.range.lowerBound[0] <= rho && rho > a.range.upperBound[0] ==>
                  forall j :: 0 <= j < |delta| ==>
                    r[j] == delta[j] * a.expansionFactor && Abs(r[j]) >= Abs(delta[j]))
            && (a.range.lowerBound[0] <= rho <= a.range.upperBound[0] ==> r == delta)
            && (forall j :: 0 <= j < |delta| ==>
                  (r[j] > 0.0 <==> delta[j] > 0.0) && (r[j] < 0.0 <==> delta[j] < 0.0))
  {
    var r := Rescale(delta, a, acceptedNumberAdaptation);
    var rho := AcceptanceRatio(acceptedNumberAdaptation, a.period);
    var f := if rho < a.range.lowerBound[0] then a.shrinkFactor
             else if rho > a.range.upperBound[0] then a.expansionFactor else 1.0;
    forall j | 0 <= j < |delta|
      ensures r[j] == delta[j] * f
      ensures (r[j] > 0.0 <==> delta[j] > 0.0) && (r[j] < 0.0 <==> delta[j] < 0.0)
      ensures f <= 1.0 ==> Abs(r[j]) <= Abs(delta[j])
      ensures f >= 1.0 ==> Abs(r[j]) >= Abs(delta[j])
    {
      ProductSign(delta[j], f);
      ProductMagnitude(delta[j], f);
    }
  }

  /** Multiplying by a positive factor keeps the sign. */
  lemma ProductSign(x: real, f: real)
    requires f > 0.0
    ensures x * f > 0.0 <==> x > 0.0
    ensures x * f < 0.0 <==> x < 0.0
  {
    if x > 0.0 { assert x * f > 0.0; }
    else if x < 0.0 { assert x * f < 0.0; }
  }

  /** A positive factor at most 1 does not increase the magnitude; one at least 1 does not decrease it. */
  lemma ProductMagnitude(x: real, f: real)
    requires f > 0.0
    ensures f <= 1.0 ==> Abs(x * f) <= Abs(x)
    ensures f >= 1.0 ==> Abs(x * f) >= Abs(x)
  {
    ProductSign(x, f);
    if x >= 0.0 {
      assert x * f - x == x * (f - 1.0);
    } else {
      assert (-x) * f - (-x) == (-x) * (f - 1.0);
    }
  }

  /** `delta_ * instrumental_.getRealization()`, entry by entry. */
  function Product(delta: seq<real>, z: Point): (r: seq<real>)
    requires |z| == |delta|
    ensures |r| == |delta|
    ensures forall j :: 0 <= j < |delta| ==> r[j] == delta[j] * z[j]
  {
    seq(|delta|, j requires 0 <= j < |delta| => delta[j] * z[j])
  }

  /** Every index addresses a coordinate of a state of dimension d. */
  predicate InRange(indices: seq<nat>, d: nat)
  {
    forall j :: 0 <= j < |indices| ==> indices[j] < d
  }

  /** No index is repeated: the last one does not occur before it, and so on down the list. */
  predicate Distinct(indices: seq<nat>)
    decreases |indices|
  {
    |indices| == 0 ||
    (indices[|indices| - 1] !in indices[..|indices| - 1] && Distinct(indices[..|indices| - 1]))
  }

  /** Every prefix of a list without repetition is without repetition. */
  lemma {:induction false} DistinctPrefix(indices: seq<nat>, n: nat)
    requires Distinct(indices) && n <= |indices|
    ensures Distinct(indices[..n])
    decreases |indices|
  {
    if n == |indices| {
      assert indices[..n] == indices;
    } else {
      var m := |indices| - 1;
      assert indices[..m][..n] == indices[..n];
      DistinctPrefix(indices[..m], n);
    }
  }

  /** Distinct says exactly that two different positions never hold the same index. */
  lemma {:induction false} DistinctIsPairwise(indices: seq<nat>)
    ensures Distinct(indices) <==> forall i, j :: 0 <= i < j < |indices| ==> indices[i] != indices[j]
    decreases |indices|
  {
    if |indices| > 0 {
      var m := |indices| - 1;
      var init := indices[..m];
      DistinctIsPairwise(init);
      if Distinct(indices) {
        forall i, j | 0 <= i < j < |indices|
          ensures indices[i] != indices[j]
        {
          if j == m {
            assert indices[i] == init[i];
          } else {
            assert indices[i] == init[i] && indices[j] == init[j];
          }
        }
      }
      if forall i, j :: 0 <= i < j < |indices| ==> indices[i] != indices[j] {
        forall i, j | 0 <= i < j < |init|
          ensures init[i] != init[j]
        {
          assert init[i] == indices[i] && init[j] == indices[j];
        }
        forall i | 0 <= i < |init|
          ensures init[i] != indices[m]
        {
          assert init[i] == indices[i];
        }
      }
    }
  }

  /**
   * The first n iterations of the loop `newState[indices[j]] += prop[j]`, where
   * prop = delta * z entry by entry.
   */
  function Shift(state: Point, indices: seq<nat>, delta: seq<real>, z: Point, n: nat): (r: Point)
    requires n <= |indices| <= |delta| && |delta| == |z|
    requires InRange(indices, |state|)
    ensures |r| == |state|
  {
    if n == 0 then state
    else
      var s := Shift(state, indices, delta, z, n - 1);
      s[indices[n - 1] := s[indices[n - 1]] + delta[n - 1] * z[n - 1]]
  }

  /** getCandidate's proposal: the state moved by delta[j] * z[j] along coordinate indices[j]. */
  function Propose(state: Point, indices: seq<nat>, delta: seq<real>, z: Point): (r: Point)
    requires |z| == |delta| == |indices|
    requires InRange(indices, |state|)
    ensures |r| == |state|
  {
    Shift(state, indices, delta, z, |indices|)
  }

  /** Coordinates no iteration addresses keep their value. */
  lemma {:induction false} ShiftOffBlock(state: Point, indices: seq<nat>, delta: seq<real>, z: Point,
                                         n: nat, i: nat)
    requires n <= |indices| <= |delta| && |delta| == |z|
    requires InRange(indices, |state|)
    requires i < |state| && i !in indices[..n]
    ensures Shift(state, indices, delta, z, n)[i] == state[i]
  {
    if n > 0 {
      assert indices[..n - 1] == indices[..n][..n - 1];
      assert indices[n - 1] in indices[..n];
      ShiftOffBlock(state, indices, delta, z, n - 1, i);
    }
  }

  /** With distinct indices, each addressed coordinate is moved by exactly its own step. */
  lemma {:induction false} ShiftOnBlock(state: Point, indices: seq<nat>, delta: seq<real>, z: Point, n: nat)
    requires n <= |indices| <= |delta| && |delta| == |z|
    requires InRange(indices, |state|) && Distinct(indices)
    ensures forall j :: 0 <= j < n ==>
              Shift(state, indices, delta, z, n)[indices[j]] == state[indices[j]] + delta[j] * z[j]
  {
    if n > 0 {
      DistinctPrefix(indices, n);
      assert indices[..n][..n - 1] == indices[..n - 1];
      assert indices[n - 1] !in indices[..n - 1];
      ShiftOnBlock(state, indices, delta, z, n - 1);
      ShiftOffBlock(state, indices, delta, z, n - 1, indices[n - 1]);
    }
  }

  /**
   * The candidate agrees with the state off the block, and on the block
   * coordinate indices[j] it is moved by delta[j] * z[j].
   */
  lemma ProposeSpec(state: Point, indices: seq<nat>, delta: seq<real>, z: Point)
    requires |z| == |delta| == |indices|
    requires InRange(indices, |state|) && Distinct(indices)
    ensures var r := Propose(state, indices, delta, z);
            && |r| == |state|
            && (forall j :: 0 <= j < |indices| ==> r[indices[j]] == state[indices[j]] + delta[j] * z[j])
            && (forall i :: 0 <= i < |state| && i !in indices ==> r[i] == state[i])
  {
    ShiftOnBlock(state, indices, delta, z, |indices|);
    forall i | 0 <= i < |state| && i !in indices
      ensures Propose(state, indices, delta, z)[i] == state[i]
    {
      assert indices[..|indices|] == indices;
      ShiftOffBlock(state, indices, delta, z, |indices|, i);
    }
  }
}
