/**
 * The Markov chain that MetropolisHastingsImplementation::getRealization
 * advances, as values: one internal step (re-adapt, propose, accept or
 * reject, count), k steps, and one external draw with its burn-in and the
 * first-draw initialisation of the cached log-posterior. The class in
 * sampler.dfy is proved to follow these functions; the lemmas here state what
 * the draw guarantees.
 *
 * Randomness is an oracle indexed by the global step counter: step number k
 * (the value of samplesNumber_ when it starts) uses the instrumental
 * realization `noise(k)` and the uniform draw whose logarithm is `logU(k)`.
 */
module Chain {
  import opened Types
  import opened Posterior
  import opened RandomWalk

  /** Indices::check(d): every index is below d and none is repeated. */
  predicate ValidIndices(indices: seq<nat>, d: nat)
  {
    InRange(indices, d) && Distinct(indices)
  }

  /** `Indices(d)` after `fill()`: 0, 1, ..., d-1. */
  function AllIndices(d: nat): (r: seq<nat>)
    ensures |r| == d
    ensures forall i :: 0 <= i < d ==> r[i] == i
  {
    seq(d, i requires 0 <= i < d => i)
  }

  /** 0, 1, ..., d-1 passes Indices::check(d). */
  lemma {:induction false} AllIndicesValid(d: nat)
    ensures ValidIndices(AllIndices(d), d)
  {
    if d > 0 {
      AllIndicesValid(d - 1);
      var r := AllIndices(d);
      assert r[..d - 1] == AllIndices(d - 1);
      assert d - 1 !in AllIndices(d - 1);
    }
  }

  /**
   * The constructors' handling of marginalIndices: rejected unless valid for
   * dimension d; an empty list means every coordinate.
   */
  function ResolveMarginalIndices(indices: seq<nat>, d: nat): (r: Result<seq<nat>>)
    ensures r.Success? <==> ValidIndices(indices, d)
    ensures r.Failure? ==> r.error == MarginalIndicesInvalid
    ensures r.Success? ==> ValidIndices(r.value, d)
    ensures r.Success? && |indices| > 0 ==> r.value == indices
    ensures r.Success? && |indices| == 0 ==>
              |r.value| == d && forall i :: 0 <= i < d ==> r.value[i] == i
  {
    if !ValidIndices(indices, d) then Failure(MarginalIndicesInvalid)
    else if |indices| == 0 then AllIndicesValid(d); Success(AllIndices(d))
    else Success(indices)
  }

  /** The mutable part of the sampler that a draw changes (besides the history). */
  datatype DrawState = DrawState(state: Point, logPosterior: real, samplesNumber: nat,
                                 acceptedNumber: nat, acceptedNumberAdaptation: nat, delta: seq<real>)

  /** What a draw reads and does not change, with the two random oracles. */
  datatype Setup = Setup(target: Target, likelihood: Likelihood, marginalIndices: seq<nat>,
                         burnIn: nat, adaptation: Adaptation,
                         noise: nat -> Point, logU: nat -> real)

  /**
   * The chain and the setup fit together: the draw is defined. Every logU(k)
   * is the logarithm of a uniform draw on ]0, 1[, hence negative.
   */
  ghost predicate Fits(s: Setup, c: DrawState)
  {
    && ValidAdaptation(s.adaptation)
    && InRange(s.marginalIndices, |c.state|)
    && |c.delta| == |s.marginalIndices|
    && (forall k :: |s.noise(k)| == |s.marginalIndices|)
    && (forall k :: s.logU(k) < 0.0)
    && Aligned(s.likelihood)
  }

  /** The re-adaptation at the start of getCandidate. */
  function AdaptStep(burnIn: nat, a: Adaptation, c: DrawState): DrawState
    requires ValidAdaptation(a)
  {
    if AdaptationDue(c.samplesNumber, burnIn, a.period) then
      c.(delta := Rescale(c.delta, a, c.acceptedNumberAdaptation), acceptedNumberAdaptation := 0)
    else c
  }

  /** The candidate getCandidate returns, once adapted. */
  function Candidate(s: Setup, c: DrawState): Point
    requires Fits(s, c)
  {
    Propose(c.state, s.marginalIndices, c.delta, s.noise(c.samplesNumber))
  }

  /** Accept iff log(u) < newLogPosterior - currentLogPosterior. */
  predicate Accepts(s: Setup, c: DrawState, candidate: Point)
    requires Aligned(s.likelihood)
  {
    s.logU(c.samplesNumber) < LogPosterior(s.target, s.likelihood, candidate) - c.logPosterior
  }

  /** The accept/reject test and the step count of getRealization's loop body. */
  function Transition(s: Setup, c: DrawState, candidate: Point): DrawState
    requires Aligned(s.likelihood)
  {
    if Accepts(s, c, candidate) then
      DrawState(candidate, LogPosterior(s.target, s.likelihood, candidate), c.samplesNumber + 1,
            c.acceptedNumber + 1, c.acceptedNumberAdaptation + 1, c.delta)
    else
      c.(samplesNumber := c.samplesNumber + 1)
  }

  /** k internal steps from c. */
  function Run(s: Setup, c: DrawState, k: nat): (r: DrawState)
    requires Fits(s, c)
    ensures Fits(s, r) && |r.state| == |c.state|
    decreases k, 1
  {
    if k == 0 then c else Step(s, c, k)
  }

  /**
   * The k-th internal step from c: the chain left by the first k - 1 steps
   * re-adapts (AdaptStep), proposes (Candidate) and accepts or rejects
   * (Transition).
   */
  function Step(s: Setup, c: DrawState, k: nat): (r: DrawState)
    requires Fits(s, c) && k > 0
    ensures Fits(s, r) && |r.state| == |c.state|
    decreases k, 0
  {
    var p := Run(s, c, k - 1);
    var a := AdaptStep(s.burnIn, s.adaptation, p);
    Transition(s, a, Candidate(s, a))
  }

  /** The number of internal steps of one getRealization: burn-in is added while below burnIn. */
  function DrawSize(thinning: nat, burnIn: nat, samplesNumber: nat): nat
  {
    thinning + (if samplesNumber < burnIn then burnIn else 0)
  }

  /** Before the first step ever, the cached log-posterior is computed from the state. */
  function Start(t: Target, l: Likelihood, c: DrawState): DrawState
    requires Aligned(l)
  {
    if c.samplesNumber == 0 then c.(logPosterior := LogPosterior(t, l, c.state)) else c
  }

  /** The first-draw check: the initial state must have a posterior above LowestScalar. */
  predicate InvalidStart(c: DrawState)
  {
    c.samplesNumber == 0 && c.logPosterior <= LowestScalar
  }

  /** One getRealization, up to the history: the chain it leaves, or why it throws. */
  function Draw(s: Setup, c: DrawState, thinning: nat): Result<DrawState>
    requires Fits(s, c)
  {
    var c0 := Start(s.target, s.likelihood, c);
    if InvalidStart(c0) then Failure(InitialStateZeroDensity)
    else Success(Run(s, c0, DrawSize(thinning, s.burnIn, c.samplesNumber)))
  }

  /**
   * What a sampler's constructors and setters guarantee, on its values: the
   * block and the prior fit the dimension of the initial state, the likelihood
   * passes setLikelihood's cross-checks, every stored state has that dimension,
   * the draw state has it too with ordered counters, and the proposal's
   * settings fit the block.
   */
  predicate SamplerFits(initialState: Point, marginalIndices: seq<nat>, target: Target,
                        likelihood: Likelihood, history: seq<Point>, historyDimension: nat,
                        c: DrawState, proposal: Proposal)
  {
    var d := |initialState|;
    && ValidIndices(marginalIndices, d)
    && TargetFits(target, d)
    && Consistent(likelihood, d)
    && historyDimension == d
    && (forall i :: 0 <= i < |history| ==> |history[i]| == d)
    && |c.state| == d
    && CountersOrdered(c)
    && ProposalFits(proposal, |marginalIndices|, c.delta)
  }

  // ---------------------------------------------------------------------
  // One step

  /**
   * The adaptation fires exactly when the step counter is below burnIn and at
   * the end of a window; it then rescales delta by the rule of Rescale and
   * resets the window counter whichever branch ran; it changes nothing else.
   */
  lemma AdaptStepRule(burnIn: nat, a: Adaptation, c: DrawState)
    requires ValidAdaptation(a)
    ensures var r := AdaptStep(burnIn, a, c);
            && (c.samplesNumber < burnIn && c.samplesNumber % a.period == a.period - 1 ==>
                  r.acceptedNumberAdaptation == 0 && r.delta == Rescale(c.delta, a, c.acceptedNumberAdaptation))
            && (!(c.samplesNumber < burnIn && c.samplesNumber % a.period == a.period - 1) ==> r == c)
            && r.state == c.state && r.logPosterior == c.logPosterior
            && r.samplesNumber == c.samplesNumber && r.acceptedNumber == c.acceptedNumber
  {
  }

  /**
   * A step accepts iff log(u) < newLogPosterior - currentLogPosterior. On
   * accept the state, the cached posterior and both acceptance counters move;
   * on reject the state and the cached posterior stay. The step counter grows
   * by one either way.
   */
  lemma StepAcceptance(s: Setup, c: DrawState, k: nat)
    requires Fits(s, c) && k > 0
    ensures var p := Run(s, c, k - 1);
            var a := AdaptStep(s.burnIn, s.adaptation, p);
            var candidate := Candidate(s, a);
            var newLogPosterior := LogPosterior(s.target, s.likelihood, candidate);
            var accept := s.logU(p.samplesNumber) < newLogPosterior - p.logPosterior;
            var r := Run(s, c, k);
            && r.samplesNumber == p.samplesNumber + 1
            && r.delta == a.delta
            && (accept <==> r.acceptedNumber == p.acceptedNumber + 1)
            && (accept ==> r.state == candidate && r.logPosterior == newLogPosterior
                           && r.acceptedNumberAdaptation == a.acceptedNumberAdaptation + 1)
            && (!accept ==> r.state == p.state && r.logPosterior == p.logPosterior
                            && r.acceptedNumber == p.acceptedNumber
                            && r.acceptedNumberAdaptation == a.acceptedNumberAdaptation)
  {
  }

  /**
   * As log(u) < 0, a candidate whose posterior is at least the current one is
   * always accepted (the ratio min(1, exp(new - current)) is then 1); a
   * rejected candidate has a lower posterior than the current state.
   */
  lemma StepAcceptsUphill(s: Setup, c: DrawState, k: nat)
    requires Fits(s, c) && k > 0
    ensures var p := Run(s, c, k - 1);
            var candidate := Candidate(s, AdaptStep(s.burnIn, s.adaptation, p));
            var newLogPosterior := LogPosterior(s.target, s.likelihood, candidate);
            var r := Run(s, c, k);
            && (newLogPosterior >= p.logPosterior ==>
                  r.state == candidate && r.acceptedNumber == p.acceptedNumber + 1)
            && (r.acceptedNumber == p.acceptedNumber ==> newLogPosterior < p.logPosterior)
  {
    StepAcceptance(s, c, k);
  }

  /**
   * A candidate outside the support of a log-pdf prior is rejected: its prior
   * is LowestScalar, so its log-posterior falls below any log(u) of a nonzero
   * uniform draw, as long as the likelihood and the current posterior stay
   * far from the range of doubles.
   */
  lemma OutsideSupportRejected(s: Setup, c: DrawState, k: nat)
    requires Fits(s, c) && k > 0 && s.target.TargetLogPDF?
    ensures var p := Run(s, c, k - 1);
            var candidate := Candidate(s, AdaptStep(s.burnIn, s.adaptation, p));
            var r := Run(s, c, k);
            (&& !s.target.contains(candidate)
             && s.logU(p.samplesNumber) >= LowestScalar / 2.0
             && LogLikelihood(s.likelihood, candidate) - p.logPosterior <= -LowestScalar / 2.0)
            ==> r.state == p.state && r.logPosterior == p.logPosterior
                && r.acceptedNumber == p.acceptedNumber
  {
    StepAcceptance(s, c, k);
  }

  // ---------------------------------------------------------------------
  // Counters

  /** The counters are ordered: window acceptances, then acceptances, then steps. */
  predicate CountersOrdered(c: DrawState)
  {
    c.acceptedNumberAdaptation <= c.acceptedNumber <= c.samplesNumber
  }

  /**
   * k steps add exactly k to the step counter and at most k to the acceptance
   * counter, and keep the counters ordered.
   */
  lemma {:induction false} RunCounters(s: Setup, c: DrawState, k: nat)
    requires Fits(s, c)
    ensures var r := Run(s, c, k);
            && r.samplesNumber == c.samplesNumber + k
            && c.acceptedNumber <= r.acceptedNumber <= c.acceptedNumber + k
            && (CountersOrdered(c) ==> CountersOrdered(r))
  {
    if k > 0 {
      RunCounters(s, c, k - 1);
      StepAcceptance(s, c, k);
    }
  }

  /**
   * One draw runs exactly DrawSize steps: the step counter grows by
   * thinning, plus burnIn while it is below burnIn; the counters stay
   * ordered. It throws only on the very first draw, and then exactly when
   * the initial state's posterior is at or below LowestScalar.
   */
  lemma DrawCounters(s: Setup, c: DrawState, thinning: nat)
    requires Fits(s, c)
    ensures Draw(s, c, thinning).Failure? <==>
              c.samplesNumber == 0 && LogPosterior(s.target, s.likelihood, c.state) <= LowestScalar
    ensures Draw(s, c, thinning).Success? ==>
              var r := Draw(s, c, thinning).value;
              && r.samplesNumber == c.samplesNumber + DrawSize(thinning, s.burnIn, c.samplesNumber)
              && |r.state| == |c.state|
              && (CountersOrdered(c) ==> CountersOrdered(r))
  {
    RunCounters(s, Start(s.target, s.likelihood, c), DrawSize(thinning, s.burnIn, c.samplesNumber));
  }

  /**
   * Burn-in is paid once on a fresh chain: the first draw runs
   * thinning + burnIn steps, after which the counter is no longer below
   * burnIn and the next draw runs thinning steps only.
   */
  lemma BurnInOnce(s: Setup, c: DrawState, thinning: nat)
    requires Fits(s, c) && c.samplesNumber == 0
    requires Draw(s, c, thinning).Success?
    ensures DrawSize(thinning, s.burnIn, c.samplesNumber) == thinning + s.burnIn
    ensures DrawSize(thinning, s.burnIn, Draw(s, c, thinning).value.samplesNumber) == thinning
  {
    DrawCounters(s, c, thinning);
  }

  // ---------------------------------------------------------------------
  // The cached log-posterior

  /** The cached log-posterior is that of the current state. */
  predicate Cached(s: Setup, c: DrawState)
    requires Aligned(s.likelihood)
  {
    c.logPosterior == LogPosterior(s.target, s.likelihood, c.state)
  }

  /** Steps keep the cached log-posterior equal to the posterior of the current state. */
  lemma {:induction false} RunKeepsCache(s: Setup, c: DrawState, k: nat)
    requires Fits(s, c) && Cached(s, c)
    ensures Cached(s, Run(s, c, k))
  {
    if k > 0 {
      RunKeepsCache(s, c, k - 1);
      StepAcceptance(s, c, k);
    }
  }

  /**
   * After a draw that does not throw, the cached log-posterior is the
   * posterior of the current state, provided it was before (or nothing was
   * drawn yet, when the draw computes it).
   */
  lemma DrawCaches(s: Setup, c: DrawState, thinning: nat)
    requires Fits(s, c)
    requires c.samplesNumber == 0 || Cached(s, c)
    requires Draw(s, c, thinning).Success?
    ensures Cached(s, Draw(s, c, thinning).value)
  {
    RunKeepsCache(s, Start(s.target, s.likelihood, c), DrawSize(thinning, s.burnIn, c.samplesNumber));
  }

  // ---------------------------------------------------------------------
  // The block update

  /** Coordinates outside the marginal indices are never changed by any number of steps. */
  lemma {:induction false} RunKeepsOffBlock(s: Setup, c: DrawState, k: nat, i: nat)
    requires Fits(s, c)
    requires i < |c.state| && i !in s.marginalIndices
    ensures Run(s, c, k).state[i] == c.state[i]
  {
    if k > 0 {
      var p := Run(s, c, k - 1);
      RunKeepsOffBlock(s, c, k - 1, i);
      var a := AdaptStep(s.burnIn, s.adaptation, p);
      assert s.marginalIndices[..|s.marginalIndices|] == s.marginalIndices;
      ShiftOffBlock(a.state, s.marginalIndices, a.delta, s.noise(p.samplesNumber), |s.marginalIndices|, i);
      StepAcceptance(s, c, k);
    }
  }

  // ---------------------------------------------------------------------
  // The step vector

  /** No entry of delta ever changes sign, however many steps and adaptations. */
  lemma {:induction false} RunKeepsStepSigns(s: Setup, c: DrawState, k: nat)
    requires Fits(s, c)
    ensures var r := Run(s, c, k);
            && |r.delta| == |c.delta|
            && forall j :: 0 <= j < |c.delta| ==>
                 (r.delta[j] > 0.0 <==> c.delta[j] > 0.0) && (r.delta[j] < 0.0 <==> c.delta[j] < 0.0)
  {
    if k > 0 {
      var p := Run(s, c, k - 1);
      RunKeepsStepSigns(s, c, k - 1);
      RescaleRule(p.delta, s.adaptation, p.acceptedNumberAdaptation);
      StepAcceptance(s, c, k);
    }
  }

  /**
   * Once the step counter has reached burnIn nothing adapts: delta is frozen
   * and the window counter grows exactly with the acceptance counter.
   */
  lemma {:induction false} RunAfterBurnIn(s: Setup, c: DrawState, k: nat)
    requires Fits(s, c) && c.samplesNumber >= s.burnIn
    ensures var r := Run(s, c, k);
            && r.delta == c.delta
            && r.acceptedNumberAdaptation - c.acceptedNumberAdaptation == r.acceptedNumber - c.acceptedNumber
  {
    if k > 0 {
      RunAfterBurnIn(s, c, k - 1);
      RunCounters(s, c, k - 1);
      StepAcceptance(s, c, k);
    }
  }

  /**
   * While the burn-in lasts, the window counter counts at most the steps since
   * the window opened, plus the step that closed the previous window.
   */
  predicate WindowBound(s: Setup, c: DrawState)
    requires s.adaptation.period > 0
  {
    c.samplesNumber <= s.burnIn ==>
      c.acceptedNumberAdaptation <= c.samplesNumber % s.adaptation.period + 1
  }

  /** The counter modulo the period after one more step. */
  lemma ModSuccessor(n: nat, p: nat)
    requires p > 0
    ensures n % p == p - 1 ==> (n + 1) % p == 0
    ensures n % p != p - 1 ==> (n + 1) % p == n % p + 1
  {
    var q, r := n / p, n % p;
    var q', r' := (n + 1) / p, (n + 1) % p;
    assert p * (q' - q) == r + 1 - r' by {
      assert n == p * q + r;
      assert n + 1 == p * q' + r';
      assert p * (q' - q) == p * q' - p * q;
    }
    var d := q' - q;
    if d >= 2 {
      MultipleAtLeast(p, d);
    } else if d == 1 {
      assert r' == r + 1 - p;
    } else if d == 0 {
      assert p * d == 0;
    }
  }

  lemma MultipleAtLeast(p: nat, d: int)
    requires d >= 1
    ensures p * d >= p * 1
    ensures d >= 2 ==> p * d >= p * 2
  {
  }

  /** A count of at most p events out of p gives a ratio in [0, 1]. */
  lemma RatioInUnitInterval(a: nat, p: nat)
    requires 0 < p && a <= p
    ensures 0.0 <= AcceptanceRatio(a, p) <= 1.0
  {
    var x := a as real / p as real;
    assert x * p as real == a as real;
    if x > 1.0 {
      assert x * p as real > 1.0 * p as real;
    }
  }

  /** Steps keep the window bound. */
  lemma {:induction false} RunKeepsWindowBound(s: Setup, c: DrawState, k: nat)
    requires Fits(s, c) && WindowBound(s, c)
    ensures WindowBound(s, Run(s, c, k))
  {
    if k > 0 {
      var p := Run(s, c, k - 1);
      RunKeepsWindowBound(s, c, k - 1);
      ModSuccessor(p.samplesNumber, s.adaptation.period);
      StepAcceptance(s, c, k);
    }
  }

  /**
   * On a chain started by a constructor (no step, no acceptance), every
   * adaptation sees an acceptance ratio between 0 and 1, however many steps
   * were run before it.
   */
  lemma AdaptationRatioInUnitInterval(s: Setup, c: DrawState, k: nat)
    requires Fits(s, c) && c.samplesNumber == 0 && c.acceptedNumberAdaptation == 0
    requires var r := Run(s, c, k); AdaptationDue(r.samplesNumber, s.burnIn, s.adaptation.period)
    ensures 0.0 <= AcceptanceRatio(Run(s, c, k).acceptedNumberAdaptation, s.adaptation.period) <= 1.0
  {
    RunKeepsWindowBound(s, c, k);
    var r := Run(s, c, k);
    RatioInUnitInterval(r.acceptedNumberAdaptation, s.adaptation.period);
  }
}
