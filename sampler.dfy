/**
 * The sampler object: MetropolisHastingsImplementation with the random-walk
 * candidate of RandomWalkMetropolisHastings. Its draw-state fields are
 * mutated in place by getRealization and getCandidate, and its setters
 * validate before assigning. Every method is proved to follow the value-level
 * model of chain.dfy, posterior.dfy and random_walk.dfy.
 */
module MetropolisHastings {
  import opened Types
  import opened Posterior
  import opened RandomWalk
  import opened Chain

  /**
   * The ResourceMap keys the constructors read: MetropolisHastings-DefaultBurnIn,
   * -DefaultThinning, and RandomWalkMetropolisHastings-DefaultAdaptation
   * LowerBound, UpperBound, ExpansionFactor, ShrinkFactor and Period.
   */
  datatype Defaults = Defaults(burnIn: nat, thinning: nat,
                               adaptationLowerBound: real, adaptationUpperBound: real,
                               adaptationExpansionFactor: real, adaptationShrinkFactor: real,
                               adaptationPeriod: nat)
  {
    /** The adaptation settings a random-walk constructor starts from. */
    function AdaptationSettings(): Adaptation
    {
      Adaptation(Interval([adaptationLowerBound], [adaptationUpperBound]),
                 adaptationExpansionFactor, adaptationShrinkFactor, adaptationPeriod)
    }
  }

  class MetropolisHastingsImplementation {
    const initialState: Point
    const marginalIndices: seq<nat>
    const target: Target

    var currentState: Point
    var currentLogPosterior: real
    var samplesNumber: nat
    var acceptedNumber: nat
    var acceptedNumberAdaptation: nat
    /** The Full history strategy: every stored state, and the declared dimension. */
    var history: seq<Point>
    var historyDimension: nat
    var likelihood: Likelihood
    var burnIn: nat
    var thinning: nat
    var proposal: Proposal
    /** The random-walk step vector (empty for the base class). */
    var delta: seq<real>

    /** What construction establishes and every method keeps. */
    ghost predicate Valid()
      reads this
    {
      SamplerFits(initialState, marginalIndices, target, likelihood, history, historyDimension,
                  ChainState(), proposal)
    }

    /** The draw state as a value. */
    ghost function ChainState(): DrawState
      reads this`currentState, this`currentLogPosterior, this`samplesNumber,
            this`acceptedNumber, this`acceptedNumberAdaptation, this`delta
    {
      DrawState(currentState, currentLogPosterior, samplesNumber, acceptedNumber,
                acceptedNumberAdaptation, delta)
    }

    /** What a random-walk draw reads, with the two random oracles. */
    ghost function SetupWith(noise: nat -> Point, logU: nat -> real): Setup
      reads this`likelihood, this`burnIn, this`proposal
      requires proposal.RandomWalkProposal?
    {
      Setup(target, likelihood, marginalIndices, burnIn, proposal.adaptation, noise, logU)
    }

    /** The fields as both parameters constructors leave them. */
    constructor (target: Target, initialState: Point, marginalIndices: seq<nat>,
                 burnIn: nat, thinning: nat, proposal: Proposal, delta: seq<real>)
      requires TargetFits(target, |initialState|)
      requires ValidIndices(marginalIndices, |initialState|)
      requires proposal.RandomWalkProposal? ==>
                 && ValidAdaptation(proposal.adaptation)
                 && proposal.instrumental.dimension == |marginalIndices|
                 && |delta| == |marginalIndices|
      ensures Valid()
      ensures this.target == target && this.initialState == initialState
      ensures this.marginalIndices == marginalIndices
      ensures currentState == initialState && currentLogPosterior == 0.0
      ensures samplesNumber == 0 && acceptedNumber == 0 && acceptedNumberAdaptation == 0
      ensures history == [] && historyDimension == |initialState|
      ensures likelihood == NoLikelihood
      ensures this.burnIn == burnIn && this.thinning == thinning
      ensures this.proposal == proposal && this.delta == delta
    {
      this.target := target;
      this.initialState := initialState;
      this.marginalIndices := marginalIndices;
      currentState := initialState;
      currentLogPosterior := 0.0;
      samplesNumber := 0;
      acceptedNumber := 0;
      acceptedNumberAdaptation := 0;
      history := [];
      historyDimension := |initialState|;
      likelihood := NoLikelihood;
      this.burnIn := burnIn;
      this.thinning := thinning;
      this.proposal := proposal;
      this.delta := delta;
    }

    /**
     * The base-class parameters constructors (prior given as a distribution, or
     * as a log-pdf and its support): the prior is checked, then the marginal
     * indices; an empty index list selects every coordinate.
     */
    static method Create(target: Target, initialState: Point, marginalIndices: seq<nat>,
                         defaults: Defaults)
      returns (r: Result<MetropolisHastingsImplementation>)
      ensures CheckTarget(target, |initialState|).Fail? ==>
                r == Failure(CheckTarget(target, |initialState|).error)
      ensures CheckTarget(target, |initialState|).Pass? ==>
                match ResolveMarginalIndices(marginalIndices, |initialState|)
                case Failure(e) => r == Failure(e)
                case Success(indices) =>
                  && r.Success? && fresh(r.value) && r.value.Valid()
                  && r.value.marginalIndices == indices
                  && r.value.target == target && r.value.initialState == initialState
                  && r.value.currentState == initialState && r.value.currentLogPosterior == 0.0
                  && r.value.history == []
                  && r.value.samplesNumber == 0 && r.value.acceptedNumber == 0 && r.value.acceptedNumberAdaptation == 0
                  && r.value.likelihood == NoLikelihood
                  && r.value.burnIn == defaults.burnIn && r.value.thinning == defaults.thinning
                  && r.value.proposal == BaseProposal
    {
      var checked := CheckTarget(target, |initialState|);
      if checked.Fail? {
        return Failure(checked.error);
      }
      var indices := ResolveMarginalIndices(marginalIndices, |initialState|);
      if indices.Failure? {
        return Failure(indices.error);
      }
      var m := new MetropolisHastingsImplementation(target, initialState, indices.value,
                                                    defaults.burnIn, defaults.thinning, BaseProposal, []);
      return Success(m);
    }

    /**
     * The random-walk parameters constructors: the base construction, then
     * setInstrumental against the resolved block, with the adaptation settings
     * from the defaults and the given initial step vector.
     */
    static method CreateRandomWalk(target: Target, initialState: Point, instrumental: Instrumental,
                                   marginalIndices: seq<nat>, delta: seq<real>,
                                   defaults: Defaults, epsilon: real)
      returns (r: Result<MetropolisHastingsImplementation>)
      requires ValidAdaptation(defaults.AdaptationSettings())
      requires ValidIndices(marginalIndices, |initialState|) ==>
                 |delta| == |ResolveMarginalIndices(marginalIndices, |initialState|).value|
      ensures CheckTarget(target, |initialState|).Fail? ==>
                r == Failure(CheckTarget(target, |initialState|).error)
      ensures CheckTarget(target, |initialState|).Pass? ==>
                match ResolveMarginalIndices(marginalIndices, |initialState|)
                case Failure(e) => r == Failure(e)
                case Success(indices) =>
                  match CheckInstrumental(instrumental, |indices|, epsilon)
                  case Fail(e) => r == Failure(e)
                  case Pass =>
                    && r.Success? && fresh(r.value) && r.value.Valid()
                    && r.value.marginalIndices == indices
                    && r.value.target == target && r.value.initialState == initialState
                    && r.value.currentState == initialState && r.value.currentLogPosterior == 0.0
                    && r.value.history == []
                    && r.value.samplesNumber == 0 && r.value.acceptedNumber == 0 && r.value.acceptedNumberAdaptation == 0
                    && r.value.likelihood == NoLikelihood
                    && r.value.burnIn == defaults.burnIn && r.value.thinning == defaults.thinning
                    && r.value.proposal == RandomWalkProposal(instrumental, defaults.AdaptationSettings())
                    && r.value.delta == delta
    {
      var checked := CheckTarget(target, |initialState|);
      if checked.Fail? {
        return Failure(checked.error);
      }
      var indices := ResolveMarginalIndices(marginalIndices, |initialState|);
      if indices.Failure? {
        return Failure(indices.error);
      }
      var instrumentalChecked := CheckInstrumental(instrumental, |indices.value|, epsilon);
      if instrumentalChecked.Fail? {
        return Failure(instrumentalChecked.error);
      }
      var m := new MetropolisHastingsImplementation(target, initialState, indices.value,
                                                    defaults.burnIn, defaults.thinning,
                                                    RandomWalkProposal(instrumental, defaults.AdaptationSettings()),
                                                    delta);
      return Success(m);
    }

    // ---------------------------------------------------------------------
    // Setters

    /** Any burn-in is accepted. */
    method SetBurnIn(burnIn: nat)
      requires Valid()
      modifies this`burnIn
      ensures Valid() && this.burnIn == burnIn
    {
      this.burnIn := burnIn;
    }

    /** Thinning must be positive; a rejected value leaves the old one. */
    method SetThinning(thinning: nat) returns (r: Outcome)
      requires Valid()
      modifies this`thinning
      ensures Valid()
      ensures r.Pass? <==> thinning > 0
      ensures r.Pass? ==> this.thinning == thinning
      ensures r.Fail? ==> r.error == ThinningNotPositive && this.thinning == old(this.thinning)
    {
      if thinning == 0 {
        return Fail(ThinningNotPositive);
      }
      this.thinning := thinning;
      return Pass;
    }

    /**
     * setLikelihood with every check made before anything is stored (see
     * Posterior.SetLikelihoodAsWritten for the order the code assigns in).
     * `link == None` stands for a link function that is not an actual
     * implementation, replaced by the identity.
     */
    method SetLikelihood(conditional: Conditional, observations: Sample, link: Option<Link>,
                         covariates: Sample)
      returns (r: Outcome)
      requires Valid()
      modifies this`likelihood
      ensures Valid()
      ensures match CheckLikelihood(conditional, observations, link, covariates, |initialState|)
              case Success(l) => r == Pass && likelihood == l
              case Failure(e) => r == Fail(e) && likelihood == old(likelihood)
    {
      var checked := CheckLikelihood(conditional, observations, link, covariates, |initialState|);
      if checked.Failure? {
        return Fail(checked.error);
      }
      likelihood := checked.value;
      return Pass;
    }

    /** setInstrumental: the instrumental must match the block and be symmetric and centred. */
    method SetInstrumental(instrumental: Instrumental, epsilon: real) returns (r: Outcome)
      requires Valid() && proposal.RandomWalkProposal?
      modifies this`proposal
      ensures Valid()
      ensures r == CheckInstrumental(instrumental, |marginalIndices|, epsilon)
      ensures r.Pass? ==> proposal == old(proposal).(instrumental := instrumental)
      ensures r.Fail? ==> proposal == old(proposal)
    {
      r := CheckInstrumental(instrumental, |marginalIndices|, epsilon);
      if r.Pass? {
        proposal := proposal.(instrumental := instrumental);
      }
    }

    /** The adaptation range must be one-dimensional. */
    method SetAdaptationRange(range: Interval) returns (r: Outcome)
      requires Valid() && proposal.RandomWalkProposal? && range.Valid()
      modifies this`proposal
      ensures Valid()
      ensures r.Pass? <==> range.Dimension() == 1
      ensures r.Fail? ==> r.error == AdaptationRangeNotOneDimensional && proposal == old(proposal)
      ensures r.Pass? ==> proposal == old(proposal).(adaptation := old(proposal.adaptation).(range := range))
    {
      if range.Dimension() != 1 {
        return Fail(AdaptationRangeNotOneDimensional);
      }
      proposal := proposal.(adaptation := proposal.adaptation.(range := range));
      return Pass;
    }

    /** The expansion factor must exceed 1. */
    method SetAdaptationExpansionFactor(factor: real) returns (r: Outcome)
      requires Valid() && proposal.RandomWalkProposal?
      modifies this`proposal
      ensures Valid()
      ensures r.Pass? <==> factor > 1.0
      ensures r.Fail? ==> r.error == ExpansionFactorNotAboveOne && proposal == old(proposal)
      ensures r.Pass? ==> proposal == old(proposal).(adaptation := old(proposal.adaptation).(expansionFactor := factor))
    {
      if !(factor > 1.0) {
        return Fail(ExpansionFactorNotAboveOne);
      }
      proposal := proposal.(adaptation := proposal.adaptation.(expansionFactor := factor));
      return Pass;
    }

    /** The shrink factor must lie strictly between 0 and 1. */
    method SetAdaptationShrinkFactor(factor: real) returns (r: Outcome)
      requires Valid() && proposal.RandomWalkProposal?
      modifies this`proposal
      ensures Valid()
      ensures r.Pass? <==> 0.0 < factor < 1.0
      ensures r.Fail? ==> r.error == ShrinkFactorOutOfRange && proposal == old(proposal)
      ensures r.Pass? ==> proposal == old(proposal).(adaptation := old(proposal.adaptation).(shrinkFactor := factor))
    {
      if !(factor > 0.0) || !(factor < 1.0) {
        return Fail(ShrinkFactorOutOfRange);
      }
      proposal := proposal.(adaptation := proposal.adaptation.(shrinkFactor := factor));
      return Pass;
    }

    /** The adaptation period must be positive. */
    method SetAdaptationPeriod(period: nat) returns (r: Outcome)
      requires Valid() && proposal.RandomWalkProposal?
      modifies this`proposal
      ensures Valid()
      ensures r.Pass? <==> period > 0
      ensures r.Fail? ==> r.error == AdaptationPeriodNotPositive && proposal == old(proposal)
      ensures r.Pass? ==> proposal == old(proposal).(adaptation := old(proposal.adaptation).(period := period))
    {
      if period == 0 {
        return Fail(AdaptationPeriodNotPositive);
      }
      proposal := proposal.(adaptation := proposal.adaptation.(period := period));
      return Pass;
    }

    // ---------------------------------------------------------------------
    // Queries

    /**
     * The overall acceptance rate: undefined before any step, otherwise the
     * fraction of steps accepted, which lies in [0, 1].
     */
    function GetAcceptanceRate(): (r: Result<real>)
      reads this
      requires acceptedNumber <= samplesNumber
      ensures r.Failure? <==> samplesNumber == 0
      ensures r.Failure? ==> r.error == AcceptanceRateUndefined
      ensures r.Success? ==> 0.0 <= r.value <= 1.0
      ensures r.Success? ==> r.value * samplesNumber as real == acceptedNumber as real
    {
      if samplesNumber == 0 then Failure(AcceptanceRateUndefined)
      else
        RatioInUnitInterval(acceptedNumber, samplesNumber);
        Success(acceptedNumber as real / samplesNumber as real)
    }

    /**
     * computeLogLikelihood: 0 when no likelihood is set, otherwise the sum over
     * the observations of the conditional's log-density at the parameter the
     * link gives for the state and the observation's covariate row.
     */
    method ComputeLogLikelihood(x: Point) returns (value: real)
      requires Aligned(likelihood)
      ensures value == LogLikelihood(likelihood, x)
    {
      if likelihood.observations.dimension == 0 {
        return 0.0;
      }
      value := 0.0;
      var size := |likelihood.observations.rows|;
      var i := 0;
      while i < size
        invariant 0 <= i <= size
        invariant value == LogLikelihoodUpTo(likelihood, x, i)
      {
        var zi := likelihood.link.value.evaluate(x, likelihood.covariates.rows[i]);
        var logPdf := likelihood.conditional.value.logPDF(likelihood.observations.rows[i], zi);
        value := value + logPdf;
        i := i + 1;
      }
    }

    /** computeLogPosterior: the log-likelihood plus computeLogPDFPrior. */
    method ComputeLogPosterior(x: Point) returns (value: real)
      requires Aligned(likelihood)
      ensures value == LogPosterior(target, likelihood, x)
    {
      var logLikelihood := ComputeLogLikelihood(x);
      value := logLikelihood + LogPDFPrior(target, x);
    }

    // ---------------------------------------------------------------------
    // Drawing

    /**
     * getCandidate. The base class throws. The random walk first re-adapts
     * delta when the step counter closes a window during burn-in (and resets
     * the window counter), then moves the block coordinates of the current
     * state by delta[j] * z[j], `z` being the instrumental realization. The
     * current state is not changed.
     */
    method GetCandidate(z: Point) returns (r: Result<Point>)
      requires Valid()
      requires proposal.RandomWalkProposal? ==> |z| == |marginalIndices|
      modifies this`delta, this`acceptedNumberAdaptation
      ensures Valid()
      ensures proposal.BaseProposal? ==>
                r == Failure(CandidateNotImplemented) && ChainState() == old(ChainState())
      ensures proposal.RandomWalkProposal? ==>
                && ChainState() == AdaptStep(burnIn, proposal.adaptation, old(ChainState()))
                && r == Success(Propose(currentState, marginalIndices, delta, z))
      ensures r.Success? ==> |r.value| == |currentState|
    {
      if proposal.BaseProposal? {
        return Failure(CandidateNotImplemented);
      }
      Adapt();
      var newState := Move(z);
      r := Success(newState);
    }

    /**
     * The re-adaptation that opens the random walk's getCandidate: at the end of
     * a window during burn-in, delta shrinks or expands by the rule of Rescale
     * and the window counter is reset.
     */
    method Adapt()
      requires Valid() && proposal.RandomWalkProposal?
      modifies this`delta, this`acceptedNumberAdaptation
      ensures Valid()
      ensures ChainState() == AdaptStep(burnIn, proposal.adaptation, old(ChainState()))
    {
      var a := proposal.adaptation;
      if samplesNumber < burnIn && samplesNumber % a.period == a.period - 1 {
        var rho := acceptedNumberAdaptation as real / a.period as real;
        if rho < a.range.lowerBound[0] {
          delta := Scale(delta, a.shrinkFactor);
        } else if rho > a.range.upperBound[0] {
          delta := Scale(delta, a.expansionFactor);
        }
        acceptedNumberAdaptation := 0;
      }
    }

    /**
     * The proposal loop of the random walk's getCandidate: a copy of the current
     * state in which coordinate marginalIndices[j] is moved by delta[j] * z[j];
     * every other coordinate, and the current state itself, are left as they are.
     */
    method Move(z: Point) returns (newState: Point)
      requires ValidIndices(marginalIndices, |currentState|)
      requires |z| == |delta| == |marginalIndices|
      ensures newState == Propose(currentState, marginalIndices, delta, z)
      ensures |newState| == |currentState|
      ensures forall j :: 0 <= j < |marginalIndices| ==>
                newState[marginalIndices[j]] == currentState[marginalIndices[j]] + delta[j] * z[j]
      ensures forall i :: 0 <= i < |currentState| && i !in marginalIndices ==>
                newState[i] == currentState[i]
    {
      var prop := Product(delta, z);
      newState := currentState;
      var j := 0;
      while j < |marginalIndices|
        invariant 0 <= j <= |marginalIndices|
        invariant newState == Shift(currentState, marginalIndices, delta, z, j)
      {
        newState := newState[marginalIndices[j] := newState[marginalIndices[j]] + prop[j]];
        assert newState == Shift(currentState, marginalIndices, delta, z, j + 1);
        j := j + 1;
      }
      ProposeSpec(currentState, marginalIndices, delta, z);
    }

    /**
     * One pass of getRealization's loop: a candidate, the accept/reject test
     * `log(u) < newLogPosterior - currentLogPosterior`, and the step count.
     */
    method StepOnce(noise: nat -> Point, logU: nat -> real, ghost c0: DrawState, ghost i: nat) returns (r: Outcome)
      requires Valid()
      requires proposal.RandomWalkProposal? ==> Fits(SetupWith(noise, logU), c0) && ChainState() == Run(SetupWith(noise, logU), c0, i)
      requires forall k :: |noise(k)| == |marginalIndices|
      requires forall k :: logU(k) < 0.0
      modifies this`currentState, this`currentLogPosterior, this`samplesNumber,
               this`acceptedNumber, this`acceptedNumberAdaptation, this`delta
      ensures Valid()
      ensures proposal.RandomWalkProposal? ==>
                r == Pass && ChainState() == Run(SetupWith(noise, logU), c0, i + 1)
      ensures proposal.BaseProposal? ==>
                r == Fail(CandidateNotImplemented) && ChainState() == old(ChainState())
    {
      var candidate := GetCandidate(noise(samplesNumber));
      if candidate.Failure? {
        r := Fail(candidate.error);
      } else {
        Decide(noise, logU, candidate.value);
        r := Pass;
      }
    }

    /**
     * The second half of a pass of getRealization's loop: the candidate is
     * accepted iff log(u) < newLogPosterior - currentLogPosterior, and the
     * step counter grows either way.
     */
    method Decide(noise: nat -> Point, logU: nat -> real, candidate: Point)
      requires Valid() && proposal.RandomWalkProposal? && |candidate| == |initialState|
      modifies this`currentState, this`currentLogPosterior, this`samplesNumber,
               this`acceptedNumber, this`acceptedNumberAdaptation
      ensures Valid()
      ensures ChainState() == Transition(SetupWith(noise, logU), old(ChainState()), candidate)
    {
      var newLogPosterior := ComputeLogPosterior(candidate);
      var alphaLog := newLogPosterior - currentLogPosterior;
      var uLog := logU(samplesNumber);
      if uLog < alphaLog {
        currentLogPosterior := newLogPosterior;
        acceptedNumber := acceptedNumber + 1;
        acceptedNumberAdaptation := acceptedNumberAdaptation + 1;
        currentState := candidate;
      }
      samplesNumber := samplesNumber + 1;
    }

    /** getRealization's loop: `size` passes of StepOnce, stopping at the first that throws. */
    method RunSteps(size: nat, noise: nat -> Point, logU: nat -> real) returns (r: Outcome)
      requires Valid()
      requires forall k :: |noise(k)| == |marginalIndices|
      requires forall k :: logU(k) < 0.0
      modifies this`currentState, this`currentLogPosterior, this`samplesNumber,
               this`acceptedNumber, this`acceptedNumberAdaptation, this`delta
      ensures Valid()
      ensures proposal.RandomWalkProposal? ==>
                r == Pass && ChainState() == Run(SetupWith(noise, logU), old(ChainState()), size)
      ensures proposal.BaseProposal? ==>
                && ChainState() == old(ChainState())
                && (r.Fail? <==> size > 0)
                && (r.Fail? ==> r.error == CandidateNotImplemented)
    {
      ghost var c0 := ChainState();
      r := Pass;
      var i := 0;
      while i < size
        invariant 0 <= i <= size && r == Pass
        invariant Valid()
        invariant proposal.RandomWalkProposal? ==> ChainState() == Run(SetupWith(noise, logU), c0, i)
        invariant proposal.BaseProposal? ==> ChainState() == c0 && i == 0
      {
        r := StepOnce(noise, logU, c0, i);
        if r.Fail? {
          break;
        }
        i := i + 1;
      }
    }

    /**
     * The head of getRealization: on the first draw the cached log-posterior is
     * computed from the current state; false when it is at or below LowestScalar.
     */
    method Begin() returns (started: bool)
      requires Valid()
      modifies this`currentLogPosterior
      ensures Valid()
      ensures ChainState() == Start(target, likelihood, old(ChainState()))
      ensures started <==> !InvalidStart(ChainState())
    {
      if samplesNumber == 0 {
        currentLogPosterior := ComputeLogPosterior(currentState);
        if currentLogPosterior <= LowestScalar {
          return false;
        }
      }
      return true;
    }

    /**
     * getRealization. On the first draw the cached log-posterior is computed
     * and the draw throws if it is at or below LowestScalar. Then thinning
     * steps are run, plus burnIn while the step counter is below burnIn; the
     * state reached is stored in the history and returned. Step k (the step
     * counter's value) uses the instrumental realization noise(k) and the
     * uniform whose logarithm is logU(k).
     */
    method GetRealization(noise: nat -> Point, logU: nat -> real) returns (r: Result<Point>)
      requires Valid()
      requires forall k :: |noise(k)| == |marginalIndices|
      requires forall k :: logU(k) < 0.0
      modifies this`currentState, this`currentLogPosterior, this`samplesNumber,
               this`acceptedNumber, this`acceptedNumberAdaptation, this`history, this`delta
      ensures Valid()
      ensures proposal.RandomWalkProposal? ==>
                match Draw(SetupWith(noise, logU), old(ChainState()), thinning)
                case Failure(e) =>
                  && r == Failure(e) && history == old(history)
                  && ChainState() == Start(target, likelihood, old(ChainState()))
                case Success(c) =>
                  r == Success(c.state) && ChainState() == c && history == old(history) + [c.state]
      ensures proposal.BaseProposal? ==>
                var c0 := Start(target, likelihood, old(ChainState()));
                var size := DrawSize(thinning, burnIn, old(samplesNumber));
                && ChainState() == c0
                && (InvalidStart(c0) ==> r == Failure(InitialStateZeroDensity) && history == old(history))
                && (!InvalidStart(c0) && size > 0 ==>
                      r == Failure(CandidateNotImplemented) && history == old(history))
                && (!InvalidStart(c0) && size == 0 ==>
                      r == Success(c0.state) && history == old(history) + [c0.state])
    {
      var size := thinning + (if samplesNumber < burnIn then burnIn else 0);
      var started := Begin();
      if !started {
        r := Failure(InitialStateZeroDensity);
      } else {
        var ran := RunSteps(size, noise, logU);
        if ran.Fail? {
          r := Failure(ran.error);
        } else {
          history := history + [currentState];
          r := Success(currentState);
        }
      }
    }
  }
}
