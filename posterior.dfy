/**
 * The posterior evaluator of MetropolisHastingsImplementation: the prior
 * (a distribution, or a log-pdf function restricted to a support), the
 * likelihood (a conditional distribution whose parameter is a link function of
 * the state and of per-observation covariates) and their sum in log space.
 *
 * Distributions, functions and domains are external to the sampler; they are
 * represented here by their dimensions and by uninterpreted total functions.
 */
module Posterior {
  import opened Types

  /** The prior, in one of the two forms the two constructors accept. */
  datatype Target =
    | TargetDistribution(dimension: nat, logPDF: Point -> real)
    | TargetLogPDF(inputDimension: nat, outputDimension: nat, logPDF: Point -> real,
                   supportDimension: nat, contains: Point -> bool)

  /** The prior is usable with an initial state of dimension d. */
  predicate TargetFits(t: Target, d: nat)
  {
    match t
    case TargetDistribution(dim, _) => dim == d
    case TargetLogPDF(inDim, outDim, _, supDim, _) => supDim == inDim && outDim == 1 && inDim == d
  }

  /**
   * setTargetDistribution / setTargetLogPDF as called by the constructors:
   * the checks in the order they are made.
   */
  function CheckTarget(t: Target, d: nat): (r: Outcome)
    ensures r.Pass? <==> TargetFits(t, d)
    ensures t.TargetDistribution? && t.dimension != d ==> r == Fail(TargetDimensionMismatch)
    ensures t.TargetLogPDF? && t.supportDimension != t.inputDimension ==> r == Fail(SupportDimensionMismatch)
    ensures t.TargetLogPDF? && t.supportDimension == t.inputDimension && t.outputDimension != 1
            ==> r == Fail(TargetOutputNotScalar)
    ensures (t.TargetLogPDF? && t.supportDimension == t.inputDimension && t.outputDimension == 1
             && t.inputDimension != d) ==> r == Fail(LogPDFDimensionMismatch)
  {
    match t
    case TargetDistribution(dim, _) =>
      if d != dim then Fail(TargetDimensionMismatch) else Pass
    case TargetLogPDF(inDim, outDim, _, supDim, _) =>
      if supDim != inDim then Fail(SupportDimensionMismatch)
      else if outDim != 1 then Fail(TargetOutputNotScalar)
      else if d != inDim then Fail(LogPDFDimensionMismatch)
      else Pass
  }

  /** computeLogPDFPrior: never fails; a point outside the support gets LowestScalar. */
  function LogPDFPrior(t: Target, x: Point): real
  {
    match t
    case TargetLogPDF(_, _, logPDF, _, contains) =>
      if contains(x) then logPDF(x) else LowestScalar
    case TargetDistribution(_, logPDF) => logPDF(x)
  }

  /** The conditional distribution: `logPDF(observation, parameter)`. */
  datatype Conditional = Conditional(dimension: nat, parameterDimension: nat,
                                     logPDF: (Point, Point) -> real)

  /** The link function: `evaluate(state, covariateRow)` is the conditional's parameter. */
  datatype Link = Link(inputDimension: nat, outputDimension: nat, parameterDimension: nat,
                       evaluate: (Point, Point) -> Point)

  /**
   * The likelihood members of the sampler. `None` stands for a default-constructed
   * Distribution or Function, which is all a sampler has before setLikelihood.
   */
  datatype Likelihood = Likelihood(conditional: Option<Conditional>, observations: Sample,
                                   link: Option<Link>, covariates: Sample)

  /** The likelihood of a freshly constructed sampler: no observations. */
  const NoLikelihood := Likelihood(None, Sample(0, []), None, Sample(0, []))

  /** The link used when none is given: the identity of R^d, with no parameter. */
  function Identity(d: nat): (l: Link)
    ensures l.inputDimension == d && l.outputDimension == d && l.parameterDimension == 0
    ensures forall x, p :: l.evaluate(x, p) == x
  {
    Link(d, d, 0, (x: Point, p: Point) => x)
  }

  /** No likelihood is set: computeLogLikelihood returns 0 without looking further. */
  predicate Unset(l: Likelihood)
  {
    l.observations.dimension == 0
  }

  /** What computeLogLikelihood needs to run: one covariate row per observation. */
  predicate Aligned(l: Likelihood)
  {
    Unset(l) ||
    (l.conditional.Some? && l.link.Some? && |l.covariates.rows| == |l.observations.rows|)
  }

  /** The cross-checks setLikelihood enforces, for a state of dimension d. */
  predicate Consistent(l: Likelihood, d: nat)
  {
    Unset(l) ||
    (&& Aligned(l)
     && l.observations.dimension == l.conditional.value.dimension
     && l.link.value.inputDimension == d
     && l.conditional.value.parameterDimension == l.link.value.outputDimension
     && (l.covariates.dimension == 0 || l.covariates.dimension == l.link.value.parameterDimension))
  }

  /** Log-density of observation i given state x. */
  function Term(l: Likelihood, x: Point, i: nat): real
    requires Aligned(l) && !Unset(l) && i < |l.observations.rows|
  {
    var z := l.link.value.evaluate(x, l.covariates.rows[i]);
    l.conditional.value.logPDF(l.observations.rows[i], z)
  }

  /** Sum of the first n observation terms. */
  function LogLikelihoodUpTo(l: Likelihood, x: Point, n: nat): real
    requires Aligned(l) && !Unset(l) && n <= |l.observations.rows|
  {
    if n == 0 then 0.0 else LogLikelihoodUpTo(l, x, n - 1) + Term(l, x, n - 1)
  }

  /** computeLogLikelihood as a value. */
  function LogLikelihood(l: Likelihood, x: Point): real
    requires Aligned(l)
  {
    if Unset(l) then 0.0 else LogLikelihoodUpTo(l, x, |l.observations.rows|)
  }

  /** computeLogPosterior: log-likelihood plus log-prior. */
  function LogPosterior(t: Target, l: Likelihood, x: Point): real
    requires Aligned(l)
  {
    LogLikelihood(l, x) + LogPDFPrior(t, x)
  }

  /** Without observations the posterior is the prior. */
  lemma PosteriorWithoutObservations(t: Target, l: Likelihood, x: Point)
    requires Aligned(l)
    requires Unset(l) || |l.observations.rows| == 0
    ensures LogPosterior(t, l, x) == LogPDFPrior(t, x)
  {
  }

  /**
   * A point outside the support of a log-pdf prior has the sentinel prior and
   * is not an error: its posterior is the likelihood plus LowestScalar.
   */
  lemma PosteriorOutsideSupport(t: Target, l: Likelihood, x: Point)
    requires t.TargetLogPDF? && !t.contains(x)
    requires Aligned(l)
    ensures LogPDFPrior(t, x) == LowestScalar
    ensures LogPosterior(t, l, x) == LogLikelihood(l, x) + LowestScalar
  {
  }

  /** The link setLikelihood stores: the one given, or the identity. */
  function ChosenLink(link: Option<Link>, d: nat): Link
  {
    if link.Some? then link.value else Identity(d)
  }

  /** All of setLikelihood's checks pass. */
  predicate LikelihoodAccepted(cond: Conditional, obs: Sample, link: Option<Link>, cov: Sample, d: nat)
  {
    var l := ChosenLink(link, d);
    && obs.dimension == cond.dimension
    && (link.Some? ==> link.value.inputDimension == d)
    && cond.parameterDimension == l.outputDimension
    && (cov.dimension != 0 ==> cov.dimension == l.parameterDimension && |cov.rows| == |obs.rows|)
  }

  /**
   * setLikelihood, validating everything before anything is stored. Empty
   * covariates (dimension 0) become one empty row per observation.
   */
  function CheckLikelihood(cond: Conditional, obs: Sample, link: Option<Link>, cov: Sample, d: nat)
    : (r: Result<Likelihood>)
    ensures r.Success? <==> LikelihoodAccepted(cond, obs, link, cov, d)
    ensures r.Success? ==> Consistent(r.value, d)
    ensures r.Success? ==>
      && r.value.conditional == Some(cond) && r.value.observations == obs
      && r.value.link == Some(ChosenLink(link, d))
      && (cov.dimension != 0 ==> r.value.covariates == cov)
      && (cov.dimension == 0 ==> r.value.covariates.dimension == 0
                                 && |r.value.covariates.rows| == |obs.rows|
                                 && forall i :: 0 <= i < |obs.rows| ==> r.value.covariates.rows[i] == [])
    ensures obs.dimension != cond.dimension ==> r == Failure(ObservationsDimensionMismatch)
    ensures obs.dimension == cond.dimension && link.Some? && link.value.inputDimension != d
            ==> r == Failure(LinkInputDimensionMismatch)
    ensures obs.dimension == cond.dimension && (link.Some? ==> link.value.inputDimension == d)
            && cond.parameterDimension != ChosenLink(link, d).outputDimension
            ==> r == Failure(ParameterDimensionMismatch)
    ensures (obs.dimension == cond.dimension && (link.Some? ==> link.value.inputDimension == d)
             && cond.parameterDimension == ChosenLink(link, d).outputDimension && cov.dimension != 0
             && cov.dimension != ChosenLink(link, d).parameterDimension)
            ==> r == Failure(CovariatesDimensionMismatch)
    ensures (obs.dimension == cond.dimension && (link.Some? ==> link.value.inputDimension == d)
             && cond.parameterDimension == ChosenLink(link, d).outputDimension && cov.dimension != 0
             && cov.dimension == ChosenLink(link, d).parameterDimension && |cov.rows| != |obs.rows|)
            ==> r == Failure(CovariatesSizeMismatch)
  {
    if obs.dimension != cond.dimension then Failure(ObservationsDimensionMismatch)
    else if link.Some? && link.value.inputDimension != d then Failure(LinkInputDimensionMismatch)
    else
      var l := ChosenLink(link, d);
      if cond.parameterDimension != l.outputDimension then Failure(ParameterDimensionMismatch)
      else if cov.dimension != 0 then
        if cov.dimension != l.parameterDimension then Failure(CovariatesDimensionMismatch)
        else if |cov.rows| != |obs.rows| then Failure(CovariatesSizeMismatch)
        else Success(Likelihood(Some(cond), obs, Some(l), cov))
      else
        Success(Likelihood(Some(cond), obs, Some(l), Sample(0, seq(|obs.rows|, i => []))))
  }

  /**
   * setLikelihood as written: conditional_ is assigned before the first check,
   * observations_ before the link check and linkFunction_ before the parameter
   * and covariate checks, so a call that throws still changes what is stored.
   * Returns what is stored afterwards and how the call ends.
   */
  function SetLikelihoodAsWritten(stored: Likelihood, cond: Conditional, obs: Sample,
                                  link: Option<Link>, cov: Sample, d: nat): (r: (Likelihood, Outcome))
    ensures r.0.conditional == Some(cond)
    ensures obs.dimension == cond.dimension ==> r.0.observations == obs
    ensures obs.dimension == cond.dimension && !(link.Some? && link.value.inputDimension != d)
            ==> r.0.link == Some(ChosenLink(link, d))
    ensures r.1.Fail? ==> r.0.covariates == stored.covariates
    ensures obs.dimension != cond.dimension ==> r.0 == stored.(conditional := Some(cond))
    ensures obs.dimension == cond.dimension && link.Some? && link.value.inputDimension != d
            ==> r.0 == stored.(conditional := Some(cond), observations := obs)
  {
    var s1 := stored.(conditional := Some(cond));
    if obs.dimension != cond.dimension then (s1, Fail(ObservationsDimensionMismatch))
    else
      var s2 := s1.(observations := obs);
      if link.Some? && link.value.inputDimension != d then (s2, Fail(LinkInputDimensionMismatch))
      else
        var s3 := s2.(link := Some(ChosenLink(link, d)));
        if cond.parameterDimension != s3.link.value.outputDimension then (s3, Fail(ParameterDimensionMismatch))
        else if cov.dimension != 0 then
          if cov.dimension != s3.link.value.parameterDimension then (s3, Fail(CovariatesDimensionMismatch))
          else if |cov.rows| != |obs.rows| then (s3, Fail(CovariatesSizeMismatch))
          else (s3.(covariates := cov), Pass)
        else (s3.(covariates := Sample(0, seq(|obs.rows|, i => []))), Pass)
  }

  /** When it does not throw, the code as written stores what the validated version stores. */
  lemma AsWrittenAgreesWhenAccepted(stored: Likelihood, cond: Conditional, obs: Sample,
                                    link: Option<Link>, cov: Sample, d: nat)
    ensures var (s, o) := SetLikelihoodAsWritten(stored, cond, obs, link, cov, d);
            var r := CheckLikelihood(cond, obs, link, cov, d);
            && (o.Pass? <==> r.Success?)
            && (o.Pass? ==> s == r.value)
            && (o.Fail? ==> o.error == r.error)
  {
  }

  /**
   * The discrepancy: on a sampler of dimension 1 with no likelihood, a call whose
   * conditional expects a 2-dimensional parameter throws at the parameter check,
   * yet leaves three observations stored next to no covariate row at all, so the
   * stored likelihood breaks the very checks the call enforces.
   */
  lemma AsWrittenRejectedCallCorruptsLikelihood()
    ensures var cond := Conditional(1, 2, (o: Point, p: Point) => 0.0);
            var obs := Sample(1, [[0.0], [1.0], [2.0]]);
            var (s, o) := SetLikelihoodAsWritten(NoLikelihood, cond, obs, None, Sample(0, []), 1);
            && o == Fail(ParameterDimensionMismatch)
            && CheckLikelihood(cond, obs, None, Sample(0, []), 1) == Failure(ParameterDimensionMismatch)
            && s != NoLikelihood
            && !Aligned(s) && !Consistent(s, 1)
  {
    var cond := Conditional(1, 2, (o: Point, p: Point) => 0.0);
    var obs := Sample(1, [[0.0], [1.0], [2.0]]);
    var (s, o) := SetLikelihoodAsWritten(NoLikelihood, cond, obs, None, Sample(0, []), 1);
    assert s.observations == obs;
    assert s.observations != NoLikelihood.observations;
  }
}
