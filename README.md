# Metropolis–Hastings sampler of OpenTURNS, modelled in Dafny

This project models the single-chain Metropolis–Hastings sampler of OpenTURNS
(`lib/src/Uncertainty/Bayesian`). It covers the base class
`MetropolisHastingsImplementation` and its random-walk subclass
`RandomWalkMetropolisHastings`, and proves what one draw does to the chain.

- **Steps per draw.** One `getRealization` runs `thinning` internal steps, plus
  `burnIn` more while the step counter is below `burnIn`.
- **Each step.** It asks `getCandidate` for a candidate. It accepts the
  candidate iff `log(u) < newLogPosterior - currentLogPosterior`. Then it counts
  the step.
- **The random-walk candidate.** Before proposing, the random walk re-adapts its
  step vector `delta` at the end of every adaptation window during burn-in. It
  then moves only the coordinates listed in the marginal indices.
- **History.** Each draw appends the state it returns to the history.

Files:

- `types.dfy` (module `Types`): points, samples, intervals, `LowestScalar`, one
  error per `throw` site, and the `Result`/`Outcome`/`Option` wrappers.
- `posterior.dfy` (module `Posterior`):
  - the prior in both forms (a distribution, or a log-pdf with its support);
  - the likelihood, with `setLikelihood`'s checks;
  - the log-posterior;
  - the as-written `setLikelihood` of the finding below.
- `random_walk.dfy` (module `RandomWalk`):
  - the instrumental check;
  - the adaptation settings and the rescaling rule;
  - the block proposal: the loop `newState[marginalIndices[j]] += delta[j] * z[j]` as a function, and what it changes.
- `chain.dfy` (module `Chain`):
  - the draw state (`DrawState`) as a value;
  - one step, `k` steps (`Run`) and one draw (`Draw`) as functions;
  - the lemmas about them: step counts, the accept rule, the cached posterior, off-block coordinates, step signs, the window counter.
- `sampler.dfy` (module `MetropolisHastings`):
  - the class `MetropolisHastingsImplementation`, whose fields are the sampler's fields;
  - its constructors, setters, `getCandidate` and `getRealization` as methods that update those fields in place;
  - each method proved to leave the state the `Chain` functions describe.

The subclass is folded into the class through a `proposal` field. Its value is
`BaseProposal` (the base `getCandidate`, which throws) or
`RandomWalkProposal(instrumental, adaptation)`. Randomness is supplied as two
oracles indexed by the step counter. Step `k` uses the instrumental realization
`noise(k)` and the uniform whose logarithm is `logU(k)`.

## Model

| member | source | states |
|---|---|---|
| `Chain.AllIndices` | lib/src/Uncertainty/Bayesian/MetropolisHastingsImplementation.cxx:65-66 | `Indices(d).fill()` has length d and holds i at position i |
| `Chain.AllIndicesValid` | lib/src/Uncertainty/Bayesian/MetropolisHastingsImplementation.cxx:61-66 | the filled list 0..d-1 passes the index check for dimension d (in range, no repetition) |
| `Chain.ResolveMarginalIndices` | lib/src/Uncertainty/Bayesian/MetropolisHastingsImplementation.cxx:61-67 | indices are rejected with an invalid-argument error iff they are out of range or repeated; a non-empty valid list is kept; an empty one becomes 0..d-1 |
| `RandomWalk.DistinctIsPairwise` | lib/src/Uncertainty/Bayesian/MetropolisHastingsImplementation.cxx:61 | the no-repetition half of the index check holds iff no two positions of the list hold the same index |
| `Posterior.CheckTarget` | lib/src/Uncertainty/Bayesian/MetropolisHastingsImplementation.cxx:249-274 | the prior is accepted iff it fits the initial state's dimension; each failed check raises its own error, in the code's order (distribution dimension; support vs. log-pdf input, scalar output, then initial-state dimension) |
| `Posterior.LogPDFPrior` | lib/src/Uncertainty/Bayesian/MetropolisHastingsImplementation.cxx:163-174 | no contract of its own: its definition states the log-pdf's value inside the support, `LowestScalar` outside it, and the distribution's log-pdf in distribution form; `Posterior.PosteriorOutsideSupport` states the outside case |
| `Posterior.PosteriorOutsideSupport` | lib/src/Uncertainty/Bayesian/MetropolisHastingsImplementation.cxx:163-179 | outside the support of a log-pdf prior, the prior is `LowestScalar`, not an error, and the posterior is the likelihood plus `LowestScalar` |
| `Posterior.PosteriorWithoutObservations` | lib/src/Uncertainty/Bayesian/MetropolisHastingsImplementation.cxx:227-233 | with no likelihood set, or no observation rows, the log-posterior equals the log-prior |
| `Posterior.Identity` | lib/src/Uncertainty/Bayesian/MetropolisHastingsImplementation.cxx:114-119 | the default link maps every state to itself, from dimension d to d, with no parameter |
| `Posterior.CheckLikelihood` | lib/src/Uncertainty/Bayesian/MetropolisHastingsImplementation.cxx:97-135 | accepted iff every check passes. Observation vs. conditional dimension, link input vs. prior dimension, parameter vs. link output dimension, and non-empty covariates' width and row count each raise their own error, in order. An accepted likelihood is consistent and stores the conditional, the observations and the chosen link. Empty covariates become one empty row per observation |
| `Posterior.SetLikelihoodAsWritten` | lib/src/Uncertainty/Bayesian/MetropolisHastingsImplementation.cxx:97-135 | the code's assignment order, both ways: the conditional is always stored, even when the call throws. If the observation check throws, nothing else changes. If the link check throws, only the conditional and the observations change. Once the link check passes the chosen link is stored, and a call that throws leaves the covariates as they were |
| `Posterior.AsWrittenAgreesWhenAccepted` | lib/src/Uncertainty/Bayesian/MetropolisHastingsImplementation.cxx:97-135 | the code as written throws exactly when the validated version fails, with the same error, and stores the same likelihood when it does not throw |
| `Posterior.AsWrittenRejectedCallCorruptsLikelihood` | lib/src/Uncertainty/Bayesian/MetropolisHastingsImplementation.cxx:102-122 | a concrete call rejected at the parameter check still leaves the stored likelihood changed and inconsistent (see Findings) |
| `RandomWalk.CheckInstrumental` | lib/src/Uncertainty/Bayesian/RandomWalkMetropolisHastings.cxx:120-129 | the instrumental is accepted iff its dimension is the block size and both its skewness norm and its mean norm are below epsilon; each failure raises its own error, in the code's order |
| `RandomWalk.Scale` | lib/src/Uncertainty/Bayesian/RandomWalkMetropolisHastings.cxx:100-103 | `delta *= f` keeps the length and multiplies every entry by f |
| `RandomWalk.RescaleRule` | lib/src/Uncertainty/Bayesian/RandomWalkMetropolisHastings.cxx:96-103 | with rho = accepted/period: below the range every entry is multiplied by the shrink factor and does not grow in magnitude. Above it, every entry is multiplied by the expansion factor and does not shrink. Inside it, delta is unchanged. No entry ever changes sign |
| `RandomWalk.Product` | lib/src/Uncertainty/Bayesian/RandomWalkMetropolisHastings.cxx:112 | `delta * z` is taken entry by entry |
| `RandomWalk.ProposeSpec` | lib/src/Uncertainty/Bayesian/RandomWalkMetropolisHastings.cxx:112-116 | with distinct in-range indices, the candidate equals the state except at `indices[j]`, where `delta[j] * z[j]` is added |
| `Chain.Run` | lib/src/Uncertainty/Bayesian/MetropolisHastingsImplementation.cxx:195-213 | any number of steps keeps the chain fitting its setup and the state's dimension |
| `Chain.Step` | lib/src/Uncertainty/Bayesian/MetropolisHastingsImplementation.cxx:197-212 | one step (re-adapt, propose, accept or reject, count) keeps the chain fitting its setup and the state's dimension |
| `Chain.AdaptStepRule` | lib/src/Uncertainty/Bayesian/RandomWalkMetropolisHastings.cxx:93-106 | adaptation fires iff the step counter is below burnIn and at `period - 1` modulo the period. Then delta follows the rescaling rule and the window counter is reset to 0 whichever branch ran. When it does not fire nothing changes, and it never changes the state, the cached posterior, the step counter or the acceptance counter |
| `Chain.StepAcceptance` | lib/src/Uncertainty/Bayesian/MetropolisHastingsImplementation.cxx:197-212 | a step accepts iff `logU < newLogPosterior - currentLogPosterior`. On accept the state, the cached posterior and both acceptance counters move. On reject the state, the cached posterior and the acceptance counters keep their values after re-adaptation. The step counter grows by one either way |
| `Chain.StepAcceptsUphill` | lib/src/Uncertainty/Bayesian/MetropolisHastingsImplementation.cxx:201-203 | since log(u) < 0, a candidate whose posterior is at least the current one is always accepted; a rejected candidate has a strictly lower posterior |
| `Chain.OutsideSupportRejected` | lib/src/Uncertainty/Bayesian/MetropolisHastingsImplementation.cxx:198-209 | a candidate outside the support of a log-pdf prior is rejected, keeping the state, the cached posterior and the acceptance counter. This holds whenever log(u) is at least `LowestScalar / 2` and the candidate's log-likelihood minus the current posterior is at most `-LowestScalar / 2`, which is true of every finite log(u) and of values far from the range of doubles |
| `Chain.RunCounters` | lib/src/Uncertainty/Bayesian/MetropolisHastingsImplementation.cxx:195-213 | k steps add exactly k to the step counter and at most k to the acceptance counter, and keep window count ≤ accepted ≤ steps |
| `Chain.DrawCounters` | lib/src/Uncertainty/Bayesian/MetropolisHastingsImplementation.cxx:184-213 | a draw throws iff it is the first ever and the initial state's posterior is at or below `LowestScalar`. Otherwise the step counter grows by exactly `thinning + (samplesNumber < burnIn ? burnIn : 0)`, the dimension is kept and the counters stay ordered |
| `Chain.Draw` | lib/src/Uncertainty/Bayesian/MetropolisHastingsImplementation.cxx:181-213 | no contract of its own: one `getRealization` up to the history, as a value (the first-draw check, then `DrawSize` steps); pinned down by `Chain.DrawCounters`, `Chain.DrawCaches` and `Chain.BurnInOnce`, and `GetRealization` is proved to follow it |
| `Chain.BurnInOnce` | lib/src/Uncertainty/Bayesian/MetropolisHastingsImplementation.cxx:184 | on a fresh chain the first draw runs thinning + burnIn steps and the next one thinning steps only |
| `Chain.RunKeepsCache` | lib/src/Uncertainty/Bayesian/MetropolisHastingsImplementation.cxx:198-209 | steps keep the cached log-posterior equal to the posterior of the current state |
| `Chain.DrawCaches` | lib/src/Uncertainty/Bayesian/MetropolisHastingsImplementation.cxx:187-213 | after a draw that does not throw, the cached log-posterior is the current state's posterior, because the first draw computes it and the steps keep it |
| `Chain.RunKeepsOffBlock` | lib/src/Uncertainty/Bayesian/RandomWalkMetropolisHastings.cxx:112-116 | a coordinate outside the marginal indices never changes, however many steps are run |
| `Chain.RunKeepsStepSigns` | lib/src/Uncertainty/Bayesian/RandomWalkMetropolisHastings.cxx:93-103 | however many steps and adaptations are run, delta keeps its length and no entry changes sign |
| `Chain.RunAfterBurnIn` | lib/src/Uncertainty/Bayesian/RandomWalkMetropolisHastings.cxx:93 | once the step counter has reached burnIn, delta is frozen and the window counter grows exactly with the acceptance counter |
| `Chain.RunKeepsWindowBound` | lib/src/Uncertainty/Bayesian/RandomWalkMetropolisHastings.cxx:93-106 | during burn-in, the window counter never exceeds the steps since the window opened plus one |
| `Chain.AdaptationRatioInUnitInterval` | lib/src/Uncertainty/Bayesian/RandomWalkMetropolisHastings.cxx:96 | on a constructed chain, every adaptation sees an acceptance ratio rho in [0, 1] |
| `MetropolisHastings.MetropolisHastingsImplementation.constructor` | lib/src/Uncertainty/Bayesian/openturns/MetropolisHastingsImplementation.hxx:135-179 | the fields start as the initial state, counters at 0, cached posterior 0.0, empty history of dimension d, no likelihood, and the given burn-in, thinning and proposal |
| `MetropolisHastings.MetropolisHastingsImplementation.Create` | lib/src/Uncertainty/Bayesian/MetropolisHastingsImplementation.cxx:48-94 | construction fails with the prior's error, else with the index error. Otherwise it gives a valid fresh sampler that holds the given prior and initial state as both the initial and the current state, with the resolved indices, all three counters at 0, cached posterior 0.0, no history, no likelihood and the default burn-in and thinning |
| `MetropolisHastings.MetropolisHastingsImplementation.CreateRandomWalk` | lib/src/Uncertainty/Bayesian/RandomWalkMetropolisHastings.cxx:45-71 | as `Create` (same prior, initial and current state, counters at 0, cached posterior 0.0), then fails with `setInstrumental`'s error. Otherwise it gives a valid random-walk sampler with the default adaptation settings and the given step vector |
| `MetropolisHastings.MetropolisHastingsImplementation.SetBurnIn` | lib/src/Uncertainty/Bayesian/MetropolisHastingsImplementation.cxx:320-323 | any burn-in is stored |
| `MetropolisHastings.MetropolisHastingsImplementation.SetThinning` | lib/src/Uncertainty/Bayesian/MetropolisHastingsImplementation.cxx:332-336 | succeeds iff thinning > 0; on failure the old thinning is kept |
| `MetropolisHastings.MetropolisHastingsImplementation.SetLikelihood` | lib/src/Uncertainty/Bayesian/MetropolisHastingsImplementation.cxx:97-135 | the corrected, check-first order of the Findings row (the code as written assigns at lines 102, 106 and 112/118 before checking; see `Posterior.SetLikelihoodAsWritten`): stores the validated likelihood, or fails with its error and leaves the likelihood as it was |
| `MetropolisHastings.MetropolisHastingsImplementation.SetInstrumental` | lib/src/Uncertainty/Bayesian/RandomWalkMetropolisHastings.cxx:120-129 | the instrumental check's outcome; only on success is the instrumental replaced |
| `MetropolisHastings.MetropolisHastingsImplementation.SetAdaptationRange` | lib/src/Uncertainty/Bayesian/RandomWalkMetropolisHastings.cxx:138-143 | succeeds iff the range is one-dimensional; only then is it stored |
| `MetropolisHastings.MetropolisHastingsImplementation.SetAdaptationExpansionFactor` | lib/src/Uncertainty/Bayesian/RandomWalkMetropolisHastings.cxx:151-156 | succeeds iff the factor exceeds 1; only then is it stored |
| `MetropolisHastings.MetropolisHastingsImplementation.SetAdaptationShrinkFactor` | lib/src/Uncertainty/Bayesian/RandomWalkMetropolisHastings.cxx:164-169 | succeeds iff the factor lies strictly between 0 and 1; only then is it stored |
| `MetropolisHastings.MetropolisHastingsImplementation.SetAdaptationPeriod` | lib/src/Uncertainty/Bayesian/RandomWalkMetropolisHastings.cxx:176-181 | succeeds iff the period is positive; only then is it stored |
| `MetropolisHastings.MetropolisHastingsImplementation.GetAcceptanceRate` | lib/src/Uncertainty/Bayesian/MetropolisHastingsImplementation.cxx:369-374 | undefined iff no step was run; otherwise the value in [0, 1] whose product with the step count is the acceptance count |
| `MetropolisHastings.MetropolisHastingsImplementation.ComputeLogLikelihood` | lib/src/Uncertainty/Bayesian/MetropolisHastingsImplementation.cxx:227-247 | the loop computes 0 without a likelihood, otherwise the sum over observations of the conditional log-density at the linked parameter |
| `MetropolisHastings.MetropolisHastingsImplementation.ComputeLogPosterior` | lib/src/Uncertainty/Bayesian/MetropolisHastingsImplementation.cxx:176-179 | the log-likelihood plus the log-prior |
| `MetropolisHastings.MetropolisHastingsImplementation.GetCandidate` | lib/src/Uncertainty/Bayesian/RandomWalkMetropolisHastings.cxx:90-117 | the base class throws and changes nothing. The random walk leaves the chain re-adapted as the adaptation rule says, with the state untouched, and returns the block proposal from it |
| `MetropolisHastings.MetropolisHastingsImplementation.Adapt` | lib/src/Uncertainty/Bayesian/RandomWalkMetropolisHastings.cxx:92-107 | the in-place re-adaptation of delta and the window counter leaves the chain the adaptation rule describes |
| `MetropolisHastings.MetropolisHastingsImplementation.Move` | lib/src/Uncertainty/Bayesian/RandomWalkMetropolisHastings.cxx:112-116 | the proposal loop returns the current state moved by `delta[j] * z[j]` at each block coordinate and unchanged elsewhere |
| `MetropolisHastings.MetropolisHastingsImplementation.StepOnce` | lib/src/Uncertainty/Bayesian/MetropolisHastingsImplementation.cxx:197-212 | one pass of the loop advances the random walk's chain by exactly one step; the base class throws and changes nothing |
| `MetropolisHastings.MetropolisHastingsImplementation.Decide` | lib/src/Uncertainty/Bayesian/MetropolisHastingsImplementation.cxx:198-212 | the accept/reject test and the step count leave the chain the transition function describes |
| `MetropolisHastings.MetropolisHastingsImplementation.RunSteps` | lib/src/Uncertainty/Bayesian/MetropolisHastingsImplementation.cxx:195-213 | the loop leaves the random walk's chain exactly `size` steps on; the base class throws at the first pass, unchanged, iff there is one |
| `MetropolisHastings.MetropolisHastingsImplementation.Begin` | lib/src/Uncertainty/Bayesian/MetropolisHastingsImplementation.cxx:187-192 | only before the first step is the cached log-posterior computed from the current state; the draw may go on iff it is above `LowestScalar` |
| `MetropolisHastings.MetropolisHastingsImplementation.GetRealization` | lib/src/Uncertainty/Bayesian/MetropolisHastingsImplementation.cxx:181-219 | a random-walk draw leaves exactly the chain `Draw` describes. It appends exactly that state to the history and returns it, or throws with the history unchanged. The base class throws (zero density, or no candidate) unless no step is due |

## Left out

- Random numbers: `RandomGenerator::Generate` and the instrumental's `getRealization` are replaced by the oracles `logU` and `noise`, indexed by the step counter; the generator and its seeding are not modelled. The uniform is drawn on [0, 1[, and `logU(k)` is its logarithm as a real: every value is required negative. A draw of exactly 0, whose logarithm is -infinity and which accepts any candidate, even one outside the support, has no counterpart. `Chain.OutsideSupportRejected` therefore assumes a finite log(u).
- Distributions, functions and domains: the log-densities of the prior and of the conditional, the link function's evaluation and `Domain::contains` are uninterpreted total functions. The instrumental is reduced to its dimension and the norms of its skewness and mean, whose computation is not modelled.
- Floating point: all scalars are exact reals. Rounding, NaN and infinities are not modelled; in particular a NaN posterior, which makes the accept test false, has no counterpart. `LowestScalar` is the exact value of the most negative double.
- Exception classes: each `throw` site is a distinct `Error`; which OpenTURNS exception class it raises (`InvalidArgumentException`, `InvalidDimensionException`, …) is not modelled.
- Integer width: the counters, burn-in, thinning and period are unbounded naturals; 64-bit wrap-around of `samplesNumber_` is not modelled.
- The step vector `delta_` is declared in `RandomWalkMetropolisHastings.hxx`, which is not part of this model; its initial value is a parameter of `CreateRandomWalk`, of the length of the block.
- ResourceMap: the default burn-in, thinning and adaptation settings and `Distribution-DefaultQuantileEpsilon` are parameters (`Defaults`, `epsilon`).
- MetropolisHastings.MetropolisHastingsImplementation.CreateRandomWalk: requires the default adaptation settings to pass the adaptation setters' checks, which the constructors do not re-check; with a zero default period the code would take a remainder modulo zero in `getCandidate`.
- The history strategy is `Full` (a sequence that every draw appends to); `setHistory` and the other strategies (`Null`, `Last`, `Compact`) are not modelled.
- The order of the floating-point summation in `computeLogLikelihood` is fixed as left to right; `setParameter` on copies of the link and the conditional is folded into the two-argument functions.
- `setTargetLogPDF` also stores a standard `Normal` of the input dimension as `targetDistribution_`; only its dimension matters to the sampler (the link check), and it equals the initial state's dimension, which the model uses instead.
- `setDescription`, `__repr__`, `clone`, `save`/`load`, `setVerbose` and the `LOGTRACE` output, and the plain accessors (`getTargetDistribution`, `getMarginalIndices`, `getBurnIn`, …) are not modelled.
- The `Gibbs` sampler (a friend class), the default constructors and the Python bindings are outside this model.

## Findings

| source | as written | input that shows it | evidently intended | confidence | as-written member | corrected member |
|---|---|---|---|---|---|---|
| lib/src/Uncertainty/Bayesian/MetropolisHastingsImplementation.cxx:102-122 | `setLikelihood` assigns `conditional_`, `observations_` and `linkFunction_` before the checks that follow them can throw | a 1-dimensional sampler with no likelihood; conditional of dimension 1 with a 2-dimensional parameter, observations `[[0], [1], [2]]`, default link and covariates: the call throws at the parameter check but leaves three observations stored next to no covariate row, so a later `computeLogLikelihood` reads covariate rows that do not exist | a rejected call leaves the stored likelihood unchanged | medium, not executed | `Posterior.AsWrittenRejectedCallCorruptsLikelihood` | `Posterior.CheckLikelihood` |
