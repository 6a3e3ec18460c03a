/**
 * Value types shared by the Metropolis-Hastings sampler: points and samples of
 * reals, one-dimensional intervals, the errors the sampler raises and the
 * failure-compatible wrappers that carry them.
 */
module Types {

  /** A point of R^d (OpenTURNS `Point`); floating point is modelled by `real`. */
  type Point = seq<real>

  /**
   * An OpenTURNS `Sample`: `rows` are its points and `dimension` its declared
   * width, kept apart because a sample with no rows still has a dimension
   * (`Sample(n, 0)` has n empty rows, `Sample(0, 0)` none).
   */
  datatype Sample = Sample(dimension: nat, rows: seq<Point>)

  /** An OpenTURNS `Interval`: a box given by its lower and upper corners. */
  datatype Interval = Interval(lowerBound: Point, upperBound: Point) {
    /** Both corners of an OpenTURNS interval have the interval's dimension. */
    predicate Valid() { |lowerBound| == |upperBound| }
    function Dimension(): nat { |lowerBound| }
  }

  /**
   * `SpecFunc::LowestScalar`, the most negative finite double,
   * -(2 - 2^-52) * 2^1023, used as the log-density of points of probability zero.
   */
  const LowestScalar: real := -179769313486231570814527423731704356798070567525844996598917476803157260780028538760589558632766878171540458953514382464234321326889464182768467546703537516986049910576551282076245490090389328944075868508455133942304583236903222948165808559332123348274797826204144723168738177180919299881250404026184124858368.0

  /** One constructor per `throw` site of the sampler. */
  datatype Error =
    // construction: prior
    | TargetDimensionMismatch        // initial state vs. target distribution
    | SupportDimensionMismatch       // support vs. log-pdf input
    | TargetOutputNotScalar          // log-pdf output dimension is not 1
    | LogPDFDimensionMismatch        // initial state vs. log-pdf input
    | MarginalIndicesInvalid
    // setLikelihood
    | ObservationsDimensionMismatch
    | LinkInputDimensionMismatch
    | ParameterDimensionMismatch
    | CovariatesDimensionMismatch
    | CovariatesSizeMismatch
    // other setters
    | ThinningNotPositive
    | InstrumentalDimensionMismatch
    | InstrumentalNotSymmetric
    | InstrumentalMeanNotZero
    | AdaptationRangeNotOneDimensional
    | ExpansionFactorNotAboveOne
    | ShrinkFactorOutOfRange
    | AdaptationPeriodNotPositive
    // drawing and queries
    | InitialStateZeroDensity
    | CandidateNotImplemented
    | AcceptanceRateUndefined

  /** The value of an operation that returns, or the exception it throws. */
  datatype Result<+T> = Success(value: T) | Failure(error: Error)

  /** The completion of an operation that returns nothing, or the exception it throws. */
  datatype Outcome = Pass | Fail(error: Error)

  datatype Option<+T> = None | Some(value: T)
}
