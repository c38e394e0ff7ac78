/** The value and score types every metric value reports. */
module MetricTypes {

  /** `MetricValueType`: the raw value behind a metric, a number or a list of authors. */
  datatype MetricValueType = Number(n: nat) | Authors(names: seq<string>)

  /** `MetricScoreType`: the single number a metric value is reduced to. */
  datatype MetricScoreType = Score(n: nat)

  /** `AnalysisError`. */
  type AnalysisError = string

  /** The error text the metric values produce when they report or combine failures. */
  const AnalysisErrorText: AnalysisError := "Analysis error"
}
