/**
 * The metric values a file analysis carries (`Box<dyn IMetricValue>`), as a closed datatype:
 * the two production metrics and the two test doubles the analysis tests rely on.
 */
module MetricValues {
  import opened Wrappers
  import opened Text
  import opened MetricTypes
  import LinesCount
  import SocialComplexity

  datatype MetricValue =
    | LinesCount(lineCount: Result<nat, AnalysisError>)
    | SocialComplexity(authors: Result<seq<string>, AnalysisError>)
      /** `FakeMetricValue`: a fixed number under a key chosen when the metric is made. */
    | Fake(fakeKey: string, value: nat)
      /** `BrokenMetricValue`: a value that only ever reports an analysis error. */
    | Broken

  const BrokenKey: string := "broken"

  /** `get_key`. */
  function Key(m: MetricValue): string {
    match m
    case LinesCount(_) => LinesCount.Key
    case SocialComplexity(_) => SocialComplexity.Key
    case Fake(k, _) => k
    case Broken => BrokenKey
  }

  /** `get_score`. */
  function GetScore(m: MetricValue): Result<MetricScoreType, AnalysisError> {
    match m
    case LinesCount(c) => LinesCount.GetScore(c)
    case SocialComplexity(a) => SocialComplexity.GetScore(a)
    case Fake(_, v) => Ok(Score(v))
    case Broken => Err(AnalysisErrorText)
  }

  /** `get_value`. */
  function GetValue(m: MetricValue): Result<MetricValueType, AnalysisError> {
    match m
    case LinesCount(c) => LinesCount.GetValue(c)
    case SocialComplexity(a) => SocialComplexity.GetValue(a)
    case Fake(_, v) => Ok(Number(v))
    case Broken => Err(AnalysisErrorText)
  }

  /** `aggregate`: this value combined with whatever value `other` reports. */
  function Aggregate(m: MetricValue, other: MetricValue): (r: MetricValue)
    ensures Key(r) == Key(m)
  {
    match m
    case LinesCount(c) => LinesCount(LinesCount.Aggregate(c, GetValue(other)))
    case SocialComplexity(a) => SocialComplexity(SocialComplexity.Aggregate(a, GetValue(other)))
    case Fake(k, v) =>
      var added := (match GetValue(other) case Ok(Number(n)) => n case _ => 0);
      Fake(k, v + added)
    case Broken => Broken
  }

  /**
   * The aggregation table: two values of the same metric follow that metric's table; a test
   * value adds another's number and nothing for anything else; a broken value stays broken.
   */
  lemma AggregateTable(m: MetricValue, other: MetricValue)
    ensures m.LinesCount? && other.LinesCount?
      ==> Aggregate(m, other) == LinesCount(LinesCount.Combine(m.lineCount, other.lineCount))
    ensures m.SocialComplexity? && other.SocialComplexity?
      ==> Aggregate(m, other) == SocialComplexity(SocialComplexity.Combine(m.authors, other.authors))
    ensures m.Fake? && other.Fake? ==> Aggregate(m, other) == Fake(m.fakeKey, m.value + other.value)
    ensures m.Fake? && (other.Broken? || other.SocialComplexity?) ==> Aggregate(m, other) == m
    ensures m.Fake? && other.LinesCount?
      ==> Aggregate(m, other) == Fake(m.fakeKey, m.value + (if other.lineCount.Ok? then other.lineCount.value else 0))
    ensures m.Broken? ==> Aggregate(m, other) == Broken
  {
  }

  /** A value aggregated with each of `others` in turn, as a folder collects its files' values. */
  function AggregateAll(m: MetricValue, others: seq<MetricValue>): MetricValue
    decreases |others|
  {
    if others == [] then m else AggregateAll(Aggregate(m, others[0]), others[1..])
  }

  /** The numbers the test values among `others` carry, added up; other values add nothing. */
  function FakeSum(others: seq<MetricValue>): nat {
    if others == [] then 0 else (if others[0].Fake? then others[0].value else 0) + FakeSum(others[1..])
  }

  /**
   * A test value aggregated with test values, broken values and author lists in any order
   * ends up with its own number plus the test values' numbers, under its own key.
   */
  lemma {:induction false} FakeAggregateAllIsSum(k: string, v: nat, others: seq<MetricValue>)
    requires forall i :: 0 <= i < |others| ==> !others[i].LinesCount?
    ensures AggregateAll(Fake(k, v), others) == Fake(k, v + FakeSum(others))
    decreases |others|
  {
    if others != [] {
      var next := Aggregate(Fake(k, v), others[0]);
      assert next == Fake(k, v + (if others[0].Fake? then others[0].value else 0));
      FakeAggregateAllIsSum(k, next.value, others[1..]);
    }
  }

  /** A broken value stays broken whatever it is aggregated with. */
  lemma {:induction false} BrokenAggregateAll(others: seq<MetricValue>)
    ensures AggregateAll(Broken, others) == Broken
    decreases |others|
  {
    if others != [] {
      BrokenAggregateAll(others[1..]);
    }
  }

  /** `FakeMetric::new(value)` names its values "fake<value>". */
  function FakeKey(value: nat): string {
    "fake" + NatToString(value)
  }

  /** The value a `FakeMetric::new(value)` reports for any file. */
  function FakeValue(value: nat): (r: MetricValue)
    ensures GetScore(r) == Ok(Score(value))
  {
    Fake(FakeKey(value), value)
  }
}
