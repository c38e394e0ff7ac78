/**
 * `LinesCountValue`: the number of lines of one file, or the error reading it, and how two
 * such values combine when a folder gathers the values of its files.
 */
module LinesCount {
  import opened Wrappers
  import opened MetricTypes

  type LineCount = Result<nat, AnalysisError>

  /** The metric's key. */
  const Key: string := "lines_count"

  /** `get_score`: the count as a score; every error becomes the generic analysis error. */
  function GetScore(lineCount: LineCount): (r: Result<MetricScoreType, AnalysisError>)
    ensures r.Ok? <==> lineCount.Ok?
    ensures r.Ok? ==> r.value == Score(lineCount.value)
    ensures r.Err? ==> r.error == AnalysisErrorText
  {
    match lineCount
    case Ok(value) => Ok(Score(value))
    case Err(_) => Err(AnalysisErrorText)
  }

  /** `get_value`: the count as a number; an error is passed on unchanged. */
  function GetValue(lineCount: LineCount): (r: Result<MetricValueType, AnalysisError>)
    ensures r.Err? <==> lineCount.Err?
    ensures r.Err? ==> r.error == lineCount.error
    ensures r.Ok? ==> r.value == Number(lineCount.value)
  {
    match lineCount
    case Ok(value) => Ok(Number(value))
    case Err(e) => Err(e)
  }

  /**
   * `aggregate`: combines this count with the value of another metric value. An error on one
   * side is absorbed by a number on the other; two errors give the generic analysis error.
   * A non-number value on the other side counts as 0 (see the README for the author-list case).
   */
  function Aggregate(self: LineCount, other: Result<MetricValueType, AnalysisError>): (r: LineCount)
    ensures r.Err? <==> self.Err? && other.Err?
    ensures r.Err? ==> r == Err(AnalysisErrorText)
    ensures self.Ok? && other.Err? ==> r == self
    ensures other.Ok? && other.value.Number? ==> r == Ok((if self.Ok? then self.value else 0) + other.value.n)
    ensures other.Ok? && other.value.Authors? ==> r == Ok(0)
  {
    match (self, other)
    case (Err(_), Err(_)) => Err(AnalysisErrorText)
    case (Err(_), Ok(v)) => (match v case Number(n) => Ok(n) case _ => Ok(0))
    case (Ok(n), Err(_)) => Ok(n)
    case (Ok(a), Ok(v)) => (match v case Number(b) => Ok(a + b) case _ => Ok(0))
  }

  /** Two lines-count values aggregated, as a folder does with the values of its files. */
  function Combine(a: LineCount, b: LineCount): LineCount {
    Aggregate(a, GetValue(b))
  }

  /** `get_score` and `get_value` agree: `Score(n)` exactly when `Number(n)`. */
  lemma ScoreAgreesWithValue(lineCount: LineCount, n: nat)
    ensures GetScore(lineCount) == Ok(Score(n)) <==> GetValue(lineCount) == Ok(Number(n))
    ensures GetScore(lineCount).Err? <==> GetValue(lineCount).Err?
  {
  }

  /** The aggregation table: sums, one-sided absorption, and the two-error case. */
  lemma CombineCases(a: LineCount, b: LineCount)
    ensures a.Ok? && b.Ok? ==> Combine(a, b) == Ok(a.value + b.value)
    ensures a.Err? && b.Ok? ==> Combine(a, b) == Ok(b.value)
    ensures a.Ok? && b.Err? ==> Combine(a, b) == Ok(a.value)
    ensures a.Err? && b.Err? ==> Combine(a, b) == Err(AnalysisErrorText)
    ensures Combine(a, b).Err? <==> a.Err? && b.Err?
  {
  }

  lemma CombineCommutes(a: LineCount, b: LineCount)
    ensures Combine(a, b) == Combine(b, a)
  {
  }

  lemma CombineAssociates(a: LineCount, b: LineCount, c: LineCount)
    ensures Combine(Combine(a, b), c) == Combine(a, Combine(b, c))
  {
  }

  /* A folder's count as an independent definition: the sum of the counts that succeeded. */

  /** Sum of the successful counts. */
  function SumOk(xs: seq<LineCount>): nat {
    if xs == [] then 0
    else SumOk(xs[..|xs| - 1]) + (if xs[|xs| - 1].Ok? then xs[|xs| - 1].value else 0)
  }

  predicate AnyOk(xs: seq<LineCount>) {
    exists i :: 0 <= i < |xs| && xs[i].Ok?
  }

  /** The counts aggregated left to right, as values arrive one file at a time. */
  function CombineAll(xs: seq<LineCount>): LineCount
    requires |xs| >= 1
  {
    if |xs| == 1 then xs[0] else Combine(CombineAll(xs[..|xs| - 1]), xs[|xs| - 1])
  }

  /**
   * Aggregating any number of counts gives the sum of those that succeeded, and an error
   * only when every one of them failed.
   */
  lemma {:induction false} CombineAllIsSumOfSuccesses(xs: seq<LineCount>)
    requires |xs| >= 1
    ensures AnyOk(xs) ==> CombineAll(xs) == Ok(SumOk(xs))
    ensures !AnyOk(xs) ==> CombineAll(xs).Err?
    ensures !AnyOk(xs) && |xs| >= 2 ==> CombineAll(xs) == Err(AnalysisErrorText)
  {
    if |xs| > 1 {
      var init := xs[..|xs| - 1];
      CombineAllIsSumOfSuccesses(init);
      if !AnyOk(init) {
        assert SumOk(init) == 0 by { NoOkSumsToZero(init); }
      }
      if AnyOk(xs) && !AnyOk(init) {
        assert xs[|xs| - 1].Ok?;
      }
      if AnyOk(init) {
        var i :| 0 <= i < |init| && init[i].Ok?;
        assert xs[i].Ok?;
      }
    } else {
      if AnyOk(xs) {
        assert xs[0].Ok?;
        assert xs[..0] == [];
      }
    }
  }

  lemma {:induction false} NoOkSumsToZero(xs: seq<LineCount>)
    requires !AnyOk(xs)
    ensures SumOk(xs) == 0
  {
    if xs != [] {
      var init := xs[..|xs| - 1];
      NoOkSumsToZero(init);
    }
  }
}
