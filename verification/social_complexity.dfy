/**
 * `SocialComplexityValue`: the distinct authors of a file, or the error finding them, and
 * how two such values combine. The git queries that produce the authors are outside the model.
 */
module SocialComplexity {
  import opened Wrappers
  import opened MetricTypes
  import opened Paths

  type AuthorList = Result<seq<string>, AnalysisError>

  /** The metric's key. */
  const Key: string := "social_complexity"

  /** `get_score`: the number of authors; an error is passed on unchanged. */
  function GetScore(authors: AuthorList): (r: Result<MetricScoreType, AnalysisError>)
    ensures r.Ok? <==> authors.Ok?
    ensures r.Ok? ==> r.value == Score(|authors.value|)
    ensures r.Err? ==> r.error == authors.error
  {
    match authors
    case Ok(names) => Ok(Score(|names|))
    case Err(e) => Err(e)
  }

  /** `get_value`: the author list itself. */
  function GetValue(authors: AuthorList): (r: Result<MetricValueType, AnalysisError>)
    ensures r.Ok? <==> authors.Ok?
    ensures r.Ok? ==> r.value == Authors(authors.value)
    ensures r.Err? ==> r.error == authors.error
  {
    match authors
    case Ok(names) => Ok(Authors(names))
    case Err(e) => Err(e)
  }

  /**
   * The loop of `aggregate`: each author of `other`, in order, is appended unless the list
   * built so far already holds it.
   */
  function Union(mine: seq<string>, other: seq<string>): (r: seq<string>)
    ensures |mine| <= |r| <= |mine| + |other|
    ensures r[..|mine|] == mine
  {
    if other == [] then mine
    else
      var soFar := Union(mine, other[..|other| - 1]);
      var author := other[|other| - 1];
      if author in soFar then soFar
      else
        assert (soFar + [author])[..|mine|] == soFar[..|mine|];
        soFar + [author]
  }

  /** `aggregate` of this author list with the value of another metric value. */
  function Aggregate(self: AuthorList, other: Result<MetricValueType, AnalysisError>): (r: AuthorList)
    ensures r.Err? <==> self.Err? && other.Err?
    ensures r.Err? ==> r == Err(AnalysisErrorText)
    ensures self.Ok? && other.Err? ==> r == self
    ensures self.Err? && other.Ok? ==> r == Ok(if other.value.Authors? then other.value.names else [])
    ensures self.Ok? && other.Ok? ==> r.Ok? && |self.value| <= |r.value| && r.value[..|self.value|] == self.value
    ensures self.Ok? && other.Ok? && other.value.Authors? ==>
      |self.value| <= |r.value| <= |self.value| + |other.value.names|
  {
    match (self, other)
    case (Err(_), Err(_)) => Err(AnalysisErrorText)
    case (Err(_), Ok(v)) => (match v case Authors(names) => Ok(names) case _ => Ok([]))
    case (Ok(names), Err(_)) => Ok(names)
    case (Ok(mine), Ok(v)) =>
      var theirs := (match v case Authors(names) => names case _ => []);
      Ok(Union(mine, theirs))
  }

  /** Two social-complexity values aggregated. */
  function Combine(a: AuthorList, b: AuthorList): AuthorList {
    Aggregate(a, GetValue(b))
  }

  /** The errors table: two errors give the generic error, one error gives the other side. */
  lemma CombineCases(a: AuthorList, b: AuthorList)
    ensures a.Err? && b.Err? ==> Combine(a, b) == Err(AnalysisErrorText)
    ensures a.Err? && b.Ok? ==> Combine(a, b) == Ok(b.value)
    ensures a.Ok? && b.Err? ==> Combine(a, b) == Ok(a.value)
    ensures a.Ok? && b.Ok? ==> Combine(a, b) == Ok(Union(a.value, b.value))
  {
  }

  /* An independent description of the appended part. */

  /** The authors of `other` the union appends: first occurrences not already in `mine`. */
  function NewAuthors(mine: seq<string>, other: seq<string>): seq<string> {
    if other == [] then []
    else
      var init := other[..|other| - 1];
      var author := other[|other| - 1];
      NewAuthors(mine, init) + (if author !in mine && author !in init then [author] else [])
  }

  predicate NoDuplicates(xs: seq<string>) {
    forall i, j :: 0 <= i < j < |xs| ==> xs[i] != xs[j]
  }

  /**
   * The union is `mine` followed by the first occurrences, in order, of the authors of
   * `other` that `mine` lacks; its authors are exactly those of both lists.
   */
  lemma {:induction false} UnionIsMineThenNewAuthors(mine: seq<string>, other: seq<string>)
    ensures Union(mine, other) == mine + NewAuthors(mine, other)
    ensures (set a | a in Union(mine, other)) == (set a | a in mine) + (set a | a in other)
  {
    if other != [] {
      var init := other[..|other| - 1];
      var author := other[|other| - 1];
      UnionIsMineThenNewAuthors(mine, init);
      var soFar := Union(mine, init);
      var seen := set a | a in soFar;
      assert author in soFar <==> author in seen;
      assert author in seen <==> author in mine || author in init;
      assert other == init + [author];
      assert (set a | a in other) == (set a | a in init) + {author};
      if author !in soFar {
        assert (set a | a in soFar + [author]) == seen + {author};
      }
    }
  }

  /** Aggregating into a duplicate-free list keeps it duplicate-free. */
  lemma {:induction false} UnionKeepsNoDuplicates(mine: seq<string>, other: seq<string>)
    requires NoDuplicates(mine)
    ensures NoDuplicates(Union(mine, other))
  {
    if other != [] {
      UnionKeepsNoDuplicates(mine, other[..|other| - 1]);
    }
  }

  /** The union is at least as long as either list (the second when it has no repeats). */
  lemma UnionLength(mine: seq<string>, other: seq<string>)
    ensures |mine| <= |Union(mine, other)| <= |mine| + |other|
    ensures NoDuplicates(other) ==> |other| <= |Union(mine, other)|
  {
    var u := Union(mine, other);
    if NoDuplicates(other) {
      UnionIsMineThenNewAuthors(mine, other);
      var so := set a | a in other;
      var su := set a | a in u;
      assert so <= su;
      DistinctCount(other);
      SetOfSeqSize(u);
      assert |so| <= |su| by { SubsetSize(so, su); }
    }
  }

  lemma {:induction false} DistinctCount(xs: seq<string>)
    requires NoDuplicates(xs)
    ensures |set a | a in xs| == |xs|
  {
    if xs != [] {
      var init := xs[..|xs| - 1];
      DistinctCount(init);
      assert xs == init + [xs[|xs| - 1]];
      assert (set a | a in xs) == (set a | a in init) + {xs[|xs| - 1]};
    }
  }

  lemma {:induction false} SetOfSeqSize(xs: seq<string>)
    ensures |set a | a in xs| <= |xs|
  {
    if xs != [] {
      var init := xs[..|xs| - 1];
      SetOfSeqSize(init);
      assert xs == init + [xs[|xs| - 1]];
      assert (set a | a in xs) == (set a | a in init) + {xs[|xs| - 1]};
    }
  }

  lemma SubsetSize(a: set<string>, b: set<string>)
    requires a <= b
    ensures |a| <= |b|
  {
    assert b == a + (b - a);
  }

  /** `get_relative_file_path`: the file's path below `root`, when `root` is one of its ancestors. */
  function RelativeFilePath(file: Path, root: Path): (r: Result<Path, ()>)
    ensures r.Ok? <==> |root| <= |file| && file[..|root|] == root
    ensures r.Ok? ==> root + r.value == file
  {
    match StripPathPrefix(file, root)
    case Some(relative) => Ok(relative)
    case None => Err(())
  }
}
