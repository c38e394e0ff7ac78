/**
 * `cli/cli_lib.rs`: the command-line analysis of a directory tree. Every visible entry of a
 * folder is analysed, in file-name order; a file's metric is its number of lines and a
 * folder's the sum of its entries' metrics; the result is written as nested JSON objects.
 * The directory tree is an input value instead of the file system.
 */
module CliLib {
  import opened Wrappers
  import opened Text
  import opened Paths
  import opened Json
  import LineCount
  import LegacyAnalysis

  /** `Metrics`: the one metric this analysis computes. */
  datatype Metrics = Metrics(linesMetric: nat)

  datatype Analysis =
    | FileAnalysis(fileKey: string, metrics: Metrics)
    | FolderAnalysis(folderKey: string, metrics: Metrics, folderContent: seq<Analysis>)

  /** The key of a file or folder record. */
  function KeyOf(a: Analysis): string {
    if a.FileAnalysis? then a.fileKey else a.folderKey
  }

  /** A directory tree as `read_dir` and `File::open` would find it. */
  datatype FsNode = FsFile(name: string, content: string) | FsDir(name: string, entries: seq<FsNode>)

  /* ---------------------------------------------------------------- */
  /* Folder summary                                                    */

  /** `summary_lines_metric`: every entry, file or folder, adds its own metric. */
  function SummaryLinesMetric(contents: seq<Analysis>): (r: nat)
    ensures forall i :: 0 <= i < |contents| ==> contents[i].metrics.linesMetric <= r
  {
    if contents == [] then 0 else contents[0].metrics.linesMetric + SummaryLinesMetric(contents[1..])
  }

  /** The summary of entries listed one after the other is the sum of the two summaries. */
  lemma {:induction false} SummaryAppend(a: seq<Analysis>, b: seq<Analysis>)
    ensures SummaryLinesMetric(a + b) == SummaryLinesMetric(a) + SummaryLinesMetric(b)
  {
    if a != [] {
      assert (a + b)[1..] == a[1..] + b;
      SummaryAppend(a[1..], b);
    } else {
      assert a + b == b;
    }
  }

  /**
   * The summary adds up the direct entries' stored metrics and nothing below them: 0 for no
   * entries, and one more entry adds exactly its own metric.
   */
  lemma SummaryOfEntries(contents: seq<Analysis>, last: Analysis)
    ensures SummaryLinesMetric([]) == 0
    ensures SummaryLinesMetric(contents + [last]) == SummaryLinesMetric(contents) + last.metrics.linesMetric
  {
    SummaryAppend(contents, [last]);
  }

  /* ---------------------------------------------------------------- */
  /* Ordering the entries of a folder                                  */

  /** An entry of a folder after its analysis: its name, whether it is shown, and its record. */
  datatype Visited = Visited(name: string, shown: bool, analysis: Analysis)

  predicate SortedByName(v: seq<Visited>) {
    forall i, j :: 0 <= i < j < |v| ==> !Less(v[j].name, v[i].name)
  }

  /** Places `x` after every entry whose name is not greater, keeping the order sorted. */
  function InsertByName(x: Visited, s: seq<Visited>): (r: seq<Visited>)
    ensures multiset(r) == multiset(s) + multiset{x}
    ensures |r| == |s| + 1
  {
    if s == [] || Less(x.name, s[0].name) then [x] + s
    else
      assert s == [s[0]] + s[1..];
      [s[0]] + InsertByName(x, s[1..])
  }

  /** `sort_by_key(|e| e.file_name())`: a stable sort by name. */
  function SortByName(v: seq<Visited>): (r: seq<Visited>)
    ensures multiset(r) == multiset(v)
    ensures |r| == |v|
  {
    if v == [] then []
    else
      assert v == v[..|v| - 1] + [v[|v| - 1]];
      InsertByName(v[|v| - 1], SortByName(v[..|v| - 1]))
  }

  lemma {:induction false} InsertByNameSorted(x: Visited, s: seq<Visited>)
    requires SortedByName(s)
    ensures SortedByName(InsertByName(x, s))
  {
    var r := InsertByName(x, s);
    if s == [] {
    } else if Less(x.name, s[0].name) {
      forall j | 0 < j < |r| ensures !Less(r[j].name, x.name) {
        assert r[j] == s[j - 1];
        if j - 1 > 0 {
          assert !Less(s[j - 1].name, s[0].name);
          LessTotal(s[0].name, s[j - 1].name);
          if s[0].name != s[j - 1].name {
            LessTransitive(x.name, s[0].name, s[j - 1].name);
          }
        }
        LessAsymmetric(x.name, r[j].name);
      }
    } else {
      var rest := InsertByName(x, s[1..]);
      assert SortedByName(s[1..]) by {
        forall i, j | 0 <= i < j < |s[1..]| ensures !Less(s[1..][j].name, s[1..][i].name) {
          assert s[1..][i] == s[i + 1] && s[1..][j] == s[j + 1];
        }
      }
      InsertByNameSorted(x, s[1..]);
      forall j | 0 <= j < |rest| ensures !Less(rest[j].name, s[0].name) {
        assert rest[j] in multiset(rest);
        if rest[j] != x {
          assert rest[j] in multiset(s[1..]);
          var k :| 0 <= k < |s[1..]| && s[1..][k] == rest[j];
          assert s[k + 1] == rest[j];
        }
      }
      assert r == [s[0]] + rest;
    }
  }

  lemma {:induction false} SortByNameSorted(v: seq<Visited>)
    ensures SortedByName(SortByName(v))
  {
    if v != [] {
      SortByNameSorted(v[..|v| - 1]);
      InsertByNameSorted(v[|v| - 1], SortByName(v[..|v| - 1]));
    }
  }

  /** The records of the shown entries, in order: the `filter` step after the sort. */
  function Shown(v: seq<Visited>): (r: seq<Analysis>)
    ensures |r| <= |v|
  {
    if v == [] then []
    else (if v[0].shown then [v[0].analysis] else []) + Shown(v[1..])
  }

  /** What an entry adds to its folder's metric: its own metric when shown, else nothing. */
  function Weight(x: Visited): nat {
    if x.shown then x.analysis.metrics.linesMetric else 0
  }

  function ShownTotal(v: seq<Visited>): nat {
    if v == [] then 0 else Weight(v[0]) + ShownTotal(v[1..])
  }

  lemma {:induction false} SummaryOfShown(v: seq<Visited>)
    ensures SummaryLinesMetric(Shown(v)) == ShownTotal(v)
  {
    if v != [] {
      SummaryOfShown(v[1..]);
      SummaryAppend(if v[0].shown then [v[0].analysis] else [], Shown(v[1..]));
    }
  }

  lemma {:induction false} ShownTotalInsert(x: Visited, s: seq<Visited>)
    ensures ShownTotal(InsertByName(x, s)) == Weight(x) + ShownTotal(s)
  {
    if s != [] && !Less(x.name, s[0].name) {
      ShownTotalInsert(x, s[1..]);
    }
  }

  lemma {:induction false} ShownTotalSnoc(v: seq<Visited>)
    requires v != []
    ensures ShownTotal(v) == ShownTotal(v[..|v| - 1]) + Weight(v[|v| - 1])
  {
    if |v| > 1 {
      ShownTotalSnoc(v[1..]);
      assert v[1..][..|v| - 2] == v[..|v| - 1][1..];
    }
  }

  /** Sorting does not change which entries are shown, so it does not change their total. */
  lemma {:induction false} ShownTotalSort(v: seq<Visited>)
    ensures ShownTotal(SortByName(v)) == ShownTotal(v)
  {
    if v != [] {
      ShownTotalSort(v[..|v| - 1]);
      ShownTotalInsert(v[|v| - 1], SortByName(v[..|v| - 1]));
      ShownTotalSnoc(v);
    }
  }

  /* ---------------------------------------------------------------- */
  /* Analysing a tree                                                  */

  /** `compute_lines_count_metric`: the number of lines `BufRead::lines` yields. */
  function ComputeLinesCountMetric(content: string): nat {
    |LineCount.Lines(content)|
  }

  /** `analyse`: a file is counted, anything else is analysed as a folder. */
  function Analyse(item: string, node: FsNode): (r: Analysis)
    ensures node.FsFile? <==> r.FileAnalysis?
    decreases node, 2
  {
    match node
    case FsFile(_, content) =>
      FileAnalysis(LegacyAnalysis.ExtractAnalysedItemKey(item), Metrics(ComputeLinesCountMetric(content)))
    case FsDir(_, _) => AnalyseFolder(item, node)
  }

  /** Every entry of a folder, analysed at its own path, with whether the filter shows it. */
  function VisitEntries(item: string, dir: FsNode): (r: seq<Visited>)
    requires dir.FsDir?
    ensures |r| == |dir.entries|
    decreases dir, 0
  {
    var es := dir.entries;
    seq(|es|, i requires 0 <= i < |es| => Visit(item, es[i]))
  }

  /** One entry of the folder `item`, analysed at its own path `DirEntry::path`. */
  function Visit(item: string, e: FsNode): (r: Visited)
    ensures r.name == e.name
    decreases e, 3
  {
    var path := Push(item, e.name);
    Visited(e.name, LegacyAnalysis.CanFileBeAnalysed(path), Analyse(path, e))
  }

  /**
   * `analyse_folder`: the entries sorted by name, the hidden ones dropped, the rest analysed,
   * and the folder's metric their summary. Analysing an entry does not depend on the others,
   * so the entries are analysed before the sort and the filter rather than after.
   */
  function AnalyseFolder(item: string, dir: FsNode): (r: Analysis)
    requires dir.FsDir?
    ensures r.FolderAnalysis? && r.folderKey == LegacyAnalysis.ExtractAnalysedItemKey(item)
    decreases dir, 1
  {
    var content := Shown(SortByName(VisitEntries(item, dir)));
    FolderAnalysis(LegacyAnalysis.ExtractAnalysedItemKey(item), Metrics(SummaryLinesMetric(content)), content)
  }

  /** `analyse_root`; `None` is the panic of `read_dir` on a root that is not a directory. */
  function AnalyseRoot(root: string, node: FsNode): (r: Option<Analysis>)
    ensures r.Some? <==> node.FsDir?
    ensures r.Some? ==> r.value.FolderAnalysis? && r.value.folderKey == LegacyAnalysis.ExtractAnalysedItemKey(root)
  {
    if node.FsDir? then Some(AnalyseFolder(root, node)) else None
  }

  /** A root given as "./" or "../" is keyed by that text, trailing separator included. */
  lemma UnnamedRootKeepsItsText(node: FsNode)
    requires node.FsDir?
    ensures AnalyseRoot("./", node).value.folderKey == "./"
    ensures AnalyseRoot("../", node).value.folderKey == "../"
  {
    LegacyAnalysis.UnnamedRootKeys();
  }

  /* ---------------------------------------------------------------- */
  /* What the analysis counts                                          */

  /** The lines of every shown file at or below a node, each hidden entry skipped with all it holds. */
  function VisibleLines(item: string, node: FsNode): nat
    decreases node, 1
  {
    match node
    case FsFile(_, content) => |LineCount.Lines(content)|
    case FsDir(_, es) => VisibleLinesOf(item, node, |es|)
  }

  /** The visible lines of the first `k` entries of a folder. */
  function VisibleLinesOf(item: string, dir: FsNode, k: nat): nat
    requires dir.FsDir? && k <= |dir.entries|
    decreases dir, 0, k
  {
    if k == 0 then 0
    else
      var e := dir.entries[k - 1];
      var path := Push(item, e.name);
      VisibleLinesOf(item, dir, k - 1) + (if LegacyAnalysis.CanFileBeAnalysed(path) then VisibleLines(path, e) else 0)
  }

  lemma {:induction false} VisitedTotal(item: string, dir: FsNode, k: nat)
    requires dir.FsDir? && k <= |dir.entries|
    requires forall i :: 0 <= i < |dir.entries| ==>
      Analyse(Push(item, dir.entries[i].name), dir.entries[i]).metrics.linesMetric
        == VisibleLines(Push(item, dir.entries[i].name), dir.entries[i])
    ensures ShownTotal(VisitEntries(item, dir)[..k]) == VisibleLinesOf(item, dir, k)
  {
    if k > 0 {
      VisitedTotal(item, dir, k - 1);
      VisitedTotalStep(item, dir, k);
    }
  }

  /** One more entry grows the shown total and the visible-line count by the same amount. */
  lemma VisitedTotalStep(item: string, dir: FsNode, k: nat)
    requires dir.FsDir? && 0 < k <= |dir.entries|
    requires forall i :: 0 <= i < |dir.entries| ==>
      Analyse(Push(item, dir.entries[i].name), dir.entries[i]).metrics.linesMetric
        == VisibleLines(Push(item, dir.entries[i].name), dir.entries[i])
    ensures ShownTotal(VisitEntries(item, dir)[..k]) - ShownTotal(VisitEntries(item, dir)[..k - 1])
      == VisibleLinesOf(item, dir, k) - VisibleLinesOf(item, dir, k - 1)
  {
    var v := VisitEntries(item, dir)[..k];
    var e := dir.entries[k - 1];
    ShownTotalSnoc(v);
    assert v[..k - 1] == VisitEntries(item, dir)[..k - 1];
    assert v[k - 1] == Visit(item, e);
    VisitWeight(item, e);
    var w := if LegacyAnalysis.CanFileBeAnalysed(Push(item, e.name)) then VisibleLines(Push(item, e.name), e) else 0;
    assert VisibleLinesOf(item, dir, k) == VisibleLinesOf(item, dir, k - 1) + w;
  }

  /** A visited entry weighs its visible lines when shown and nothing when hidden. */
  lemma VisitWeight(item: string, e: FsNode)
    requires Analyse(Push(item, e.name), e).metrics.linesMetric == VisibleLines(Push(item, e.name), e)
    ensures Weight(Visit(item, e))
      == if LegacyAnalysis.CanFileBeAnalysed(Push(item, e.name)) then VisibleLines(Push(item, e.name), e) else 0
  {
  }

  /**
   * A folder's metric is the number of lines of all the files below it that the analysis
   * shows, at any depth, whatever order its entries were listed in.
   */
  lemma {:induction false} AnalyseCountsVisibleLines(item: string, node: FsNode)
    ensures Analyse(item, node).metrics.linesMetric == VisibleLines(item, node)
    decreases node
  {
    if node.FsDir? {
      var es := node.entries;
      forall i | 0 <= i < |es|
        ensures Analyse(Push(item, es[i].name), es[i]).metrics.linesMetric == VisibleLines(Push(item, es[i].name), es[i])
      {
        AnalyseCountsVisibleLines(Push(item, es[i].name), es[i]);
      }
      FolderCountsVisibleLines(item, node);
    }
  }

  /** A folder whose entries each count their visible lines counts its own. */
  lemma FolderCountsVisibleLines(item: string, dir: FsNode)
    requires dir.FsDir?
    requires forall i :: 0 <= i < |dir.entries| ==>
      Analyse(Push(item, dir.entries[i].name), dir.entries[i]).metrics.linesMetric
        == VisibleLines(Push(item, dir.entries[i].name), dir.entries[i])
    ensures Analyse(item, dir).metrics.linesMetric == VisibleLines(item, dir)
  {
    var v := VisitEntries(item, dir);
    SummaryOfShown(SortByName(v));
    ShownTotalSort(v);
    VisitedTotal(item, dir, |dir.entries|);
    assert v[..|dir.entries|] == v;
  }

  /**
   * A folder's content is its shown entries ordered by name: every entry not starting with a
   * dot, each exactly once, and nothing else.
   */
  lemma FolderContentIsSortedShownEntries(item: string, dir: FsNode)
    requires dir.FsDir?
    ensures var v := SortByName(VisitEntries(item, dir));
      && SortedByName(v)
      && multiset(v) == multiset(VisitEntries(item, dir))
      && AnalyseFolder(item, dir).folderContent == Shown(v)
  {
    SortByNameSorted(VisitEntries(item, dir));
  }

  /**
   * An entry with a plain name is shown exactly when the name does not start with a dot, and
   * it is keyed by that name, whatever text its folder was given as.
   */
  lemma ShownEntries(item: string, dir: FsNode, i: nat)
    requires dir.FsDir? && i < |dir.entries|
    requires IsNormal(dir.entries[i].name)
    ensures VisitEntries(item, dir)[i].shown <==> dir.entries[i].name[0] != '.'
    ensures KeyOf(VisitEntries(item, dir)[i].analysis) == dir.entries[i].name
  {
    var e := dir.entries[i];
    LegacyAnalysis.PushedEntries(item, e.name);
    assert VisitEntries(item, dir)[i] == Visit(item, e);
    assert KeyOf(Analyse(Push(item, e.name), e)) == LegacyAnalysis.ExtractAnalysedItemKey(Push(item, e.name));
  }

  /* ---------------------------------------------------------------- */
  /* JSON                                                              */

  const LinesMetricName := "lines_metric"

  /** The `Metrics` record as serde writes it. */
  function MetricsJson(m: Metrics): Json {
    JObj([Member(LinesMetricName, JNum(m.linesMetric))])
  }

  /** Reads a `Metrics` record back. */
  function ReadMetrics(j: Json): (r: Option<Metrics>)
    ensures r.Some? ==> MetricsJson(r.value) == j
  {
    match j
    case JObj(ms) =>
      if |ms| == 1 && ms[0].name == LinesMetricName && ms[0].value.JNum? && ms[0].value.n >= 0 then
        assert ms == [ms[0]];
        Some(Metrics(ms[0].value.n))
      else None
    case _ => None
  }

  /** The JSON of a record, a folder through `build_json_folder_analysis` and a file through `build_json_file_analysis`. */
  function ToJson(a: Analysis): (r: Json)
    ensures r.JObj? && |r.members| == 1
    decreases a, 1
  {
    match a
    case FolderAnalysis(_, _, _) => BuildJsonFolderAnalysis(a)
    case FileAnalysis(_, _) => BuildJsonFileAnalysis(a)
  }

  /** `build_json_folder_analysis`: the entries written in order, each in its own shape. */
  function BuildJsonFolderAnalysis(folder: Analysis): (r: Json)
    requires folder.FolderAnalysis?
    ensures r.JObj? && |r.members| == 1 && r.members[0].name == folder.folderKey
    decreases folder, 0
  {
    var cs := folder.folderContent;
    FolderShape(folder.folderKey, MetricsJson(folder.metrics),
      seq(|cs|, i requires 0 <= i < |cs| => ToJson(cs[i])))
  }

  /** `build_json_file_analysis`. */
  function BuildJsonFileAnalysis(file: Analysis): (r: Json)
    requires file.FileAnalysis?
    ensures r.JObj? && |r.members| == 1 && r.members[0].name == file.fileKey
  {
    FileShape(file.fileKey, MetricsJson(file.metrics))
  }

  /** Reads a written record back; the key of every record is the name of its object. */
  function FromJson(j: Json): Option<Analysis> {
    match ReadShape(j)
    case None => None
    case Some(FileShaped(id, m)) =>
      (match ReadMetrics(m)
       case Some(metrics) => Some(FileAnalysis(id, metrics))
       case None => None)
    case Some(FolderShaped(id, m, items)) =>
      assert j == FolderShape(id, m, items);
      var decoded := seq(|items|, i requires 0 <= i < |items| => FromJson(items[i]));
      match ReadMetrics(m)
      case None => None
      case Some(metrics) =>
        if forall i :: 0 <= i < |decoded| ==> decoded[i].Some? then
          Some(FolderAnalysis(id, metrics, seq(|items|, i requires 0 <= i < |items| => decoded[i].value)))
        else None
  }

  /** Every record reads back from its JSON: nothing of the analysis is lost in writing it. */
  lemma {:induction false} FromJsonToJson(a: Analysis)
    ensures FromJson(ToJson(a)) == Some(a)
    decreases a
  {
    match a
    case FileAnalysis(key, m) =>
      ReadWrittenShapes(key, MetricsJson(m), []);
    case FolderAnalysis(key, m, cs) =>
      var items := seq(|cs|, i requires 0 <= i < |cs| => ToJson(cs[i]));
      ReadWrittenShapes(key, MetricsJson(m), items);
      forall i | 0 <= i < |cs| ensures FromJson(items[i]) == Some(cs[i]) {
        FromJsonToJson(cs[i]);
      }
      var decoded := seq(|items|, i requires 0 <= i < |items| => FromJson(items[i]));
      assert seq(|items|, i requires 0 <= i < |items| => decoded[i].value) == cs;
  }

  /** Whatever reads back as a record is exactly that record's JSON. */
  lemma {:induction false} ToJsonFromJson(j: Json)
    requires FromJson(j).Some?
    ensures ToJson(FromJson(j).value) == j
    decreases j
  {
    match ReadShape(j)
    case Some(FileShaped(id, m)) =>
    case Some(FolderShaped(id, m, items)) =>
      assert j == FolderShape(id, m, items);
      var decoded := seq(|items|, i requires 0 <= i < |items| => FromJson(items[i]));
      assert forall i :: 0 <= i < |items| ==> decoded[i].Some?;
      var cs := FromJson(j).value.folderContent;
      forall i | 0 <= i < |items| ensures ToJson(cs[i]) == items[i] {
        assert decoded[i] == FromJson(items[i]);
        ToJsonFromJson(items[i]);
      }
      assert seq(|cs|, i requires 0 <= i < |cs| => ToJson(cs[i])) == items;
  }

  /**
   * A folder is written as a one-member object named after it holding "folder_content" and
   * "metrics", with one element per entry in entry order; a file holds only "metrics".
   */
  lemma JsonShapes(a: Analysis)
    ensures a.FolderAnalysis? ==> exists items ::
      ReadShape(ToJson(a)) == Some(FolderShaped(a.folderKey, MetricsJson(a.metrics), items))
      && |items| == |a.folderContent|
      && forall i :: 0 <= i < |items| ==> items[i] == ToJson(a.folderContent[i])
    ensures a.FileAnalysis? ==> ReadShape(ToJson(a)) == Some(FileShaped(a.fileKey, MetricsJson(a.metrics)))
  {
    match a
    case FileAnalysis(key, m) =>
      ReadWrittenShapes(key, MetricsJson(m), []);
    case FolderAnalysis(key, m, cs) =>
      var items := seq(|cs|, i requires 0 <= i < |cs| => ToJson(cs[i]));
      ReadWrittenShapes(key, MetricsJson(m), items);
      assert ReadShape(ToJson(a)) == Some(FolderShaped(a.folderKey, MetricsJson(a.metrics), items));
      assert forall i :: 0 <= i < |items| ==> items[i] == ToJson(a.folderContent[i]);
  }
}
