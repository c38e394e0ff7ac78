/**
 * `src/analysis.rs`, module `internal_process`: the older analysis of a root folder. Files are
 * given as a list of paths and each metric as a key with an analysis function; the folder
 * metric assembly of `analyse_folder` and the two path helpers shared with the command line.
 */
module LegacyAnalysis {
  import opened Wrappers
  import opened Text
  import opened Paths
  import opened LegacyModels
  import LineCount

  /** An `IMetric` of this pipeline: the key its values are stored under and its analysis. */
  datatype LegacyMetric = LegacyMetric(key: string, analyze: Path -> Result<nat, string>)

  /* ---------------------------------------------------------------- */
  /* Storing one metric result                                         */

  /** A metric's answer as stored in a metric map: a score, or the error text. */
  function ToMetricsValue(r: Result<nat, string>): MetricsValue {
    match r
    case Ok(n) => Score(n)
    case Err(e) => Error(e)
  }

  /* ---------------------------------------------------------------- */
  /* The metrics of one file                                           */

  function MetricKeys(metrics: seq<LegacyMetric>): (r: seq<string>)
    ensures |r| == |metrics|
    ensures forall i :: 0 <= i < |metrics| ==> r[i] == metrics[i].key
  {
    seq(|metrics|, i requires 0 <= i < |metrics| => metrics[i].key)
  }

  /** The inner loop over the metrics: each answer is inserted into the running map. */
  function RecordMetrics(acc: MetricsMap, file: Path, metrics: seq<LegacyMetric>): MetricsMap
    decreases |metrics|
  {
    if metrics == [] then acc
    else
      var m := metrics[0];
      RecordMetrics(acc[m.key := ToMetricsValue(m.analyze(file))], file, metrics[1..])
  }

  /** The metric map of one file analysed on its own. */
  function FileMap(file: Path, metrics: seq<LegacyMetric>): MetricsMap {
    RecordMetrics(map[], file, metrics)
  }

  /** No later metric shares the key of metric `j`: its answer is the one kept. */
  predicate LastWithItsKey(metrics: seq<LegacyMetric>, j: nat)
    requires j < |metrics|
  {
    forall i :: j < i < |metrics| ==> metrics[i].key != metrics[j].key
  }

  /**
   * Recording the metrics of a file keeps the earlier entries of the map whose keys no metric
   * rewrites, adds every metric key, and stores under each key the answer of the last metric
   * with that key.
   */
  lemma RecordMetricsContents(acc: MetricsMap, file: Path, metrics: seq<LegacyMetric>)
    ensures forall k :: k in RecordMetrics(acc, file, metrics) <==> k in acc || k in MetricKeys(metrics)
    ensures forall k :: k in acc && k !in MetricKeys(metrics) ==> RecordMetrics(acc, file, metrics)[k] == acc[k]
    ensures forall j :: 0 <= j < |metrics| && LastWithItsKey(metrics, j) ==>
      metrics[j].key in RecordMetrics(acc, file, metrics) &&
      RecordMetrics(acc, file, metrics)[metrics[j].key] == ToMetricsValue(metrics[j].analyze(file))
  {
    RecordMetricsKeys(acc, file, metrics);
    RecordMetricsKeeps(acc, file, metrics);
    RecordMetricsLastWins(acc, file, metrics);
  }

  lemma {:induction false} RecordMetricsKeys(acc: MetricsMap, file: Path, metrics: seq<LegacyMetric>)
    ensures forall k :: k in RecordMetrics(acc, file, metrics) <==> k in acc || k in MetricKeys(metrics)
    decreases |metrics|
  {
    if metrics != [] {
      var m := metrics[0];
      var rest := metrics[1..];
      RecordMetricsKeys(acc[m.key := ToMetricsValue(m.analyze(file))], file, rest);
      assert MetricKeys(metrics) == [m.key] + MetricKeys(rest);
    }
  }

  lemma {:induction false} RecordMetricsKeeps(acc: MetricsMap, file: Path, metrics: seq<LegacyMetric>)
    ensures forall k :: k in acc && k !in MetricKeys(metrics) ==> k in RecordMetrics(acc, file, metrics)
    ensures forall k :: k in acc && k !in MetricKeys(metrics) ==> RecordMetrics(acc, file, metrics)[k] == acc[k]
    decreases |metrics|
  {
    if metrics != [] {
      var m := metrics[0];
      var rest := metrics[1..];
      RecordMetricsKeeps(acc[m.key := ToMetricsValue(m.analyze(file))], file, rest);
      assert MetricKeys(metrics) == [m.key] + MetricKeys(rest);
    }
  }

  lemma {:induction false} RecordMetricsLastWins(acc: MetricsMap, file: Path, metrics: seq<LegacyMetric>)
    ensures forall j :: 0 <= j < |metrics| && LastWithItsKey(metrics, j) ==>
      metrics[j].key in RecordMetrics(acc, file, metrics) &&
      RecordMetrics(acc, file, metrics)[metrics[j].key] == ToMetricsValue(metrics[j].analyze(file))
    decreases |metrics|
  {
    if metrics != [] {
      var m := metrics[0];
      var next := acc[m.key := ToMetricsValue(m.analyze(file))];
      var rest := metrics[1..];
      RecordMetricsLastWins(next, file, rest);
      forall j | 0 <= j < |metrics| && LastWithItsKey(metrics, j)
        ensures metrics[j].key in RecordMetrics(acc, file, metrics)
        ensures RecordMetrics(acc, file, metrics)[metrics[j].key] == ToMetricsValue(metrics[j].analyze(file))
      {
        if j == 0 {
          assert forall i :: 0 <= i < |rest| ==> rest[i].key != m.key by {
            forall i | 0 <= i < |rest| ensures rest[i].key != m.key {
              assert rest[i] == metrics[i + 1];
            }
          }
          assert m.key !in MetricKeys(rest);
          RecordMetricsKeeps(next, file, rest);
        } else {
          assert metrics[j] == rest[j - 1];
          assert LastWithItsKey(rest, j - 1) by {
            forall i | j - 1 < i < |rest| ensures rest[i].key != rest[j - 1].key {
              assert rest[i] == metrics[i + 1];
            }
          }
        }
      }
    }
  }

  /** The map of one file holds exactly the metric keys. */
  lemma FileMapKeys(file: Path, metrics: seq<LegacyMetric>)
    ensures forall k :: k in FileMap(file, metrics) <==> k in MetricKeys(metrics)
  {
    RecordMetricsContents(map[], file, metrics);
  }

  /** When every key of the running map is a metric key, recording a file forgets the map. */
  lemma RecordOverCoveredMap(acc: MetricsMap, file: Path, metrics: seq<LegacyMetric>)
    requires forall k :: k in acc ==> k in MetricKeys(metrics)
    ensures RecordMetrics(acc, file, metrics) == FileMap(file, metrics)
  {
    RecordMetricsContents(acc, file, metrics);
    RecordMetricsContents(map[], file, metrics);
    var a := RecordMetrics(acc, file, metrics);
    var b := FileMap(file, metrics);
    forall k | k in a ensures k in b && a[k] == b[k] {
      var j := LastIndexOf(MetricKeys(metrics), k);
      assert metrics[j].key == k;
      assert LastWithItsKey(metrics, j);
    }
  }

  /** The last position of a key in a list that holds it. */
  function LastIndexOf(keys: seq<string>, k: string): (j: nat)
    requires k in keys
    ensures j < |keys| && keys[j] == k
    ensures forall i :: j < i < |keys| ==> keys[i] != k
  {
    if keys[|keys| - 1] == k then |keys| - 1
    else
      assert k in keys[..|keys| - 1] by {
        var i :| 0 <= i < |keys| && keys[i] == k;
        assert keys[..|keys| - 1][i] == k;
      }
      LastIndexOf(keys[..|keys| - 1], k)
  }

  /* ---------------------------------------------------------------- */
  /* `internal_analyse_root`                                           */

  /**
   * The outer loop over the files: each file's answers go into the one running map, which is
   * never cleared, and the file entry takes a copy of it. `None` is the panic of `unwrap` on a
   * file without a file name.
   */
  function AnalyseFiles(acc: MetricsMap, files: seq<Path>, metrics: seq<LegacyMetric>)
    : Option<(seq<AnalysisTest>, MetricsMap)>
    decreases |files|
  {
    if files == [] then Some(([], acc))
    else
      var m := RecordMetrics(acc, files[0], metrics);
      match FileName(files[0])
      case None => None
      case Some(name) =>
        match AnalyseFiles(m, files[1..], metrics)
        case None => None
        case Some((rest, last)) => Some(([FileAnalysisTest(name, m)] + rest, last))
  }

  /** `internal_analyse_root`; `None` is a panic on a root or file without a file name. */
  function InternalAnalyseRoot(root: Path, files: seq<Path>, metrics: seq<LegacyMetric>): Option<RootAnalysis> {
    match AnalyseFiles(map[], files, metrics)
    case None => None
    case Some((content, last)) =>
      match FileName(root)
      case None => None
      case Some(key) => Some(RootAnalysis(key, last, content))
  }

  predicate AllNamed(files: seq<Path>) {
    forall i :: 0 <= i < |files| ==> FileName(files[i]).Some?
  }

  /** The metric map a file's entry is expected to show: its own answers and nothing else. */
  predicate IsFileEntry(entry: AnalysisTest, file: Path, metrics: seq<LegacyMetric>) {
    FileName(file).Some? && entry == FileAnalysisTest(FileName(file).value, FileMap(file, metrics))
  }

  lemma {:induction false} AnalyseFilesEntries(acc: MetricsMap, files: seq<Path>, metrics: seq<LegacyMetric>)
    requires forall k :: k in acc ==> k in MetricKeys(metrics)
    ensures var r := AnalyseFiles(acc, files, metrics);
      && (r.Some? <==> AllNamed(files))
      && (r.Some? ==> |r.value.0| == |files|)
      && (r.Some? ==> forall i :: 0 <= i < |files| ==> IsFileEntry(r.value.0[i], files[i], metrics))
      && (r.Some? ==> r.value.1 == if files == [] then acc else FileMap(files[|files| - 1], metrics))
    decreases |files|
  {
    if files != [] {
      var m := RecordMetrics(acc, files[0], metrics);
      RecordOverCoveredMap(acc, files[0], metrics);
      FileMapKeys(files[0], metrics);
      AnalyseFilesEntries(m, files[1..], metrics);
      AllNamedCons(files);
      AnalyseFilesStep(acc, files, metrics);
      var r := AnalyseFiles(acc, files, metrics);
      if r.Some? {
        FileEntriesCons(r.value.0, files, metrics);
      }
    }
  }

  lemma AllNamedCons(files: seq<Path>)
    requires files != []
    ensures AllNamed(files) <==> FileName(files[0]).Some? && AllNamed(files[1..])
  {
    if FileName(files[0]).Some? && AllNamed(files[1..]) {
      forall i | 0 <= i < |files| ensures FileName(files[i]).Some? {
        if i > 0 { assert files[i] == files[1..][i - 1]; }
      }
    }
  }

  /** One step of the file loop: the first file's entry, then the entries of the rest. */
  lemma AnalyseFilesStep(acc: MetricsMap, files: seq<Path>, metrics: seq<LegacyMetric>)
    requires files != []
    ensures var m := RecordMetrics(acc, files[0], metrics);
      var r := AnalyseFiles(acc, files, metrics);
      var below := AnalyseFiles(m, files[1..], metrics);
      && (r.Some? <==> FileName(files[0]).Some? && below.Some?)
      && (r.Some? ==> r.value == ([FileAnalysisTest(FileName(files[0]).value, m)] + below.value.0, below.value.1))
  {
  }

  lemma FileEntriesCons(entries: seq<AnalysisTest>, files: seq<Path>, metrics: seq<LegacyMetric>)
    requires files != [] && |entries| == |files|
    requires IsFileEntry(entries[0], files[0], metrics)
    requires forall i :: 0 <= i < |files| - 1 ==> IsFileEntry(entries[1..][i], files[1..][i], metrics)
    ensures forall i :: 0 <= i < |files| ==> IsFileEntry(entries[i], files[i], metrics)
  {
    forall i | 0 <= i < |files| ensures IsFileEntry(entries[i], files[i], metrics) {
      if i > 0 {
        assert entries[i] == entries[1..][i - 1];
        assert files[i] == files[1..][i - 1];
      }
    }
  }

  /**
   * `internal_analyse_root` succeeds exactly when the root and every file have a file name.
   * It then reports one entry per file, in input order, named after the file and holding that
   * file's own answers (the map is never cleared, but every file rewrites every key of it);
   * the root is named after its last component and shows the map left by the last file, or
   * an empty map when there are no files.
   */
  lemma InternalAnalyseRootReport(root: Path, files: seq<Path>, metrics: seq<LegacyMetric>)
    ensures var r := InternalAnalyseRoot(root, files, metrics);
      && (r.Some? <==> FileName(root).Some? && AllNamed(files))
      && (r.Some? ==> r.value.folderKey == FileName(root).value)
      && (r.Some? ==> |r.value.folderContent| == |files|)
      && (r.Some? ==> forall i :: 0 <= i < |files| ==> IsFileEntry(r.value.folderContent[i], files[i], metrics))
      && (r.Some? ==> r.value.metrics == if files == [] then map[] else FileMap(files[|files| - 1], metrics))
  {
    AnalyseFilesEntries(map[], files, metrics);
  }

  /**
   * Each file entry maps every metric key to that metric's answer for the file, when the
   * metric keys are distinct.
   */
  lemma FileEntryAnswers(file: Path, metrics: seq<LegacyMetric>, j: nat)
    requires j < |metrics|
    requires forall a, b :: 0 <= a < b < |metrics| ==> metrics[a].key != metrics[b].key
    ensures metrics[j].key in FileMap(file, metrics)
    ensures FileMap(file, metrics)[metrics[j].key] == ToMetricsValue(metrics[j].analyze(file))
  {
    RecordMetricsContents(map[], file, metrics);
    assert LastWithItsKey(metrics, j);
  }

  /** With no files and no metrics the report is an empty analysis named after the root. */
  lemma EmptyRootAnalysis(root: Path)
    requires FileName(root).Some?
    ensures InternalAnalyseRoot(root, [], []) == Some(RootAnalysis(FileName(root).value, map[], []))
  {
  }

  /* ---------------------------------------------------------------- */
  /* Which entries are analysed, and under which key                   */

  /**
   * `can_file_be_analysed`, on the text of a path: an entry is skipped when its components
   * end without a file name or its file name is a dot file.
   */
  function CanFileBeAnalysed(item: string): (r: bool)
    ensures r <==> FileName(Parse(item)).Some? && !IsPrefix(".", FileName(Parse(item)).value)
  {
    match FileName(Parse(item))
    case None => false
    case Some(name) => !IsPrefix(".", name)
  }

  /**
   * `extract_analysed_item_key`: the file name, or, when the path has none, the whole text
   * the path was given as (`as_os_str`), not its components.
   */
  function ExtractAnalysedItemKey(item: string): (r: string)
    ensures FileName(Parse(item)).Some? ==> r == FileName(Parse(item)).value
    ensures FileName(Parse(item)).None? ==> r == item
  {
    match FileName(Parse(item))
    case Some(name) => name
    case None => item
  }

  /**
   * For the text of a path of plain names, an entry is analysed exactly when its last name
   * does not start with a dot, and its key is that last name, which holds no separator.
   */
  lemma PlainEntries(item: Path)
    requires IsPlain(item) && item != []
    ensures CanFileBeAnalysed(Display(item)) <==> item[|item| - 1][0] != '.'
    ensures ExtractAnalysedItemKey(Display(item)) == item[|item| - 1]
    ensures '/' !in ExtractAnalysedItemKey(Display(item))
  {
    var last := item[|item| - 1];
    assert IsNormal(last);
    ParseDisplayPlain(item);
    NameIsNotSpecial(last);
    NamedEntry(Display(item), last);
  }

  /** Text whose file name is `name` is keyed by it and analysed unless it starts with a dot. */
  lemma NamedEntry(item: string, name: string)
    requires FileName(Parse(item)) == Some(name) && name != ""
    ensures CanFileBeAnalysed(item) <==> name[0] != '.'
    ensures ExtractAnalysedItemKey(item) == name
  {
  }

  /**
   * An entry pushed onto any folder text under a plain name is keyed by that name and
   * analysed exactly when the name does not start with a dot.
   */
  lemma PushedEntries(folder: string, name: string)
    requires IsNormal(name)
    ensures CanFileBeAnalysed(Push(folder, name)) <==> name[0] != '.'
    ensures ExtractAnalysedItemKey(Push(folder, name)) == name
  {
    FileNameOfPush(folder, name);
    NamedEntry(Push(folder, name), name);
  }

  /**
   * Text whose components end in the root, "." or ".." is never analysed and is keyed by
   * the text itself, exactly as it was given.
   */
  lemma UnnamedEntries(item: string)
    requires var p := Parse(item); p != [] && p[|p| - 1] in {RootDir, CurDir, ParentDir}
    ensures !CanFileBeAnalysed(item)
    ensures ExtractAnalysedItemKey(item) == item
  {
  }

  /** A root typed as "./", ".//", "../" or "/" keeps that text as its key, separators and all. */
  lemma UnnamedRootKeys()
    ensures ExtractAnalysedItemKey("./") == "./"
    ensures ExtractAnalysedItemKey(".//") == ".//"
    ensures ExtractAnalysedItemKey("../") == "../"
    ensures ExtractAnalysedItemKey("/") == "/"
    ensures ExtractAnalysedItemKey("") == ""
  {
    ParseUnnamed();
    UnnamedEntries("./");
    UnnamedEntries(".//");
    UnnamedEntries("../");
    UnnamedEntries("/");
  }

  /* ---------------------------------------------------------------- */
  /* The metrics `analyse_folder` assembles                            */

  /** The two folder metrics: both hold the lines-count summary of the entries, as a `u32`. */
  function FolderMetrics(content: seq<Analysis>): (r: MetricsMap)
    ensures r.Keys == {LineCount.Key, "social_complexity"}
  {
    var summary := Score(LineCount.SummaryLinesCountMetric(content) % U32Modulus);
    map[LineCount.Key := summary, "social_complexity" := summary]
  }

  /** The folder record `analyse_folder` returns for already analysed entries. */
  function FolderOf(item: string, content: seq<Analysis>): (r: Analysis)
    ensures r.FolderAnalysis? && r.folderContent == content
    ensures r.folderKey == ExtractAnalysedItemKey(item)
  {
    FolderAnalysis(ExtractAnalysedItemKey(item), FolderMetrics(content), content)
  }

  /**
   * A folder's "lines_count" is the sum of the lines counts its direct entries store, kept
   * modulo 2^32, and its "social_complexity" is that same number.
   */
  lemma FolderMetricsAreLineTotals(item: string, content: seq<Analysis>)
    ensures var ms := FolderOf(item, content).metrics;
      && ms[LineCount.Key] == Score(LineCount.TotalContribution(content) % U32Modulus)
      && ms["social_complexity"] == ms[LineCount.Key]
  {
    LineCount.SummaryIsTotalContribution(content);
  }
}
