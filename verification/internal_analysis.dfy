/**
 * `do_internal_analysis` of `analysis_module/analysis.rs`: every discovered file is analysed
 * with every metric, its path is rebased on the root folder's own name, the one-branch trees
 * of the files are merged into the root's tree one after the other, and the merged tree is
 * reported with each metric value reduced to its score.
 */
module InternalAnalysis {
  import opened Wrappers
  import opened Text
  import opened Paths
  import opened MetricTypes
  import opened MetricValues
  import opened AnalysisTree
  import LinesCount

  /** `IMetric::analyse`: a metric produces a value for a file, or nothing. */
  type Metric = Path -> Option<MetricValue>

  /* ---------------------------------------------------------------- */
  /* Analysing the files                                               */

  /** `get_file_metrics_value`: the values the metrics produce for one file, in metric order. */
  function FileMetricsValue(file: Path, metrics: seq<Metric>): (r: seq<MetricValue>)
    ensures |r| <= |metrics|
    ensures forall m :: m in r ==> exists i :: 0 <= i < |metrics| && metrics[i](file) == Some(m)
  {
    if metrics == [] then []
    else
      var rest := FileMetricsValue(file, metrics[1..]);
      assert forall m :: m in rest ==> exists i :: 1 <= i < |metrics| && metrics[i](file) == Some(m) by {
        forall m | m in rest ensures exists i :: 1 <= i < |metrics| && metrics[i](file) == Some(m) {
          var i :| 0 <= i < |metrics[1..]| && metrics[1..][i](file) == Some(m);
          assert metrics[i + 1](file) == Some(m);
        }
      }
      match metrics[0](file)
      case Some(m) => [m] + rest
      case None => rest
  }

  /** A metric that produces a value for every file contributes exactly that value. */
  lemma {:induction false} EveryMetricAnswers(file: Path, metrics: seq<Metric>)
    requires forall i :: 0 <= i < |metrics| ==> metrics[i](file).Some?
    ensures |FileMetricsValue(file, metrics)| == |metrics|
    ensures forall i :: 0 <= i < |metrics| ==> FileMetricsValue(file, metrics)[i] == metrics[i](file).value
  {
    if metrics != [] {
      EveryMetricAnswers(file, metrics[1..]);
    }
  }

  /** `analyse_all_files`: one file analysis per discovered file, in discovery order. */
  function AnalyseAllFiles(files: seq<Path>, metrics: seq<Metric>): (r: seq<FileAnalysis>)
    ensures |r| == |files|
    ensures forall i :: 0 <= i < |files| ==> r[i].path == files[i]
  {
    seq(|files|, i requires 0 <= i < |files| =>
      FileAnalysis(files[i], FileMetricsValue(files[i], metrics)))
  }

  /* ---------------------------------------------------------------- */
  /* Rebasing the paths on the root's name                             */

  /** The root's last name (`file_name().unwrap_or("")`). */
  function RootFileName(root: Path): string {
    match FileName(root)
    case Some(name) => name
    case None => ""
  }

  /**
   * One file of `keep_only_last_root_directory_in_analyses_file_names`. The root is the text
   * it was given as (`PathBuf::from(text).to_string_lossy()` is that text again), and the test
   * is on text: when the file's path, as text, starts with the root's text, that part is
   * replaced by the root's last name and the result read back as a path; otherwise the file
   * is dropped. A root typed with a trailing '/' therefore glues its name to what follows:
   * see `RebaseTrailingSlashRoot`.
   */
  function Rebase(fa: FileAnalysis, root: string): (r: Option<FileAnalysis>)
    ensures r.Some? <==> IsPrefix(root, Display(fa.path))
    ensures r.Some? ==> r.value.metrics == fa.metrics
  {
    match StripPrefix(Display(fa.path), root)
    case Some(rest) => Some(FileAnalysis(Parse(RootFileName(Parse(root)) + rest), fa.metrics))
    case None => None
  }

  /** `keep_only_last_root_directory_in_analyses_file_names`. */
  function KeepOnlyLastRootDirectory(fas: seq<FileAnalysis>, root: string): (r: seq<FileAnalysis>)
    ensures |r| <= |fas|
  {
    if fas == [] then []
    else
      (match Rebase(fas[0], root) case Some(fa) => [fa] case None => [])
        + KeepOnlyLastRootDirectory(fas[1..], root)
  }

  /** The answer of the root test for each file, in file order. */
  function RebaseAll(fas: seq<FileAnalysis>, root: string): (r: seq<Option<FileAnalysis>>)
    ensures |r| == |fas| && forall i :: 0 <= i < |fas| ==> r[i] == Rebase(fas[i], root)
  {
    seq(|fas|, i requires 0 <= i < |fas| => Rebase(fas[i], root))
  }

  /** The present values of a sequence of options, in order (`filter_map`). */
  function Present(os: seq<Option<FileAnalysis>>): seq<FileAnalysis> {
    if os == [] then []
    else (match os[0] case Some(x) => [x] case None => []) + Present(os[1..])
  }

  /**
   * `idx` lists, in increasing order, exactly the positions of the present values of `os`,
   * and `r` holds those values in that order.
   */
  predicate Selection(idx: seq<nat>, os: seq<Option<FileAnalysis>>, r: seq<FileAnalysis>) {
    && |idx| == |r|
    && (forall j :: 0 <= j < |idx| ==> idx[j] < |os| && os[idx[j]] == Some(r[j]))
    && (forall j, k :: 0 <= j < k < |idx| ==> idx[j] < idx[k])
    && (forall i :: 0 <= i < |os| && os[i].Some? ==> i in idx)
  }

  /**
   * `filter_map` keeps the order: the result is the rebased form of every file that passes
   * the root test, in the order of the files, and nothing else.
   */
  lemma KeepOnlyLastRootDirectorySelects(fas: seq<FileAnalysis>, root: string)
    ensures exists idx :: Selection(idx, RebaseAll(fas, root), KeepOnlyLastRootDirectory(fas, root))
  {
    KeepIsPresentRebased(fas, root);
    PresentSelects(RebaseAll(fas, root));
  }

  lemma {:induction false} KeepIsPresentRebased(fas: seq<FileAnalysis>, root: string)
    ensures KeepOnlyLastRootDirectory(fas, root) == Present(RebaseAll(fas, root))
  {
    if fas != [] {
      KeepIsPresentRebased(fas[1..], root);
      assert RebaseAll(fas, root)[1..] == RebaseAll(fas[1..], root);
    }
  }

  lemma {:induction false} PresentSelects(os: seq<Option<FileAnalysis>>)
    ensures exists idx :: Selection(idx, os, Present(os))
  {
    if os == [] {
      assert Present(os) == [];
      assert Selection([], os, Present(os));
    } else {
      PresentSelects(os[1..]);
      var below :| Selection(below, os[1..], Present(os[1..]));
      var idx := SelectionStep(os, below);
      assert Selection(idx, os, Present(os));
    }
  }

  lemma SelectionStep(os: seq<Option<FileAnalysis>>, below: seq<nat>) returns (idx: seq<nat>)
    requires os != []
    requires Selection(below, os[1..], Present(os[1..]))
    ensures Selection(idx, os, Present(os))
  {
    var rest := Present(os[1..]);
    ShiftedSelection(os, below, rest);
    if os[0].Some? {
      idx := [0] + Shift(below);
      assert Present(os) == [os[0].value] + rest;
      SelectionPrepend(os, Shift(below), rest);
    } else {
      idx := Shift(below);
      assert Present(os) == rest;
    }
  }

  lemma SelectionPrepend(os: seq<Option<FileAnalysis>>, shifted: seq<nat>, rest: seq<FileAnalysis>)
    requires os != [] && os[0].Some? && |shifted| == |rest|
    requires forall j :: 0 <= j < |shifted| ==> 1 <= shifted[j] < |os| && os[shifted[j]] == Some(rest[j])
    requires forall j, k :: 0 <= j < k < |shifted| ==> shifted[j] < shifted[k]
    requires forall i :: 1 <= i < |os| && os[i].Some? ==> i in shifted
    ensures Selection([0] + shifted, os, [os[0].value] + rest)
  {
    PrependPositions(os, shifted, rest);
    PrependIncreasing(shifted);
    PrependCovers(os, shifted);
  }

  lemma PrependPositions(os: seq<Option<FileAnalysis>>, shifted: seq<nat>, rest: seq<FileAnalysis>)
    requires os != [] && os[0].Some? && |shifted| == |rest|
    requires forall j :: 0 <= j < |shifted| ==> shifted[j] < |os| && os[shifted[j]] == Some(rest[j])
    ensures var idx, r := [0] + shifted, [os[0].value] + rest;
      forall j :: 0 <= j < |idx| ==> idx[j] < |os| && os[idx[j]] == Some(r[j])
  {
    var idx, r := [0] + shifted, [os[0].value] + rest;
    forall j | 0 <= j < |idx| ensures idx[j] < |os| && os[idx[j]] == Some(r[j]) {
      if j > 0 { assert idx[j] == shifted[j - 1] && r[j] == rest[j - 1]; }
    }
  }

  lemma PrependIncreasing(shifted: seq<nat>)
    requires forall j :: 0 <= j < |shifted| ==> 1 <= shifted[j]
    requires forall j, k :: 0 <= j < k < |shifted| ==> shifted[j] < shifted[k]
    ensures var idx := [0] + shifted; forall j, k :: 0 <= j < k < |idx| ==> idx[j] < idx[k]
  {
    var idx := [0] + shifted;
    forall j, k | 0 <= j < k < |idx| ensures idx[j] < idx[k] {
      if j > 0 { assert idx[j] == shifted[j - 1]; }
      assert idx[k] == shifted[k - 1];
    }
  }

  lemma PrependCovers(os: seq<Option<FileAnalysis>>, shifted: seq<nat>)
    requires forall i :: 1 <= i < |os| && os[i].Some? ==> i in shifted
    ensures forall i :: 0 <= i < |os| && os[i].Some? ==> i in [0] + shifted
  {
    forall i | 0 <= i < |os| && os[i].Some? ensures i in [0] + shifted {
      if i > 0 {
        var j :| 0 <= j < |shifted| && shifted[j] == i;
        assert ([0] + shifted)[j + 1] == i;
      }
    }
  }

  /** Positions in the options after the first, as positions in all of them. */
  function Shift(below: seq<nat>): (r: seq<nat>)
    ensures |r| == |below| && forall j :: 0 <= j < |below| ==> r[j] == below[j] + 1
  {
    seq(|below|, j requires 0 <= j < |below| => below[j] + 1)
  }

  lemma ShiftedSelection(os: seq<Option<FileAnalysis>>, below: seq<nat>, rest: seq<FileAnalysis>)
    requires os != []
    requires Selection(below, os[1..], rest)
    ensures var shifted := Shift(below);
      && (forall j :: 0 <= j < |shifted| ==> 1 <= shifted[j] < |os| && os[shifted[j]] == Some(rest[j]))
      && (forall j, k :: 0 <= j < k < |shifted| ==> shifted[j] < shifted[k])
      && (forall i :: 1 <= i < |os| && os[i].Some? ==> i in shifted)
  {
    var shifted := Shift(below);
    forall j | 0 <= j < |shifted| ensures 1 <= shifted[j] < |os| && os[shifted[j]] == Some(rest[j]) {
      assert os[shifted[j]] == os[1..][below[j]];
    }
    forall i | 1 <= i < |os| && os[i].Some? ensures i in shifted {
      assert os[1..][i - 1] == os[i];
      var j :| 0 <= j < |below| && below[j] == i - 1;
      assert shifted[j] == i;
    }
  }

  lemma StripPrefixOfAppend(p: string, s: string)
    ensures StripPrefix(p + s, p) == Some(s)
  {
    assert (p + s)[..|p|] == p;
    assert (p + s)[|p|..] == s;
  }

  lemma PlainAppend(a: Path, b: Path)
    requires IsPlain(a) && IsPlain(b)
    ensures IsPlain(a + b)
  {
    forall i | 0 <= i < |a + b| ensures IsNormal((a + b)[i]) {
      if i >= |a| { assert (a + b)[i] == b[i - |a|]; } else { assert (a + b)[i] == a[i]; }
    }
  }

  /** The text a file below the root is left with once the root's text is stripped. */
  lemma DisplayBelowRoot(root: Path, below: Path)
    requires IsPlain(root) && |root| >= 1
    requires IsPlain(below) && |below| >= 1
    ensures StripPrefix(Display(root + below), Display(root)) == Some("/" + Display(below))
  {
    DisplayAppend(root, below);
    ConcatAssoc(Display(root), "/", Display(below));
    StripPrefixOfAppend(Display(root), "/" + Display(below));
  }

  /** The rebased text reads back as the root's name followed by the path below the root. */
  lemma ParseRebased(name: string, below: Path)
    requires IsNormal(name)
    requires IsPlain(below) && |below| >= 1
    ensures Parse(name + ("/" + Display(below))) == [name] + below
  {
    DisplayOne(name);
    DisplayAppend([name], below);
    PlainAppend([name], below);
    assert Display([name] + below) == name + ("/" + Display(below));
    ParseDisplay([name] + below);
  }

  /**
   * A file below a root of plain names keeps its path below the root, behind the root's
   * last name: `a/b/root/x/y` seen from `a/b/root` becomes `root/x/y`.
   */
  lemma RebaseBelowRoot(root: Path, below: Path, ms: seq<MetricValue>)
    requires IsPlain(root) && |root| >= 1
    requires IsPlain(below) && |below| >= 1
    ensures Rebase(FileAnalysis(root + below, ms), Display(root))
      == Some(FileAnalysis([root[|root| - 1]] + below, ms))
  {
    var name := root[|root| - 1];
    DisplayBelowRoot(root, below);
    ParseDisplayPlain(root);
    assert RootFileName(root) == name;
    ParseRebased(name, below);
  }

  /**
   * The root is compared as text, not component by component: a file of a sibling folder
   * whose name extends the root's name is kept, under that sibling's name.
   */
  lemma RebaseSiblingFolder(ms: seq<MetricValue>)
    ensures Rebase(FileAnalysis(["root2", "f"], ms), "root")
      == Some(FileAnalysis(["root2", "f"], ms))
  {
    assert Display(["root2", "f"]) == "root2/f";
    assert Display(["root"]) == "root";
    ParseDisplay(["root"]);
    assert StripPrefix("root2/f", "root") == Some("2/f");
    assert RootFileName(["root"]) == "root";
    ParseDisplay(["root2", "f"]);
  }

  /**
   * The test is on the root's text as typed: with a trailing '/', the root's text also
   * swallows the separator after it, so the root's name is glued to the next component.
   */
  lemma RebaseTrailingSlashRoot(root: Path, below: Path, ms: seq<MetricValue>)
    requires IsPlain(root) && |root| >= 1
    requires IsPlain(below) && |below| >= 1
    ensures Rebase(FileAnalysis(root + below, ms), Display(root) + "/")
      == Some(FileAnalysis([root[|root| - 1] + below[0]] + below[1..], ms))
  {
    var name := root[|root| - 1];
    var g := [name + below[0]] + below[1..];
    DisplayAppend(root, below);
    StripPrefixOfAppend(Display(root) + "/", Display(below));
    ParseTrailingSlash(root);
    assert RootFileName(root) == name;
    assert Display(below) == Join(below, '/');
    JoinGlueFirst(name, below);
    NormalGlue(name, below[0]);
    assert IsPlain(g) by {
      forall i | 0 <= i < |g| ensures IsNormal(g[i]) {
        if i > 0 { assert g[i] == below[i]; }
      }
    }
    assert Display(g) == Join(g, '/');
    ParseDisplayPlain(g);
  }

  lemma NormalGlue(a: string, b: string)
    requires IsNormal(a) && IsNormal(b)
    ensures IsNormal(a + b)
  {
    assert forall k :: 0 <= k < |a + b| ==> (a + b)[k] == if k < |a| then a[k] else b[k - |a|];
  }

  /** The root `src/`, typed with a trailing '/', turns `src/a.rs` into the single name `srca.rs`. */
  lemma RebaseSrcWithTrailingSlash(ms: seq<MetricValue>)
    ensures Rebase(FileAnalysis(["src", "a.rs"], ms), "src/") == Some(FileAnalysis(["srca.rs"], ms))
  {
    var root, below := ["src"], ["a.rs"];
    DisplayOne("src");
    SrcTexts();
    assert root + below == ["src", "a.rs"];
    assert Display(root) + "/" == "src/";
    RebaseTrailingSlashRoot(root, below, ms);
    assert root[|root| - 1] + below[0] == "srca.rs";
    assert [root[|root| - 1] + below[0]] + below[1..] == ["srca.rs"];
  }

  lemma SrcTexts()
    ensures "src" + "/" == "src/" && "src" + "a.rs" == "srca.rs"
  {
    var slash, glued := "src" + "/", "src" + "a.rs";
    assert |slash| == 4 && forall k :: 0 <= k < 4 ==> slash[k] == "src/"[k];
    assert |glued| == 7 && forall k :: 0 <= k < 7 ==> glued[k] == "srca.rs"[k];
  }

  /** Files that are all below the root are all kept, in order, each rebased. */
  lemma {:induction false} KeepAllBelowRoot(fas: seq<FileAnalysis>, root: Path)
    requires IsPlain(root) && |root| >= 1
    requires forall i :: 0 <= i < |fas| ==>
      |fas[i].path| > |root| && fas[i].path[..|root|] == root && IsPlain(fas[i].path)
    ensures var r := KeepOnlyLastRootDirectory(fas, Display(root));
      && |r| == |fas|
      && forall i :: 0 <= i < |fas| ==>
           r[i] == FileAnalysis([root[|root| - 1]] + fas[i].path[|root|..], fas[i].metrics)
  {
    if fas != [] {
      RebaseFileBelowRoot(fas[0], root);
      KeepAllBelowRoot(fas[1..], root);
    }
  }

  lemma RebaseFileBelowRoot(fa: FileAnalysis, root: Path)
    requires IsPlain(root) && |root| >= 1
    requires |fa.path| > |root| && fa.path[..|root|] == root && IsPlain(fa.path)
    ensures Rebase(fa, Display(root)) == Some(FileAnalysis([root[|root| - 1]] + fa.path[|root|..], fa.metrics))
  {
    var p := fa.path;
    assert p == root + p[|root|..];
    assert IsPlain(p[|root|..]) by {
      forall i | 0 <= i < |p[|root|..]| ensures IsNormal(p[|root|..][i]) {
        assert p[|root|..][i] == p[|root| + i];
      }
    }
    RebaseBelowRoot(root, p[|root|..], fa.metrics);
    assert fa == FileAnalysis(root + p[|root|..], fa.metrics);
  }

  /* ---------------------------------------------------------------- */
  /* Building the tree                                                 */

  /** `build_hierarchical_analysis_structure`: each file's branch merged into the tree in turn. */
  function BuildHierarchy(root: Tree, fas: seq<FileAnalysis>): (r: Tree)
    ensures r.fileName == root.fileName
    ensures fas != [] ==> r.content.Folder?
  {
    if fas == [] then root
    else Combine(BuildHierarchy(root, fas[..|fas| - 1]), NewAnalysis(fas[|fas| - 1]))
  }

  /** The branch built for any file is well formed. */
  lemma {:induction false} NewAnalysisWellFormed(fa: FileAnalysis)
    ensures WellFormedTree(NewAnalysis(fa))
    decreases |fa.path|
  {
    if |fa.path| >= 2 {
      NewAnalysisWellFormed(FileAnalysis(fa.path[1..], fa.metrics));
    }
  }

  /** Building from a well-formed root gives a well-formed tree. */
  lemma {:induction false} BuildHierarchyWellFormed(root: Tree, fas: seq<FileAnalysis>)
    requires WellFormedTree(root)
    ensures WellFormedTree(BuildHierarchy(root, fas))
  {
    if fas != [] {
      BuildHierarchyWellFormed(root, fas[..|fas| - 1]);
      NewAnalysisWellFormed(fas[|fas| - 1]);
      CombineWellFormed(BuildHierarchy(root, fas[..|fas| - 1]), NewAnalysis(fas[|fas| - 1]));
    }
  }

  /** The name a file's branch is listed under in the root folder, if it reaches below it. */
  function TopEntryKey(fa: FileAnalysis): Option<string> {
    var p := fa.path;
    if |p| >= 3 then Some(p[1])
    else if |p| == 2 && FileName(p).Some? then Some(p[1])
    else None
  }

  lemma TopEntryKeyOfBranch(fa: FileAnalysis)
    ensures var c := NewAnalysis(fa).content;
      && Sorted(EntriesOf(c))
      && KeySet(EntriesOf(c)) == match TopEntryKey(fa) case Some(k) => {k} case None => {}
  {
    var p := fa.path;
    var below := FileAnalysis(if |p| >= 1 then p[1..] else [], fa.metrics);
    if |p| >= 3 {
      assert TopParent(p[1..]) == Some([p[1]]);
      DisplayOne(p[1]);
      assert FolderContentOneLevelBelow(fa) == Folder([Entry(p[1], NewAnalysis(below))]);
      SingleEntry(Entry(p[1], NewAnalysis(below)));
    } else if |p| == 2 {
      assert TopParent(p[1..]) == None;
      if FileName(p).Some? {
        assert FolderContentOneLevelBelow(fa) == Folder([Entry(p[1], NewAnalysis(below))]);
        SingleEntry(Entry(p[1], NewAnalysis(below)));
      } else {
        assert FolderContentOneLevelBelow(fa) == Leaf;
      }
    } else {
      assert TopParent(p) == None;
    }
  }

  lemma SingleEntry(e: Entry)
    ensures Sorted([e]) && KeySet([e]) == {e.key}
  {
    assert [e][0] == e;
  }

  /** The names the files' branches add to the root folder. */
  function TopKeys(fas: seq<FileAnalysis>): (r: set<string>)
    ensures forall k :: k in r <==> exists i :: 0 <= i < |fas| && TopEntryKey(fas[i]) == Some(k)
  {
    if fas == [] then {}
    else
      var init := fas[..|fas| - 1];
      var r := TopKeys(init) + (match TopEntryKey(fas[|fas| - 1]) case Some(k) => {k} case None => {});
      assert forall i :: 0 <= i < |init| ==> init[i] == fas[i];
      r
  }

  /**
   * The root folder of the built tree lists exactly the entries it started with plus the
   * second component of every file path that reaches below it.
   */
  lemma {:induction false} BuildHierarchyTopKeys(root: Tree, fas: seq<FileAnalysis>)
    requires root.content.Folder? && Sorted(root.content.entries)
    ensures var r := BuildHierarchy(root, fas);
      && r.content.Folder?
      && KeySet(r.content.entries) == KeySet(root.content.entries) + TopKeys(fas)
  {
    if fas != [] {
      var init := fas[..|fas| - 1];
      var last := fas[|fas| - 1];
      BuildHierarchyTopKeys(root, init);
      var acc := BuildHierarchy(root, init);
      TopEntryKeyOfBranch(last);
      CombineFolders(acc, NewAnalysis(last));
    }
  }

  /** The lines-count values of the files, in order, when each file has only that metric. */
  predicate OnlyLinesCount(fas: seq<FileAnalysis>, counts: seq<LinesCount.LineCount>) {
    |fas| == |counts| &&
    forall i :: 0 <= i < |fas| ==> fas[i].metrics == [LinesCount(counts[i])]
  }

  lemma {:induction false} CombineMetricsFromNothing(ms: seq<MetricValue>)
    ensures CombineMetrics([], ms) == ms
  {
    OnlyInOtherOfNothing(ms);
  }

  lemma {:induction false} OnlyInOtherOfNothing(ms: seq<MetricValue>)
    ensures OnlyInOther(ms, []) == ms
  {
    if ms != [] {
      OnlyInOtherOfNothing(ms[1..]);
      assert ms == [ms[0]] + ms[1..];
    }
  }

  lemma CombineLinesCounts(a: LinesCount.LineCount, b: LinesCount.LineCount)
    ensures CombineMetrics([LinesCount(a)], [LinesCount(b)]) == [LinesCount(LinesCount.Combine(a, b))]
  {
    assert MetricKeys([LinesCount(a)])[0] == Key(LinesCount(b));
    assert OnlyInOther([LinesCount(b)], [LinesCount(a)])
      == [] + OnlyInOther([LinesCount(b)][1..], [LinesCount(a)]);
  }

  /**
   * With one lines-count metric, the root of the built tree carries the aggregate of all the
   * files' counts.
   */
  lemma {:induction false} BuildHierarchyRootLinesCount(
    root: Tree, fas: seq<FileAnalysis>, counts: seq<LinesCount.LineCount>)
    requires root.metrics == [] && |fas| >= 1
    requires OnlyLinesCount(fas, counts)
    ensures BuildHierarchy(root, fas).metrics == [LinesCount(LinesCount.CombineAll(counts))]
  {
    var n := |fas|;
    if n == 1 {
      RootLinesCountOfOne(root, fas, counts);
    } else {
      OnlyLinesCountPrefix(fas, counts);
      BuildHierarchyRootLinesCount(root, fas[..n - 1], counts[..n - 1]);
      BuildHierarchyMetricsOfLast(root, fas);
      LinesCountStep(BuildHierarchy(root, fas[..n - 1]).metrics, fas, counts);
    }
  }

  lemma OnlyLinesCountPrefix(fas: seq<FileAnalysis>, counts: seq<LinesCount.LineCount>)
    requires OnlyLinesCount(fas, counts) && |fas| >= 1
    ensures OnlyLinesCount(fas[..|fas| - 1], counts[..|fas| - 1])
  {
  }

  lemma RootLinesCountOfOne(root: Tree, fas: seq<FileAnalysis>, counts: seq<LinesCount.LineCount>)
    requires root.metrics == [] && |fas| == 1
    requires OnlyLinesCount(fas, counts)
    ensures BuildHierarchy(root, fas).metrics == [LinesCount(LinesCount.CombineAll(counts))]
  {
    assert fas[..0] == [];
    BuildHierarchyMetricsOfLast(root, fas);
    CombineMetricsFromNothing(fas[0].metrics);
  }

  /** One more file's count is aggregated into the root's. */
  lemma LinesCountStep(before: seq<MetricValue>, fas: seq<FileAnalysis>, counts: seq<LinesCount.LineCount>)
    requires OnlyLinesCount(fas, counts) && |fas| >= 2
    requires before == [LinesCount(LinesCount.CombineAll(counts[..|fas| - 1]))]
    ensures CombineMetrics(before, fas[|fas| - 1].metrics) == [LinesCount(LinesCount.CombineAll(counts))]
  {
    var n := |fas|;
    assert fas[n - 1].metrics == [LinesCount(counts[n - 1])];
    CombineLinesCounts(LinesCount.CombineAll(counts[..n - 1]), counts[n - 1]);
  }

  /**
   * With one lines-count metric, the root's count is the sum of the counts that succeeded;
   * it is an error only when every file's count failed.
   */
  lemma RootLinesCountIsSum(root: Tree, fas: seq<FileAnalysis>, counts: seq<LinesCount.LineCount>)
    requires root.metrics == [] && |fas| >= 1
    requires OnlyLinesCount(fas, counts)
    ensures LinesCount.AnyOk(counts) ==>
      BuildHierarchy(root, fas).metrics == [LinesCount(Ok(LinesCount.SumOk(counts)))]
    ensures !LinesCount.AnyOk(counts) ==>
      exists e :: BuildHierarchy(root, fas).metrics == [LinesCount(Err(e))]
  {
    BuildHierarchyRootLinesCount(root, fas, counts);
    LinesCount.CombineAllIsSumOfSuccesses(counts);
  }

  /** Every file carries exactly one fake value, all under the key `k`. */
  predicate OnlyFake(fas: seq<FileAnalysis>, k: string, values: seq<nat>) {
    |fas| == |values| &&
    forall i :: 0 <= i < |fas| ==> fas[i].metrics == [Fake(k, values[i])]
  }

  /** The sum of a list of numbers, last one added last. */
  function Total(values: seq<nat>): nat {
    if values == [] then 0 else Total(values[..|values| - 1]) + values[|values| - 1]
  }

  lemma CombineFakeValues(k: string, a: nat, b: nat)
    ensures CombineMetrics([Fake(k, a)], [Fake(k, b)]) == [Fake(k, a + b)]
  {
    assert MetricKeys([Fake(k, a)])[0] == Key(Fake(k, b));
    assert OnlyInOther([Fake(k, b)], [Fake(k, a)])
      == [] + OnlyInOther([Fake(k, b)][1..], [Fake(k, a)]);
  }

  /**
   * With one fake metric, the root of the built tree carries the sum of all the files'
   * values: the folder totals the analysis tests expect.
   */
  lemma {:induction false} BuildHierarchyRootFake(
    root: Tree, fas: seq<FileAnalysis>, k: string, values: seq<nat>)
    requires root.metrics == [] && |fas| >= 1
    requires OnlyFake(fas, k, values)
    ensures BuildHierarchy(root, fas).metrics == [Fake(k, Total(values))]
  {
    var n := |fas|;
    if n == 1 {
      RootFakeOfOne(root, fas, k, values);
    } else {
      OnlyFakePrefix(fas, k, values);
      BuildHierarchyRootFake(root, fas[..n - 1], k, values[..n - 1]);
      BuildHierarchyMetricsOfLast(root, fas);
      FakeTotalStep(BuildHierarchy(root, fas[..n - 1]).metrics, fas, k, values);
    }
  }

  lemma OnlyFakePrefix(fas: seq<FileAnalysis>, k: string, values: seq<nat>)
    requires OnlyFake(fas, k, values) && |fas| >= 1
    ensures OnlyFake(fas[..|fas| - 1], k, values[..|fas| - 1])
  {
  }

  /** One more file adds its value to the root's fake total. */
  lemma FakeTotalStep(before: seq<MetricValue>, fas: seq<FileAnalysis>, k: string, values: seq<nat>)
    requires OnlyFake(fas, k, values) && |fas| >= 2
    requires before == [Fake(k, Total(values[..|fas| - 1]))]
    ensures CombineMetrics(before, fas[|fas| - 1].metrics) == [Fake(k, Total(values))]
  {
    var n := |fas|;
    assert fas[n - 1].metrics == [Fake(k, values[n - 1])];
    CombineFakeValues(k, Total(values[..n - 1]), values[n - 1]);
    TotalOfLast(values);
  }

  lemma TotalOfLast(values: seq<nat>)
    requires values != []
    ensures Total(values) == Total(values[..|values| - 1]) + values[|values| - 1]
  {
  }

  /** The root's metrics after the last file: the earlier root's combined with that file's branch. */
  lemma BuildHierarchyMetricsOfLast(root: Tree, fas: seq<FileAnalysis>)
    requires fas != []
    ensures BuildHierarchy(root, fas).metrics
      == CombineMetrics(BuildHierarchy(root, fas[..|fas| - 1]).metrics, fas[|fas| - 1].metrics)
  {
  }

  lemma RootFakeOfOne(root: Tree, fas: seq<FileAnalysis>, k: string, values: seq<nat>)
    requires root.metrics == [] && |fas| == 1
    requires OnlyFake(fas, k, values)
    ensures BuildHierarchy(root, fas).metrics == [Fake(k, Total(values))]
  {
    assert fas[..0] == [];
    assert BuildHierarchy(root, fas) == Combine(root, NewAnalysis(fas[0]));
    CombineMetricsFromNothing([Fake(k, values[0])]);
    assert Total(values) == values[0] by { assert values[..0] == []; }
  }

  /* ---------------------------------------------------------------- */
  /* The reported tree                                                 */

  /** `TopAnalysis`: the tree as reported, each metric value reduced to its score by key. */
  datatype TopAnalysis = TopAnalysis(
    fileName: string,
    metrics: map<string, Result<MetricScoreType, AnalysisError>>,
    content: TopContent)

  datatype TopContent = TopLeaf | TopFolder(entries: seq<TopEntry>)

  datatype TopEntry = TopEntry(key: string, analysis: TopAnalysis)

  /** Collecting `(get_key, get_score)` pairs into a map: a later value replaces an earlier one. */
  function Scores(ms: seq<MetricValue>): (r: map<string, Result<MetricScoreType, AnalysisError>>)
    ensures forall k :: k in r <==> k in MetricKeys(ms)
  {
    if ms == [] then map[]
    else
      var init := ms[..|ms| - 1];
      assert MetricKeys(ms) == MetricKeys(init) + [Key(ms[|ms| - 1])];
      Scores(init)[Key(ms[|ms| - 1]) := GetScore(ms[|ms| - 1])]
  }

  /** With no key repeated, each value's score is what the map holds under its key. */
  lemma {:induction false} ScoresOfUniqueKeys(ms: seq<MetricValue>)
    requires UniqueMetricKeys(ms)
    ensures forall i :: 0 <= i < |ms| ==> Scores(ms)[Key(ms[i])] == GetScore(ms[i])
  {
    if ms != [] {
      var init := ms[..|ms| - 1];
      var last := ms[|ms| - 1];
      assert UniqueMetricKeys(init);
      ScoresOfUniqueKeys(init);
      assert Scores(ms) == Scores(init)[Key(last) := GetScore(last)];
      forall i | 0 <= i < |init| ensures Scores(ms)[Key(ms[i])] == GetScore(ms[i]) {
        assert Key(ms[i]) != Key(last);
        assert init[i] == ms[i];
      }
    }
  }

  /** `build_top_analysis_structure`. */
  function BuildTop(t: Tree): (r: TopAnalysis)
    ensures r.fileName == t.fileName
    ensures forall k :: k in r.metrics <==> k in MetricKeys(t.metrics)
    ensures r.content.TopLeaf? <==> t.content.Leaf?
  {
    TopAnalysis(t.fileName, Scores(t.metrics),
      match t.content
      case Leaf => TopLeaf
      case Folder(es) =>
        TopFolder(seq(|es|, i requires 0 <= i < |es| => TopEntry(es[i].key, BuildTop(es[i].tree)))))
  }

  /** The reported folder lists the same keys, in the same order, as the tree's folder. */
  lemma BuildTopKeepsKeys(t: Tree)
    requires t.content.Folder?
    ensures var es := BuildTop(t).content.entries;
      && |es| == |t.content.entries|
      && forall i :: 0 <= i < |es| ==>
           es[i].key == t.content.entries[i].key
           && es[i].analysis == BuildTop(t.content.entries[i].tree)
  {
  }

  /* ---------------------------------------------------------------- */
  /* The whole analysis                                                */

  /** The root's own tree, named `name`, before any file is merged into it. */
  function RootTree(name: string): (r: Tree)
    ensures r.fileName == name && r.metrics == [] && r.content == Folder([])
  {
    Tree(name, [], Folder([]))
  }

  /**
   * `do_internal_analysis` for the root given as the text `root`, with the files the explorer
   * discovers given as `discovered`.
   */
  function DoInternalAnalysis(root: string, discovered: seq<Path>, metrics: seq<Metric>): (r: TopAnalysis)
    ensures r.fileName == RootFileName(Parse(root))
    ensures r.content.TopFolder?
  {
    var fas := KeepOnlyLastRootDirectory(AnalyseAllFiles(discovered, metrics), root);
    BuildTop(BuildHierarchy(RootTree(RootFileName(Parse(root))), fas))
  }

  /** With nothing discovered, the analysis is the root's name over an empty folder. */
  lemma NothingDiscovered(root: string, metrics: seq<Metric>)
    ensures DoInternalAnalysis(root, [], metrics) == TopAnalysis(RootFileName(Parse(root)), map[], TopFolder([]))
  {
  }

  /** The keys of a reported folder. */
  function TopEntryKeys(es: seq<TopEntry>): set<string> {
    set i | 0 <= i < |es| :: es[i].key
  }

  /** The components found at position `depth` of the paths long enough to have one. */
  function ComponentsAt(paths: seq<Path>, depth: nat): set<string> {
    set i | 0 <= i < |paths| && depth < |paths[i]| :: paths[i][depth]
  }

  lemma BuildTopFolderKeys(t: Tree)
    requires t.content.Folder?
    ensures TopEntryKeys(BuildTop(t).content.entries) == KeySet(t.content.entries)
  {
    BuildTopKeepsKeys(t);
  }

  /** Rebased files below the root add their next component below the root to its folder. */
  lemma TopKeysOfRebased(fas: seq<FileAnalysis>, root: Path, discovered: seq<Path>)
    requires IsPlain(root) && |root| >= 1
    requires |fas| == |discovered|
    requires forall i :: 0 <= i < |discovered| ==>
      |discovered[i]| > |root| && IsPlain(discovered[i])
      && fas[i].path == [root[|root| - 1]] + discovered[i][|root|..]
    ensures TopKeys(fas) == ComponentsAt(discovered, |root|)
  {
    forall i | 0 <= i < |fas| ensures TopEntryKey(fas[i]) == Some(discovered[i][|root|]) {
      RebasedTopKey(fas[i], root, discovered[i]);
    }
    forall k | k in ComponentsAt(discovered, |root|) ensures k in TopKeys(fas) {
      var i :| 0 <= i < |discovered| && |root| < |discovered[i]| && discovered[i][|root|] == k;
      assert TopEntryKey(fas[i]) == Some(k);
    }
  }

  lemma RebasedTopKey(fa: FileAnalysis, root: Path, file: Path)
    requires |root| >= 1
    requires |file| > |root| && IsPlain(file)
    requires fa.path == [root[|root| - 1]] + file[|root|..]
    ensures TopEntryKey(fa) == Some(file[|root|])
  {
    var p := fa.path;
    assert p[1] == file[|root|];
    assert p[|p| - 1] == file[|file| - 1];
    assert IsNormal(file[|file| - 1]);
  }

  /**
   * Every file below a root of plain names contributes its path's next component to the
   * root folder; a file directly in the root is listed under its own name.
   */
  lemma DiscoveredBelowRoot(root: Path, discovered: seq<Path>, metrics: seq<Metric>)
    requires IsPlain(root) && |root| >= 1
    requires forall i :: 0 <= i < |discovered| ==>
      |discovered[i]| > |root| && discovered[i][..|root|] == root && IsPlain(discovered[i])
    ensures TopEntryKeys(DoInternalAnalysis(Display(root), discovered, metrics).content.entries)
      == ComponentsAt(discovered, |root|)
  {
    var fas := AnalyseAllFiles(discovered, metrics);
    var rebased := KeepOnlyLastRootDirectory(fas, Display(root));
    var top := RootTree(RootFileName(Parse(Display(root))));
    KeepAllBelowRoot(fas, root);
    TopKeysOfRebased(rebased, root, discovered);
    var t := BuildHierarchy(top, rebased);
    BuildHierarchyTopKeys(top, rebased);
    BuildTopFolderKeys(t);
  }
}
