/**
 * The folder totals the analysis tests of `analysis_module/analysis.rs` expect, worked out on
 * the model: two files of one folder, each scored 1 by a fake metric, give the folder and the
 * root a score of 2.
 */
module AnalysisExamples {
  import opened Wrappers
  import opened Text
  import opened Paths
  import opened MetricTypes
  import opened MetricValues
  import opened AnalysisTree
  import opened InternalAnalysis

  /** `FakeMetric::new(value)`: a metric that gives every file the value `value`. */
  function FakeMetric(value: nat): Metric {
    _ => Some(FakeValue(value))
  }

  /** A reported analysis holding one fake score. */
  function FakeTop(name: string, k: string, v: nat, content: TopContent): TopAnalysis {
    TopAnalysis(name, map[k := Ok(Score(v))], content)
  }

  /** The branch built for `root/folder1/<name>`, and the folder inside it. */
  function OneFileFolder(name: string, ms: seq<MetricValue>): Tree {
    Tree("folder1", ms, Folder([Entry(name, Tree(name, ms, Leaf))]))
  }

  function OneFileBranch(root: string, name: string, ms: seq<MetricValue>): Tree {
    Tree(root, ms, Folder([Entry("folder1", OneFileFolder(name, ms))]))
  }

  /** The branch of a file two levels below the root: one folder holding one file. */
  lemma FileBranch(root: string, name: string, ms: seq<MetricValue>)
    requires IsNormal(root) && IsNormal(name)
    ensures NewAnalysis(FileAnalysis([root, "folder1", name], ms))
      == Tree(root, ms, Folder([Entry("folder1", Tree("folder1", ms, Folder([Entry(name, Tree(name, ms, Leaf))])))]))
  {
    DisplayOne(root);
    DisplayOne("folder1");
    DisplayOne(name);
    var leaf := FileAnalysis([name], ms);
    assert NewAnalysis(leaf) == Tree(name, ms, Leaf);
    var mid := FileAnalysis(["folder1", name], ms);
    assert RemoveTopParent(mid.path) == Some([name]);
    assert FileName(mid.path) == Some(name);
    assert FolderContentOneLevelBelow(mid) == Folder([Entry(name, NewAnalysis(leaf))]);
    assert NewAnalysis(mid) == Tree("folder1", ms, Folder([Entry(name, Tree(name, ms, Leaf))]));
    var top := FileAnalysis([root, "folder1", name], ms);
    assert RemoveTopParent(top.path) == Some(["folder1", name]);
    assert FolderContentOneLevelBelow(top) == Folder([Entry("folder1", NewAnalysis(mid))]);
  }

  /** Collecting one entry, or two entries already in key order, keeps them as they are. */
  lemma FromOne(e: Entry)
    ensures FromEntries([e]) == [e]
  {
    assert [e][1..] == [];
    assert InsertAll([], [e]) == InsertAll([e], []);
  }

  lemma FromTwo(e1: Entry, e2: Entry)
    requires Less(e1.key, e2.key)
    ensures FromEntries([e1, e2]) == [e1, e2]
  {
    assert [e1, e2][1..] == [e2];
    assert [e2][1..] == [];
    LessIrreflexive(e1.key);
    LessAsymmetric(e1.key, e2.key);
    assert Insert([e1], e2.key, e2.tree) == [e1] + Insert([], e2.key, e2.tree);
    assert InsertAll([], [e1, e2]) == InsertAll([e1], [e2]);
    assert InsertAll([e1], [e2]) == InsertAll([e1, e2], []);
  }

  lemma CombineFakes(k: string)
    ensures CombineMetrics([Fake(k, 1)], [Fake(k, 1)]) == [Fake(k, 2)]
  {
    assert OnlyInOther([Fake(k, 1)], [Fake(k, 1)]) == [] + OnlyInOther([], [Fake(k, 1)]);
  }

  /** The two one-file folders merge into one folder holding both files, in name order. */
  lemma MergeFolders(k: string)
    ensures Combine(OneFileFolder("file1", [Fake(k, 1)]), OneFileFolder("file2", [Fake(k, 1)]))
      == Tree("folder1", [Fake(k, 2)], Folder([Entry("file1", Tree("file1", [Fake(k, 1)], Leaf)),
                                               Entry("file2", Tree("file2", [Fake(k, 1)], Leaf))]))
  {
    var ms := [Fake(k, 1)];
    var a := OneFileFolder("file1", ms);
    var b := OneFileFolder("file2", ms);
    var e1 := Entry("file1", Tree("file1", ms, Leaf));
    var e2 := Entry("file2", Tree("file2", ms, Leaf));
    CombineFakes(k);
    assert Lookup([e2], "file1") == None;
    assert MergedEntries(a, b) == [e1];
    assert EntriesOnlyIn([e2], [e1]) == [e2];
    assert Less("file1", "file2");
    FromTwo(e1, e2);
  }

  /** The two branches share their folder, so it is merged and nothing else is added. */
  lemma MergeBranches(root: string, k: string)
    ensures Combine(OneFileBranch(root, "file1", [Fake(k, 1)]), OneFileBranch(root, "file2", [Fake(k, 1)]))
      == Tree(root, [Fake(k, 2)], Folder([Entry("folder1",
           Combine(OneFileFolder("file1", [Fake(k, 1)]), OneFileFolder("file2", [Fake(k, 1)])))]))
  {
    var ms := [Fake(k, 1)];
    CombineFakes(k);
    var m := Entry("folder1", Combine(OneFileFolder("file1", ms), OneFileFolder("file2", ms)));
    MergedBranchEntries(root, ms);
    SameKeyOnlyIn(Entry("folder1", OneFileFolder("file2", ms)), Entry("folder1", OneFileFolder("file1", ms)));
    FromOne(m);
  }

  lemma MergedBranchEntries(root: string, ms: seq<MetricValue>)
    ensures MergedEntries(OneFileBranch(root, "file1", ms), OneFileBranch(root, "file2", ms))
      == [Entry("folder1", Combine(OneFileFolder("file1", ms), OneFileFolder("file2", ms)))]
  {
    var e2 := Entry("folder1", OneFileFolder("file2", ms));
    assert Lookup([e2], "folder1") == Some(OneFileFolder("file2", ms));
  }

  lemma SameKeyOnlyIn(e2: Entry, e1: Entry)
    requires e1.key == e2.key
    ensures EntriesOnlyIn([e2], [e1]) == []
  {
    assert [e1][0].key == e1.key;
    assert e1.key in KeySet([e1]);
    assert [e2][1..] == [];
  }

  /** The first branch merged into the empty root is the branch itself. */
  lemma MergeIntoRoot(root: string, ms: seq<MetricValue>)
    requires IsNormal(root)
    ensures Combine(RootTree(root), OneFileBranch(root, "file1", ms)) == OneFileBranch(root, "file1", ms)
  {
    CombineMetricsFromNothing(ms);
    var e := Entry("folder1", OneFileFolder("file1", ms));
    assert EntriesOnlyIn([e], []) == [e];
    FromOne(e);
  }

  /** The tree built from the two files: the folder and the root both carry the fake value 2. */
  lemma TwoFakeFilesInOneFolder(root: string)
    requires IsNormal(root)
    ensures var k := FakeKey(1);
      var ms := [Fake(k, 1)];
      BuildHierarchy(RootTree(root), [FileAnalysis([root, "folder1", "file1"], ms), FileAnalysis([root, "folder1", "file2"], ms)])
      == Tree(root, [Fake(k, 2)], Folder([Entry("folder1",
           Tree("folder1", [Fake(k, 2)], Folder([Entry("file1", Tree("file1", ms, Leaf)),
                                                  Entry("file2", Tree("file2", ms, Leaf))])))]))
  {
    var k := FakeKey(1);
    var ms := [Fake(k, 1)];
    var fa1 := FileAnalysis([root, "folder1", "file1"], ms);
    var fa2 := FileAnalysis([root, "folder1", "file2"], ms);
    FileBranch(root, "file1", ms);
    FileBranch(root, "file2", ms);
    assert [fa1, fa2][..1] == [fa1];
    assert [fa1][..0] == [];
    MergeIntoRoot(root, ms);
    assert BuildHierarchy(RootTree(root), [fa1]) == OneFileBranch(root, "file1", ms);
    MergeBranches(root, k);
    MergeFolders(k);
  }

  lemma ScoresOfOne(m: MetricValue)
    ensures Scores([m]) == map[Key(m) := GetScore(m)]
  {
    assert [m][..0] == [];
  }

  lemma TopOfFake(name: string, k: string, v: nat, c: Content)
    ensures BuildTop(Tree(name, [Fake(k, v)], c)).metrics == map[k := Ok(Score(v))]
  {
    ScoresOfOne(Fake(k, v));
  }

  /** The tree reported: each node's fake value becomes its score. */
  lemma ReportTwoFiles(root: string, k: string)
    ensures BuildTop(Tree(root, [Fake(k, 2)], Folder([Entry("folder1",
           Tree("folder1", [Fake(k, 2)], Folder([Entry("file1", Tree("file1", [Fake(k, 1)], Leaf)),
                                                  Entry("file2", Tree("file2", [Fake(k, 1)], Leaf))])))])))
      == FakeTop(root, k, 2, TopFolder([TopEntry("folder1",
           FakeTop("folder1", k, 2, TopFolder([TopEntry("file1", FakeTop("file1", k, 1, TopLeaf)),
                                               TopEntry("file2", FakeTop("file2", k, 1, TopLeaf))])))]))
  {
    var l1 := Tree("file1", [Fake(k, 1)], Leaf);
    var l2 := Tree("file2", [Fake(k, 1)], Leaf);
    TopOfFake("file1", k, 1, Leaf);
    TopOfFake("file2", k, 1, Leaf);
    var f := Tree("folder1", [Fake(k, 2)], Folder([Entry("file1", l1), Entry("file2", l2)]));
    TopOfFake("folder1", k, 2, f.content);
    assert BuildTop(f) == FakeTop("folder1", k, 2, TopFolder([TopEntry("file1", FakeTop("file1", k, 1, TopLeaf)),
                                               TopEntry("file2", FakeTop("file2", k, 1, TopLeaf))]));
    TopOfFake(root, k, 2, Folder([Entry("folder1", f)]));
  }

  /**
   * Two files `root/folder1/file1` and `root/folder1/file2`, analysed with the fake metric of
   * value 1: each file scores 1, and the folder and the root both score 2.
   */
  lemma AnalyseTwoFilesInOneFolder(root: string)
    requires IsNormal(root)
    ensures var k := FakeKey(1);
      DoInternalAnalysis(root, [[root, "folder1", "file1"], [root, "folder1", "file2"]], [FakeMetric(1)])
      == FakeTop(root, k, 2, TopFolder([TopEntry("folder1",
           FakeTop("folder1", k, 2, TopFolder([TopEntry("file1", FakeTop("file1", k, 1, TopLeaf)),
                                               TopEntry("file2", FakeTop("file2", k, 1, TopLeaf))])))]))
  {
    var k := FakeKey(1);
    var ms := [Fake(k, 1)];
    var d := [[root, "folder1", "file1"], [root, "folder1", "file2"]];
    var fas := [FileAnalysis(d[0], ms), FileAnalysis(d[1], ms)];
    ScenarioFiles(root);
    ScenarioRebased(root);
    DisplayOne(root);
    ParseDisplayPlain([root]);
    assert RootFileName(Parse(root)) == root;
    assert DoInternalAnalysis(root, d, [FakeMetric(1)]) == BuildTop(BuildHierarchy(RootTree(root), fas));
    TwoFakeFilesInOneFolder(root);
    ReportTwoFiles(root, k);
  }

  /** Both files answer the fake metric with its value. */
  lemma ScenarioFiles(root: string)
    ensures var ms := [Fake(FakeKey(1), 1)];
      var d := [[root, "folder1", "file1"], [root, "folder1", "file2"]];
      AnalyseAllFiles(d, [FakeMetric(1)]) == [FileAnalysis(d[0], ms), FileAnalysis(d[1], ms)]
  {
    var ms := [Fake(FakeKey(1), 1)];
    var d := [[root, "folder1", "file1"], [root, "folder1", "file2"]];
    var metrics := [FakeMetric(1)];
    assert metrics[0](d[0]) == Some(Fake(FakeKey(1), 1)) && metrics[0](d[1]) == Some(Fake(FakeKey(1), 1));
    EveryMetricAnswers(d[0], metrics);
    EveryMetricAnswers(d[1], metrics);
    assert FileMetricsValue(d[0], metrics) == ms && FileMetricsValue(d[1], metrics) == ms;
  }

  /** Both files lie below the root, which is one directory deep, so re-rooting keeps them as they are. */
  lemma ScenarioRebased(root: string)
    requires IsNormal(root)
    ensures var ms := [Fake(FakeKey(1), 1)];
      var fas := [FileAnalysis([root, "folder1", "file1"], ms), FileAnalysis([root, "folder1", "file2"], ms)];
      KeepOnlyLastRootDirectory(fas, root) == fas
  {
    var ms := [Fake(FakeKey(1), 1)];
    var d := [[root, "folder1", "file1"], [root, "folder1", "file2"]];
    var fas := [FileAnalysis(d[0], ms), FileAnalysis(d[1], ms)];
    ScenarioPathsArePlain(root);
    DisplayOne(root);
    KeepAllBelowRoot(fas, [root]);
    var r := KeepOnlyLastRootDirectory(fas, root);
    assert [root] + d[0][1..] == d[0] && [root] + d[1][1..] == d[1];
    assert r[0] == fas[0] && r[1] == fas[1];
  }

  lemma ScenarioPathsArePlain(root: string)
    requires IsNormal(root)
    ensures IsPlain([root, "folder1", "file1"]) && IsPlain([root, "folder1", "file2"])
  {
    assert IsNormal("folder1") && IsNormal("file1") && IsNormal("file2");
  }
}
