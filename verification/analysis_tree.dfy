/**
 * The hierarchical analysis of `analysis_module/analysis.rs`: a tree of file and folder
 * analyses, the one-branch tree built for a single file, and the recursive merge that folds
 * those branches into one tree.
 *
 * A `BTreeMap<String, HierarchicalAnalysis>` is kept as a list of entries in increasing key
 * order (its iteration order), and `Option<BTreeMap<..>>` as `Leaf` (no content: a file) or
 * `Folder(entries)`.
 */
module AnalysisTree {
  import opened Wrappers
  import opened Text
  import opened Paths
  import opened MetricValues

  /** `FileAnalysis`: one discovered file and the values its metrics produced. */
  datatype FileAnalysis = FileAnalysis(path: Path, metrics: seq<MetricValue>)

  /** `HierarchicalAnalysis`. */
  datatype Tree = Tree(fileName: string, metrics: seq<MetricValue>, content: Content)

  /** `folder_content`. */
  datatype Content = Leaf | Folder(entries: seq<Entry>)

  datatype Entry = Entry(key: string, tree: Tree)

  /* ---------------------------------------------------------------- */
  /* Key-ordered entry lists                                           */

  function Keys(es: seq<Entry>): (r: seq<string>)
    ensures |r| == |es|
    ensures forall i :: 0 <= i < |es| ==> r[i] == es[i].key
  {
    if es == [] then [] else [es[0].key] + Keys(es[1..])
  }

  function KeySet(es: seq<Entry>): (r: set<string>)
    ensures forall k :: k in r <==> exists i :: 0 <= i < |es| && es[i].key == k
  {
    set i | 0 <= i < |es| :: es[i].key
  }

  /** The entries are in strictly increasing key order, as a `BTreeMap` iterates. */
  predicate Sorted(es: seq<Entry>) {
    forall i, j :: 0 <= i < j < |es| ==> Less(es[i].key, es[j].key)
  }

  predicate UniqueKeys(es: seq<Entry>) {
    forall i, j :: 0 <= i < j < |es| ==> es[i].key != es[j].key
  }

  lemma SortedIsUnique(es: seq<Entry>)
    requires Sorted(es)
    ensures UniqueKeys(es)
  {
    forall i, j | 0 <= i < j < |es| ensures es[i].key != es[j].key {
      LessIrreflexive(es[i].key);
    }
  }

  /** `BTreeMap::get`. */
  function Lookup(es: seq<Entry>, k: string): (r: Option<Tree>)
    ensures r.Some? <==> k in KeySet(es)
    ensures r.Some? ==> Entry(k, r.value) in es
  {
    if es == [] then None
    else if es[0].key == k then Some(es[0].tree)
    else Lookup(es[1..], k)
  }

  /** With unique keys, the entry holding a key is what a lookup of that key returns. */
  lemma {:induction false} LookupFindsEntry(es: seq<Entry>, k: string, t: Tree)
    requires UniqueKeys(es) && Entry(k, t) in es
    ensures Lookup(es, k) == Some(t)
  {
    if es[0] != Entry(k, t) {
      assert es[0].key != k by {
        var i :| 0 <= i < |es| && es[i] == Entry(k, t);
        assert i != 0;
      }
      LookupFindsEntry(es[1..], k, t);
    }
  }

  lemma KeySetCons(e: Entry, es: seq<Entry>)
    ensures KeySet([e] + es) == {e.key} + KeySet(es)
  {
    var xs := [e] + es;
    forall k | k in KeySet(xs) ensures k in {e.key} + KeySet(es) {
      var i :| 0 <= i < |xs| && xs[i].key == k;
      if i > 0 { assert es[i - 1].key == k; }
    }
    assert xs[0].key == e.key;
    forall k | k in KeySet(es) ensures k in KeySet(xs) {
      var i :| 0 <= i < |es| && es[i].key == k;
      assert xs[i + 1].key == k;
    }
  }

  lemma SortedCons(e: Entry, es: seq<Entry>)
    requires Sorted(es)
    requires forall j :: 0 <= j < |es| ==> Less(e.key, es[j].key)
    ensures Sorted([e] + es)
  {
    var xs := [e] + es;
    forall i, j | 0 <= i < j < |xs| ensures Less(xs[i].key, xs[j].key) {
      if i > 0 { assert xs[i] == es[i - 1] && xs[j] == es[j - 1]; }
      else { assert xs[j] == es[j - 1]; }
    }
  }

  /** `BTreeMap::insert`: adds or replaces the entry for `k`, keeping the key order. */
  function Insert(es: seq<Entry>, k: string, t: Tree): (r: seq<Entry>)
    ensures KeySet(r) == KeySet(es) + {k}
    ensures Entry(k, t) in r
    ensures forall e :: e in r ==> e in es || e == Entry(k, t)
    ensures forall e :: e in es && e.key != k ==> e in r
  {
    if es == [] then [Entry(k, t)]
    else if Less(k, es[0].key) then
      KeySetCons(Entry(k, t), es);
      [Entry(k, t)] + es
    else if k == es[0].key then
      KeySetCons(es[0], es[1..]);
      KeySetCons(Entry(k, t), es[1..]);
      assert es == [es[0]] + es[1..];
      [Entry(k, t)] + es[1..]
    else
      var rest := Insert(es[1..], k, t);
      KeySetCons(es[0], es[1..]);
      KeySetCons(es[0], rest);
      assert es == [es[0]] + es[1..];
      [es[0]] + rest
  }

  /** Inserting into a key-ordered list keeps it key-ordered. */
  lemma {:induction false} InsertKeepsSorted(es: seq<Entry>, k: string, t: Tree)
    requires Sorted(es)
    ensures Sorted(Insert(es, k, t))
  {
    if es == [] {
    } else if Less(k, es[0].key) {
      forall j | 0 <= j < |es| ensures Less(k, es[j].key) {
        if j > 0 { LessTransitive(k, es[0].key, es[j].key); }
      }
      SortedCons(Entry(k, t), es);
    } else if k == es[0].key {
      SortedCons(Entry(k, t), es[1..]);
    } else {
      var rest := Insert(es[1..], k, t);
      InsertKeepsSorted(es[1..], k, t);
      LessTotal(k, es[0].key);
      forall j | 0 <= j < |rest| ensures Less(es[0].key, rest[j].key) {
        assert rest[j] in rest;
      }
      SortedCons(es[0], rest);
    }
  }

  /** Inserts every entry of `xs` in turn; a later entry replaces an earlier one with its key. */
  function InsertAll(es: seq<Entry>, xs: seq<Entry>): (r: seq<Entry>)
    ensures KeySet(r) == KeySet(es) + KeySet(xs)
    ensures forall e :: e in r ==> e in es || e in xs
    decreases |xs|
  {
    if xs == [] then es
    else
      var next := Insert(es, xs[0].key, xs[0].tree);
      var r := InsertAll(next, xs[1..]);
      KeySetCons(xs[0], xs[1..]);
      assert xs == [xs[0]] + xs[1..];
      assert forall e :: e in xs[1..] ==> e in xs;
      r
  }

  lemma {:induction false} InsertAllKeepsSorted(es: seq<Entry>, xs: seq<Entry>)
    requires Sorted(es)
    ensures Sorted(InsertAll(es, xs))
    decreases |xs|
  {
    if xs != [] {
      InsertKeepsSorted(es, xs[0].key, xs[0].tree);
      InsertAllKeepsSorted(Insert(es, xs[0].key, xs[0].tree), xs[1..]);
    }
  }

  /** Entries whose keys are unique all survive being inserted, whatever was there before. */
  lemma {:induction false} InsertAllKeepsUniqueEntries(es: seq<Entry>, xs: seq<Entry>)
    requires UniqueKeys(xs)
    ensures forall x :: x in xs ==> x in InsertAll(es, xs)
    decreases |xs|
  {
    if xs != [] {
      var next := Insert(es, xs[0].key, xs[0].tree);
      InsertAllKeepsUniqueEntries(next, xs[1..]);
      InsertAllKeepsOthers(next, xs[1..], xs[0]);
    }
  }

  lemma {:induction false} InsertAllKeepsOthers(es: seq<Entry>, xs: seq<Entry>, e: Entry)
    requires e in es && e.key !in KeySet(xs)
    ensures e in InsertAll(es, xs)
    decreases |xs|
  {
    if xs != [] {
      KeySetCons(xs[0], xs[1..]);
      assert xs == [xs[0]] + xs[1..];
      InsertAllKeepsOthers(Insert(es, xs[0].key, xs[0].tree), xs[1..], e);
    }
  }

  /** `BTreeMap::from_iter` over distinct keys. */
  function FromEntries(xs: seq<Entry>): (r: seq<Entry>)
    ensures Sorted(r)
    ensures KeySet(r) == KeySet(xs)
    ensures forall e :: e in r ==> e in xs
  {
    InsertAllKeepsSorted([], xs);
    InsertAll([], xs)
  }

  /* ---------------------------------------------------------------- */
  /* Well-formedness, and reading a one-branch tree back                */

  /** Every folder of the tree lists its entries in key order. */
  predicate WellFormedTree(t: Tree) {
    match t.content
    case Leaf => true
    case Folder(es) => Sorted(es) && forall i :: 0 <= i < |es| ==> WellFormedTree(es[i].tree)
  }

  /** Every node of the tree carries the metric values `ms`. */
  predicate CarriesEverywhere(t: Tree, ms: seq<MetricValue>) {
    t.metrics == ms &&
    match t.content
    case Leaf => true
    case Folder(es) => forall i :: 0 <= i < |es| ==> CarriesEverywhere(es[i].tree, ms)
  }

  /** A single branch: every folder has exactly one entry, keyed by that entry's own name. */
  predicate IsChain(t: Tree) {
    match t.content
    case Leaf => true
    case Folder(es) => |es| == 1 && es[0].key == es[0].tree.fileName && IsChain(es[0].tree)
  }

  /** The names read from the root of a branch down to its end. */
  function Spine(t: Tree): (r: seq<string>)
    ensures |r| >= 1 && r[0] == t.fileName
  {
    [t.fileName] +
      match t.content
      case Folder(es) => if |es| == 1 then Spine(es[0].tree) else []
      case Leaf => []
  }

  /* ---------------------------------------------------------------- */
  /* One file as a branch                                             */

  /** `HierarchicalAnalysis::new`: the branch of folders leading to one file. */
  function NewAnalysis(fa: FileAnalysis): (r: Tree)
    ensures r.metrics == fa.metrics
    decreases |fa.path|, 1
  {
    match TopParent(fa.path)
    case Some(top) => Tree(Display(top), fa.metrics, FolderContentOneLevelBelow(fa))
    case None => Tree(Display(fa.path), fa.metrics, Leaf)
  }

  /** `build_folder_content_one_level_below`: the content of the branch's outermost folder. */
  function FolderContentOneLevelBelow(fa: FileAnalysis): Content
    decreases |fa.path|, 0
  {
    match RemoveTopParent(fa.path)
    case None => Leaf
    case Some(rest) =>
      var below := FileAnalysis(rest, fa.metrics);
      match TopParent(rest)
      case Some(dir) => Folder([Entry(Display(dir), NewAnalysis(below))])
      case None =>
        match FileName(fa.path)
        case Some(name) => Folder([Entry(name, NewAnalysis(below))])
        case None => Leaf
  }

  lemma DisplayOne(c: string)
    ensures Display([c]) == c
  {
    if c == RootDir {
      assert [c][1..] == [];
    }
  }

  /**
   * A file at a path of n components becomes a branch of n nodes named after the components
   * in order, each folder holding one entry keyed by its child's name, the last node a leaf,
   * and every node carrying the file's metric values.
   */
  lemma NewAnalysisIsBranch(fa: FileAnalysis)
    requires |fa.path| == 1 || FileName(fa.path).Some?
    requires |fa.path| >= 1
    ensures var t := NewAnalysis(fa);
      && Spine(t) == fa.path
      && IsChain(t)
      && WellFormedTree(t)
      && CarriesEverywhere(t, fa.metrics)
      && (t.content.Leaf? <==> |fa.path| == 1)
  {
    BranchSpine(fa);
    BranchShape(fa);
  }

  lemma {:induction false} BranchSpine(fa: FileAnalysis)
    requires |fa.path| == 1 || FileName(fa.path).Some?
    requires |fa.path| >= 1
    ensures Spine(NewAnalysis(fa)) == fa.path
    ensures NewAnalysis(fa).content.Leaf? <==> |fa.path| == 1
    decreases |fa.path|
  {
    var p := fa.path;
    if |p| == 1 {
      DisplayOne(p[0]);
    } else {
      var below := FileAnalysis(p[1..], fa.metrics);
      NewAnalysisStep(fa);
      BranchSpine(below);
      assert [p[0]] + p[1..] == p;
    }
  }

  lemma {:induction false} BranchShape(fa: FileAnalysis)
    requires |fa.path| == 1 || FileName(fa.path).Some?
    requires |fa.path| >= 1
    ensures IsChain(NewAnalysis(fa))
    ensures WellFormedTree(NewAnalysis(fa))
    ensures CarriesEverywhere(NewAnalysis(fa), fa.metrics)
    decreases |fa.path|
  {
    if |fa.path| >= 2 {
      var below := FileAnalysis(fa.path[1..], fa.metrics);
      NewAnalysisStep(fa);
      BranchShape(below);
      OneEntryFolder(NewAnalysis(fa), NewAnalysis(below), fa.metrics);
    } else {
      assert NewAnalysis(fa) == Tree(Display(fa.path), fa.metrics, Leaf);
    }
  }

  /** A folder holding one entry keyed by its tree's name inherits that tree's shape. */
  lemma OneEntryFolder(t: Tree, child: Tree, ms: seq<MetricValue>)
    requires t.metrics == ms && t.content == Folder([Entry(child.fileName, child)])
    requires IsChain(child) && WellFormedTree(child) && CarriesEverywhere(child, ms)
    ensures IsChain(t) && WellFormedTree(t) && CarriesEverywhere(t, ms)
  {
  }

  /** A branch of two or more components is a folder named after the first, holding the rest's branch. */
  lemma NewAnalysisStep(fa: FileAnalysis)
    requires |fa.path| >= 2 && FileName(fa.path).Some?
    ensures var below := FileAnalysis(fa.path[1..], fa.metrics);
      && FileName(below.path) == FileName(fa.path)
      && NewAnalysis(below).fileName == fa.path[1]
      && NewAnalysis(fa) == Tree(fa.path[0], fa.metrics, Folder([Entry(fa.path[1], NewAnalysis(below))]))
  {
    var p := fa.path;
    var rest := p[1..];
    var below := FileAnalysis(rest, fa.metrics);
    DisplayOne(p[0]);
    DisplayOne(rest[0]);
    assert rest[|rest| - 1] == p[|p| - 1];
    assert NewAnalysis(fa) == Tree(p[0], fa.metrics, FolderContentOneLevelBelow(fa));
    if |rest| == 1 {
      NewAnalysisStepLast(fa);
    } else {
      NewAnalysisStepLong(fa);
    }
  }

  lemma NewAnalysisStepLast(fa: FileAnalysis)
    requires |fa.path| == 2 && FileName(fa.path).Some?
    ensures var below := FileAnalysis(fa.path[1..], fa.metrics);
      && NewAnalysis(below) == Tree(fa.path[1], fa.metrics, Leaf)
      && FolderContentOneLevelBelow(fa) == Folder([Entry(fa.path[1], NewAnalysis(below))])
  {
    var rest := fa.path[1..];
    assert rest == [fa.path[1]];
    DisplayOne(fa.path[1]);
    assert TopParent(rest).None?;
    assert FileName(fa.path) == Some(fa.path[1]);
  }

  lemma NewAnalysisStepLong(fa: FileAnalysis)
    requires |fa.path| >= 3
    ensures var below := FileAnalysis(fa.path[1..], fa.metrics);
      && NewAnalysis(below).fileName == fa.path[1]
      && FolderContentOneLevelBelow(fa) == Folder([Entry(fa.path[1], NewAnalysis(below))])
  {
    var rest := fa.path[1..];
    assert TopParent(rest) == Some([fa.path[1]]);
    DisplayOne(fa.path[1]);
  }

  /**
   * A path that ends in ".." has no file name, so its branch stops one level early: the
   * folder above the last component is built as a file.
   */
  lemma ParentDirEndsBranchEarly(ms: seq<MetricValue>)
    ensures NewAnalysis(FileAnalysis(["src", ParentDir], ms)) == Tree("src", ms, Leaf)
  {
    DisplayOne("src");
  }

  /** A path with no components is a single file whose name is empty. */
  lemma EmptyPathIsUnnamedFile(ms: seq<MetricValue>)
    ensures NewAnalysis(FileAnalysis([], ms)) == Tree("", ms, Leaf)
  {
  }

  /* ---------------------------------------------------------------- */
  /* Merging                                                           */

  /** The first value in `ms` under key `k` (`iter().find`). */
  function FindByKey(ms: seq<MetricValue>, k: string): (r: Option<MetricValue>)
    ensures r.Some? ==> r.value in ms && Key(r.value) == k
    ensures r.None? <==> forall i :: 0 <= i < |ms| ==> Key(ms[i]) != k
  {
    if ms == [] then None
    else if Key(ms[0]) == k then Some(ms[0])
    else FindByKey(ms[1..], k)
  }

  function MetricKeys(ms: seq<MetricValue>): (r: seq<string>)
    ensures |r| == |ms|
    ensures forall i :: 0 <= i < |ms| ==> r[i] == Key(ms[i])
  {
    seq(|ms|, i requires 0 <= i < |ms| => Key(ms[i]))
  }

  /** The values of `other` whose keys `current` does not have, in their order. */
  function OnlyInOther(other: seq<MetricValue>, current: seq<MetricValue>): (r: seq<MetricValue>)
    ensures forall m :: m in r <==> m in other && Key(m) !in MetricKeys(current)
    ensures |r| <= |other|
  {
    if other == [] then []
    else
      (if Key(other[0]) in MetricKeys(current) then [] else [other[0]])
        + OnlyInOther(other[1..], current)
  }

  /** One value of the current side, aggregated with the other side's value under its key. */
  function AggregateWithOther(m: MetricValue, other: seq<MetricValue>): (r: MetricValue)
    ensures Key(r) == Key(m)
  {
    match FindByKey(other, Key(m))
    case Some(o) => Aggregate(m, o)
    case None => m
  }

  /** `combine_metrics`. */
  function CombineMetrics(current: seq<MetricValue>, other: seq<MetricValue>): (r: seq<MetricValue>)
    ensures |current| <= |r| <= |current| + |other|
    ensures forall i :: 0 <= i < |current| ==> Key(r[i]) == Key(current[i])
  {
    var fromCurrent := seq(|current|, i requires 0 <= i < |current| =>
      AggregateWithOther(current[i], other));
    fromCurrent + OnlyInOther(other, current)
  }

  predicate UniqueMetricKeys(ms: seq<MetricValue>) {
    forall i, j :: 0 <= i < j < |ms| ==> Key(ms[i]) != Key(ms[j])
  }

  /**
   * Combined metric values keep the current side's keys first and in their order, followed
   * by exactly the other side's values under keys the current side lacks, unchanged.
   */
  lemma CombineMetricsOrder(current: seq<MetricValue>, other: seq<MetricValue>)
    ensures var r := CombineMetrics(current, other);
      && |r| >= |current|
      && MetricKeys(r)[..|current|] == MetricKeys(current)
      && (forall m :: m in r[|current|..] <==> m in other && Key(m) !in MetricKeys(current))
  {
    var r := CombineMetrics(current, other);
    assert r[|current|..] == OnlyInOther(other, current);
  }

  /** Within a list of values with distinct keys, the value holding a key is the one found by it. */
  lemma {:induction false} FindByKeyUnique(ms: seq<MetricValue>, j: nat)
    requires UniqueMetricKeys(ms) && j < |ms|
    ensures FindByKey(ms, Key(ms[j])) == Some(ms[j])
  {
    if j > 0 {
      assert Key(ms[0]) != Key(ms[j]);
      assert UniqueMetricKeys(ms[1..]);
      FindByKeyUnique(ms[1..], j - 1);
    }
  }

  /**
   * A current value whose key the other side also has is aggregated with the other side's
   * value under that key; one whose key the other side lacks is kept as it is.
   */
  lemma CombineMetricsShared(current: seq<MetricValue>, other: seq<MetricValue>)
    requires UniqueMetricKeys(other)
    ensures var r := CombineMetrics(current, other);
      && (forall i, j :: 0 <= i < |current| && 0 <= j < |other| && Key(current[i]) == Key(other[j]) ==>
            r[i] == Aggregate(current[i], other[j]))
      && (forall i :: 0 <= i < |current| && Key(current[i]) !in MetricKeys(other) ==> r[i] == current[i])
  {
    forall i, j | 0 <= i < |current| && 0 <= j < |other| && Key(current[i]) == Key(other[j])
      ensures CombineMetrics(current, other)[i] == Aggregate(current[i], other[j])
    {
      FindByKeyUnique(other, j);
    }
  }

  /** No key is lost and none is invented: the keys are those of either side. */
  lemma CombineMetricsKeys(current: seq<MetricValue>, other: seq<MetricValue>)
    ensures var r := CombineMetrics(current, other);
      forall k :: k in MetricKeys(r) <==> k in MetricKeys(current) || k in MetricKeys(other)
  {
    forall k | k in MetricKeys(current) || k in MetricKeys(other)
      ensures k in MetricKeys(CombineMetrics(current, other))
    {
      CombinedKeyFromEitherSide(current, other, k);
    }
    forall k | k in MetricKeys(CombineMetrics(current, other))
      ensures k in MetricKeys(current) || k in MetricKeys(other)
    {
      CombinedKeyFromOneSide(current, other, k);
    }
  }

  lemma CombinedKeyFromEitherSide(current: seq<MetricValue>, other: seq<MetricValue>, k: string)
    requires k in MetricKeys(current) || k in MetricKeys(other)
    ensures k in MetricKeys(CombineMetrics(current, other))
  {
    var r := CombineMetrics(current, other);
    var rest := OnlyInOther(other, current);
    CombineMetricsTail(current, other);
    if k in MetricKeys(current) {
      var i :| 0 <= i < |current| && MetricKeys(current)[i] == k;
      assert MetricKeys(r)[i] == k;
    } else {
      var j :| 0 <= j < |other| && MetricKeys(other)[j] == k;
      assert other[j] in rest;
      var l :| 0 <= l < |rest| && rest[l] == other[j];
      assert r[|current| + l] == r[|current|..][l];
      assert MetricKeys(r)[|current| + l] == k;
    }
  }

  lemma CombinedKeyFromOneSide(current: seq<MetricValue>, other: seq<MetricValue>, k: string)
    requires k in MetricKeys(CombineMetrics(current, other))
    ensures k in MetricKeys(current) || k in MetricKeys(other)
  {
    var r := CombineMetrics(current, other);
    var rest := OnlyInOther(other, current);
    CombineMetricsTail(current, other);
    var i :| 0 <= i < |r| && MetricKeys(r)[i] == k;
    if i < |current| {
      assert MetricKeys(current)[i] == k;
    } else {
      assert r[i] == r[|current|..][i - |current|];
      assert r[i] in rest;
      var j :| 0 <= j < |other| && other[j] == r[i];
      assert MetricKeys(other)[j] == k;
    }
  }

  /** After the current side's values come exactly the other side's values under new keys. */
  lemma CombineMetricsTail(current: seq<MetricValue>, other: seq<MetricValue>)
    ensures CombineMetrics(current, other)[|current|..] == OnlyInOther(other, current)
  {
  }

  /** When neither side repeats a key, neither does the combination. */
  lemma CombineMetricsUnique(current: seq<MetricValue>, other: seq<MetricValue>)
    requires UniqueMetricKeys(current) && UniqueMetricKeys(other)
    ensures UniqueMetricKeys(CombineMetrics(current, other))
  {
    var r := CombineMetrics(current, other);
    var rest := OnlyInOther(other, current);
    OnlyInOtherUnique(other, current);
    forall i, j | 0 <= i < j < |r| ensures Key(r[i]) != Key(r[j]) {
      if j >= |current| {
        assert r[j] == rest[j - |current|];
        assert r[j] in rest;
        if i >= |current| {
          assert r[i] == rest[i - |current|];
        } else {
          assert Key(r[i]) == MetricKeys(current)[i];
        }
      } else {
        assert Key(r[i]) == Key(current[i]) && Key(r[j]) == Key(current[j]);
      }
    }
  }

  lemma {:induction false} OnlyInOtherUnique(other: seq<MetricValue>, current: seq<MetricValue>)
    requires UniqueMetricKeys(other)
    ensures UniqueMetricKeys(OnlyInOther(other, current))
  {
    if other != [] {
      OnlyInOtherUnique(other[1..], current);
      var rest := OnlyInOther(other[1..], current);
      forall m | m in rest ensures Key(m) != Key(other[0]) {
        var j :| 0 <= j < |other[1..]| && other[1..][j] == m;
        assert other[j + 1] == m;
      }
    }
  }

  /** The entries of a content (`None` has none). */
  function EntriesOf(c: Content): seq<Entry> {
    match c
    case Leaf => []
    case Folder(es) => es
  }

  /** The entries of `other` under keys that `mine` does not have. */
  function EntriesOnlyIn(other: seq<Entry>, mine: seq<Entry>): (r: seq<Entry>)
    ensures forall e :: e in r <==> e in other && e.key !in KeySet(mine)
    ensures KeySet(r) == KeySet(other) - KeySet(mine)
  {
    if other == [] then []
    else
      var rest := EntriesOnlyIn(other[1..], mine);
      EntriesOnlyInStep(other, mine, rest);
      (if other[0].key in KeySet(mine) then [] else [other[0]]) + rest
  }

  lemma EntriesOnlyInStep(other: seq<Entry>, mine: seq<Entry>, rest: seq<Entry>)
    requires other != []
    requires forall e :: e in rest <==> e in other[1..] && e.key !in KeySet(mine)
    requires KeySet(rest) == KeySet(other[1..]) - KeySet(mine)
    ensures var r := (if other[0].key in KeySet(mine) then [] else [other[0]]) + rest;
      && (forall e :: e in r <==> e in other && e.key !in KeySet(mine))
      && KeySet(r) == KeySet(other) - KeySet(mine)
  {
    KeySetCons(other[0], other[1..]);
    KeySetCons(other[0], rest);
    assert other == [other[0]] + other[1..];
  }

  /**
   * `combine_hierarchical_analysis` together with `combine_folder_content`: the left tree's
   * name, the combined metric values, and folder contents merged key by key. Entries under a
   * key both sides have are merged recursively; entries only one side has are kept. When the
   * left side is a file, the right side's entries are dropped and the result is an empty folder.
   */
  function Combine(a: Tree, b: Tree): (r: Tree)
    ensures r.fileName == a.fileName
    ensures r.metrics == CombineMetrics(a.metrics, b.metrics)
    ensures r.content.Folder? && Sorted(r.content.entries)
    decreases a, 1
  {
    Tree(a.fileName, CombineMetrics(a.metrics, b.metrics),
      match a.content
      case Leaf => Folder([])
      case Folder(mine) =>
        Folder(FromEntries(MergedEntries(a, b) + EntriesOnlyIn(EntriesOf(b.content), mine))))
  }

  /** Merging into a file drops the other side's entries: the result is an empty folder. */
  lemma CombineIntoFile(a: Tree, b: Tree)
    requires a.content.Leaf?
    ensures Combine(a, b).content == Folder([])
  {
  }

  /** The left folder's entries, each merged with the right side's entry under its key. */
  function MergedEntries(a: Tree, b: Tree): (r: seq<Entry>)
    ensures |r| == |EntriesOf(a.content)|
    decreases a, 0
  {
    match a.content
    case Leaf => []
    case Folder(mine) =>
      seq(|mine|, i requires 0 <= i < |mine| =>
        Entry(mine[i].key,
          match Lookup(EntriesOf(b.content), mine[i].key)
          case Some(t) => Combine(mine[i].tree, t)
          case None => mine[i].tree))
  }

  /** The result of merging the left entry `e` with whatever `theirs` holds under its key. */
  predicate IsMergeOf(x: Entry, e: Entry, theirs: seq<Entry>) {
    x.key == e.key &&
    match Lookup(theirs, e.key)
    case Some(t) => x.tree == Combine(e.tree, t)
    case None => x.tree == e.tree
  }

  lemma MergedEntriesAt(a: Tree, b: Tree, i: nat)
    requires i < |EntriesOf(a.content)|
    ensures IsMergeOf(MergedEntries(a, b)[i], EntriesOf(a.content)[i], EntriesOf(b.content))
  {
  }

  lemma MergedEntriesKeys(a: Tree, b: Tree)
    ensures Keys(MergedEntries(a, b)) == Keys(EntriesOf(a.content))
    ensures KeySet(MergedEntries(a, b)) == KeySet(EntriesOf(a.content))
  {
    var m := MergedEntries(a, b);
    var mine := EntriesOf(a.content);
    forall i | 0 <= i < |m| ensures m[i].key == mine[i].key {
      MergedEntriesAt(a, b, i);
    }
  }

  /**
   * Merging two folders gives the union of their keys; each left entry is merged with the
   * right entry under the same key, and each right-only entry is kept as it is.
   */
  lemma CombineFolders(a: Tree, b: Tree)
    requires a.content.Folder? && Sorted(a.content.entries)
    requires Sorted(EntriesOf(b.content))
    ensures var r := Combine(a, b).content.entries;
      && KeySet(r) == KeySet(a.content.entries) + KeySet(EntriesOf(b.content))
      && (forall e :: e in a.content.entries ==> exists x :: x in r && IsMergeOf(x, e, EntriesOf(b.content)))
      && (forall e :: e in EntriesOf(b.content) && e.key !in KeySet(a.content.entries) ==> e in r)
  {
    CombineFoldersKeys(a, b);
    CombineFoldersMerged(a, b);
    CombineFoldersKept(a, b);
  }

  /** The merged content is built from the merged left entries and the right-only entries. */
  lemma CombinedContent(a: Tree, b: Tree)
    requires a.content.Folder?
    ensures Combine(a, b).content.entries
      == FromEntries(MergedEntries(a, b) + EntriesOnlyIn(EntriesOf(b.content), a.content.entries))
  {
  }

  lemma CombineFoldersKeys(a: Tree, b: Tree)
    requires a.content.Folder?
    ensures KeySet(Combine(a, b).content.entries) == KeySet(a.content.entries) + KeySet(EntriesOf(b.content))
  {
    var merged := MergedEntries(a, b);
    var only := EntriesOnlyIn(EntriesOf(b.content), a.content.entries);
    CombinedContent(a, b);
    MergedEntriesKeys(a, b);
    KeySetAppend(merged, only);
  }

  lemma CombineFoldersMerged(a: Tree, b: Tree)
    requires a.content.Folder? && Sorted(a.content.entries)
    requires Sorted(EntriesOf(b.content))
    ensures forall e :: e in a.content.entries ==>
      exists x :: x in Combine(a, b).content.entries && IsMergeOf(x, e, EntriesOf(b.content))
  {
    var mine := a.content.entries;
    var merged := MergedEntries(a, b);
    var xs := merged + EntriesOnlyIn(EntriesOf(b.content), mine);
    CombinedContent(a, b);
    CombineEntriesUnique(a, b);
    InsertAllKeepsUniqueEntries([], xs);
    forall e | e in mine ensures exists x :: x in FromEntries(xs) && IsMergeOf(x, e, EntriesOf(b.content)) {
      var i :| 0 <= i < |mine| && mine[i] == e;
      MergedEntriesAt(a, b, i);
      assert merged[i] in xs;
    }
  }

  lemma CombineFoldersKept(a: Tree, b: Tree)
    requires a.content.Folder? && Sorted(a.content.entries)
    requires Sorted(EntriesOf(b.content))
    ensures forall e :: e in EntriesOf(b.content) && e.key !in KeySet(a.content.entries) ==>
      e in Combine(a, b).content.entries
  {
    var only := EntriesOnlyIn(EntriesOf(b.content), a.content.entries);
    var xs := MergedEntries(a, b) + only;
    CombinedContent(a, b);
    CombineEntriesUnique(a, b);
    InsertAllKeepsUniqueEntries([], xs);
    forall e | e in EntriesOf(b.content) && e.key !in KeySet(a.content.entries) ensures e in FromEntries(xs) {
      assert e in only;
      assert e in xs;
    }
  }

  lemma KeySetAppend(xs: seq<Entry>, ys: seq<Entry>)
    ensures KeySet(xs + ys) == KeySet(xs) + KeySet(ys)
  {
    var zs := xs + ys;
    forall k | k in KeySet(ys) ensures k in KeySet(zs) {
      var i :| 0 <= i < |ys| && ys[i].key == k;
      assert zs[|xs| + i].key == k;
    }
    forall k | k in KeySet(xs) ensures k in KeySet(zs) {
      var i :| 0 <= i < |xs| && xs[i].key == k;
      assert zs[i].key == k;
    }
  }

  /** The merged entries and the right-only entries never share a key. */
  lemma CombineEntriesUnique(a: Tree, b: Tree)
    requires a.content.Folder? && Sorted(a.content.entries)
    requires Sorted(EntriesOf(b.content))
    ensures UniqueKeys(MergedEntries(a, b) + EntriesOnlyIn(EntriesOf(b.content), a.content.entries))
  {
    var mine := a.content.entries;
    var theirs := EntriesOf(b.content);
    var merged := MergedEntries(a, b);
    var only := EntriesOnlyIn(theirs, mine);
    var xs := merged + only;
    SortedIsUnique(mine);
    SortedIsUnique(theirs);
    EntriesOnlyInUnique(theirs, mine);
    MergedEntriesKeys(a, b);
    forall i, j | 0 <= i < j < |xs| ensures xs[i].key != xs[j].key {
      if j >= |merged| && i < |merged| {
        assert xs[j] == only[j - |merged|];
        assert xs[j] in only;
        assert xs[i].key == Keys(mine)[i];
      } else if i >= |merged| {
        assert xs[i] == only[i - |merged|] && xs[j] == only[j - |merged|];
      } else {
        assert xs[i].key == Keys(mine)[i] && xs[j].key == Keys(mine)[j];
      }
    }
  }

  lemma {:induction false} EntriesOnlyInUnique(other: seq<Entry>, mine: seq<Entry>)
    requires UniqueKeys(other)
    ensures UniqueKeys(EntriesOnlyIn(other, mine))
  {
    if other != [] {
      assert UniqueKeys(other[1..]);
      EntriesOnlyInUnique(other[1..], mine);
      var rest := EntriesOnlyIn(other[1..], mine);
      forall e | e in rest ensures e.key != other[0].key {
        var j :| 0 <= j < |other[1..]| && other[1..][j] == e;
        assert other[j + 1] == e;
      }
    }
  }

  /** Merging well-formed trees gives a well-formed tree. */
  lemma {:induction false} CombineWellFormed(a: Tree, b: Tree)
    requires WellFormedTree(a) && WellFormedTree(b)
    ensures WellFormedTree(Combine(a, b))
    decreases a, 2
  {
    if a.content.Folder? {
      CombinedEntriesWellFormed(a, b);
    }
  }

  lemma {:induction false} CombinedEntriesWellFormed(a: Tree, b: Tree)
    requires WellFormedTree(a) && WellFormedTree(b) && a.content.Folder?
    ensures forall x :: x in Combine(a, b).content.entries ==> WellFormedTree(x.tree)
    decreases a, 1
  {
    var theirs := EntriesOf(b.content);
    var merged := MergedEntries(a, b);
    var only := EntriesOnlyIn(theirs, a.content.entries);
    CombinedContent(a, b);
    forall x | x in Combine(a, b).content.entries ensures WellFormedTree(x.tree) {
      assert x in merged + only;
      if x in merged {
        var j :| 0 <= j < |merged| && merged[j] == x;
        MergedEntryWellFormed(a, b, j);
      } else {
        var k :| 0 <= k < |theirs| && theirs[k] == x;
      }
    }
  }

  lemma {:induction false} MergedEntryWellFormed(a: Tree, b: Tree, j: nat)
    requires WellFormedTree(a) && WellFormedTree(b) && a.content.Folder?
    requires j < |a.content.entries|
    ensures WellFormedTree(MergedEntries(a, b)[j].tree)
    decreases a, 0
  {
    var theirs := EntriesOf(b.content);
    var e := a.content.entries[j];
    MergedEntriesAt(a, b, j);
    assert WellFormedTree(e.tree);
    match Lookup(theirs, e.key)
    case Some(t) =>
      var k :| 0 <= k < |theirs| && theirs[k] == Entry(e.key, t);
      assert WellFormedTree(theirs[k].tree);
      CombineWellFormed(e.tree, t);
    case None =>
  }
}
