# smells — a Dafny model of the analysis core

`smells` is a code-metrics tool. It walks a source tree, asks each metric for a value on
every file, and builds a hierarchy of folder analyses. A folder's metric values aggregate
those of everything below it. The result is reported as nested JSON objects.

This project models:

- the metric values of the analysis module: `lines_count` (a line count or an error) and
  `social_complexity` (a list of git authors or an error). It covers their keys, scores,
  values and the aggregation rules.
- the hierarchical analysis of `src/analysis_module/analysis.rs`:
  - a file becomes a branch of nested folders;
  - branches are merged, with metrics combined key by key and folder contents merged by
    entry name;
  - files outside the last root directory are re-rooted;
  - the merged tree is reduced to scores.
- the older pipeline of `src/analysis.rs` and its `line_count` metric. This covers the metric
  map of each file, the file filter, the item key and the folder summary.
- the command-line analysis of `src/cli/cli_lib.rs`. It analyses visible entries in name
  order, sums line counts per folder and writes JSON. It also covers the JSON formatter of
  `src/formatters/json.rs`.
- `backlog.py`: how backlog items are read and the graph `print_graphiz` draws.
- `fs_generator/src/main.rs`: the sequence of directories and files the generator writes,
  and how its arguments are checked.

Modelling conventions:

- A path is its sequence of components, as Rust's `Path::components` sees it. Where the
  source uses the text a path was given as, the model keeps that text and parses it:
  the item keys and filter of `src/analysis.rs` and `src/cli/cli_lib.rs`, and the root of
  the re-rooting.
- A `BTreeMap` of folder content is a key-sorted sequence of entries.
- A metric is a function from a file path to an optional value. The file system, git and the
  clock are inputs, never effects.
- Integers are unbounded. The source's `as u32` casts are written out as `% 2^32`.

Modules: `Wrappers`, `Text`, `Paths` (the path helpers), `MetricTypes`, `MetricValues`,
`LinesCount`, `SocialComplexity`, `AnalysisTree`, `InternalAnalysis`, `AnalysisExamples`,
`LegacyModels`, `LegacyAnalysis`, `LineCount`, `Json`, `JsonFormatter`, `CliLib`, `Backlog`,
`FsGenerator`.

## Model

| member | source | states |
|---|---|---|
| LinesCount.GetScore | src/metrics/lines_count.rs:50-55 | A counted file scores its line count; a failed count gives the analysis error text. |
| LinesCount.GetValue | src/metrics/lines_count.rs:57-62 | The value is the line count as a number; a failure passes its own error on. |
| LinesCount.Aggregate | src/metrics/lines_count.rs:64-91 | The result fails exactly when both sides fail, and then with the analysis error. A failed other side leaves this count. A number on the other side is added to this count, a failed count counting 0. An author list on the other side gives 0. |
| LinesCount.ScoreAgreesWithValue | src/metrics/lines_count.rs:50-62 | The score is `n` exactly when the value is the number `n`, and both fail together. |
| LinesCount.CombineCases | src/metrics/lines_count.rs:64-91 | Two counts add up. One failure leaves the other count. Two failures give the analysis error. The result fails only if both sides fail. |
| LinesCount.CombineCommutes | src/metrics/lines_count.rs:64-91 | Aggregating two line counts does not depend on their order. |
| LinesCount.CombineAssociates | src/metrics/lines_count.rs:64-91 | Aggregating line counts does not depend on the grouping, so a folder's count is well defined. |
| LinesCount.CombineAllIsSumOfSuccesses | src/metrics/lines_count.rs:64-91 | Folding any non-empty list of counts gives the sum of the successful ones; it fails only when every count failed. |
| SocialComplexity.GetScore | src/metrics/social_complexity.rs:107-112 | The score is the number of authors; a failure passes its error on. |
| SocialComplexity.GetValue | src/metrics/social_complexity.rs:114-119 | The value is the author list itself; a failure passes its error on. |
| SocialComplexity.Aggregate | src/metrics/social_complexity.rs:121-158 | The result fails exactly when both sides fail, and then with the analysis error. A failed side leaves the other side's authors. Two lists give a list that starts with this file's authors and is at most as long as both together. |
| SocialComplexity.Union | src/metrics/social_complexity.rs:147-153 | The union starts with this file's authors unchanged. It is at most as long as both lists together. |
| SocialComplexity.CombineCases | src/metrics/social_complexity.rs:121-158 | Two failures give the analysis error. One failure leaves the other side's authors. Two lists give their union. |
| SocialComplexity.UnionIsMineThenNewAuthors | src/metrics/social_complexity.rs:147-153 | The union is this file's authors, then each other author not yet seen, in order. Its author set is the union of both sets. |
| SocialComplexity.UnionKeepsNoDuplicates | src/metrics/social_complexity.rs:147-153 | Starting from a duplicate-free list, the union has no duplicate author. |
| SocialComplexity.UnionLength | src/metrics/social_complexity.rs:147-153 | The union is at least as long as each input (the other input when it has no duplicates) and at most their total. |
| SocialComplexity.RelativeFilePath | src/metrics/social_complexity.rs:90-95 | Succeeds exactly when the root is a prefix of the file path; the root followed by the result is the file path. |
| Paths.Parse | src/analysis_module/analysis.rs:117-142 | No component of a parsed path is empty or holds a separator, except a leading root; `.` and the root appear only first; the path is absolute exactly when its text starts with `/`. |
| Paths.ParseDisplay | src/analysis_module/analysis.rs:117-142 | Parsing the text of a path made of plain names, optionally behind a root or `.`, gives that path back: `Display` and `Parse` are inverse on such paths. |
| Paths.FileNameOfPush | src/cli/cli_lib.rs:48-71 | An entry path, its folder's text with the entry's name pushed on (`DirEntry::path`), has that name as file name, whatever the folder's text. |
| Paths.ParseTrailingSlash | src/analysis_module/analysis.rs:117-142 | A trailing `/` after a plain path's text does not change the parsed path. |
| MetricValues.FakeValue | src/analysis_module/analysis.rs:465-500 | The test metric's value scores exactly the number it was made with. |
| MetricValues.Aggregate | src/analysis_module/analysis.rs:266-296 | Aggregating keeps the key of the value aggregated into, which `combine_metrics` relies on; what the value becomes is stated by `AggregateTable`. |
| MetricValues.AggregateTable | src/analysis_module/analysis.rs:495-549 | Two line counts or two author lists follow `LinesCount.Combine` and `SocialComplexity.Combine`. A test value adds the other's number (another test value's, or a successful line count) and adds 0 for an error or an author list. A broken value stays broken. |
| MetricValues.FakeAggregateAllIsSum | src/analysis_module/analysis.rs:503-513 | A test value aggregated in turn with test values, broken values and author lists keeps its key and carries its own number plus the test values' numbers. |
| MetricValues.BrokenAggregateAll | src/analysis_module/analysis.rs:547-549 | A broken value aggregated with any sequence of values stays broken. |
| Paths.TopParent | src/analysis_module/analysis.rs:81-87 | A path of two or more components has its first component as top parent; a shorter one has none. |
| Paths.RemoveTopParent | src/analysis_module/analysis.rs:69-79 | A path of two or more components loses its first component; a shorter one gives nothing. |
| Paths.TopParentSplitsPath | src/analysis_module/analysis.rs:69-87 | A path has a top parent exactly when it has a part below it, and the top parent followed by that part is the path. |
| AnalysisTree.NewAnalysis | src/analysis_module/analysis.rs:30-46 | Every level of a file's branch carries the file's metrics; `NewAnalysisIsBranch` gives the full shape. |
| AnalysisTree.NewAnalysisIsBranch | src/analysis_module/analysis.rs:30-67 | A file's analysis is a chain of folders, one per path component, ending in the file. Every level carries the file's metrics, and contents are sorted. |
| AnalysisTree.ParentDirEndsBranchEarly | src/analysis_module/analysis.rs:48-67 | A `..` component has no file name, so the branch stops above it. |
| AnalysisTree.EmptyPathIsUnnamedFile | src/analysis_module/analysis.rs:30-46 | An empty path gives an unnamed file with the given metrics. |
| AnalysisTree.CombineMetrics | src/analysis_module/analysis.rs:266-296 | The combined metrics number at least the current ones and at most both lists together, and begin with the current keys in order. |
| AnalysisTree.CombineMetricsOrder | src/analysis_module/analysis.rs:266-296 | Combined metrics keep the current metrics' keys first, in order, followed by exactly the other side's metrics whose keys are new. |
| AnalysisTree.CombineMetricsShared | src/analysis_module/analysis.rs:266-296 | A metric whose key the other side also has is aggregated with that metric; one whose key is absent there is kept unchanged. |
| AnalysisTree.CombineMetricsKeys | src/analysis_module/analysis.rs:266-296 | A key is in the combined metrics if and only if it is on one side or the other. |
| AnalysisTree.CombineMetricsUnique | src/analysis_module/analysis.rs:266-296 | Combining two lists of metrics with distinct keys gives distinct keys. |
| AnalysisTree.Combine | src/analysis_module/analysis.rs:248-264 | The merged analysis keeps the first file name and combines the metrics. It is always a folder with sorted content. |
| AnalysisTree.CombineFolders | src/analysis_module/analysis.rs:212-246 | The merged content has the keys of both sides. Each entry of the first side is merged with the same-key entry of the second, if any. Entries only on the second side are kept as they are. |
| AnalysisTree.CombineIntoFile | src/analysis_module/analysis.rs:212-246 | Merging anything into a file gives an empty folder: the other side's content is dropped. |
| AnalysisTree.CombineWellFormed | src/analysis_module/analysis.rs:212-264 | Merging two trees whose folder contents are sorted, at every depth, gives such a tree. |
| InternalAnalysis.FileMetricsValue | src/analysis_module/analysis.rs:202-210 | A file's metric values are the answers of the metrics that answer, and no more than there are metrics. |
| InternalAnalysis.EveryMetricAnswers | src/analysis_module/analysis.rs:202-210 | When every metric answers, the values are those answers, in metric order. |
| InternalAnalysis.AnalyseAllFiles | src/analysis_module/analysis.rs:183-200 | One analysis per discovered file, in order, each for that file's path. |
| InternalAnalysis.Rebase | src/analysis_module/analysis.rs:117-142 | A file is re-rooted exactly when the root's own text is a prefix of the file's displayed path. Its metrics never change. |
| InternalAnalysis.KeepOnlyLastRootDirectory | src/analysis_module/analysis.rs:117-142 | Re-rooting never adds analyses. |
| InternalAnalysis.KeepOnlyLastRootDirectorySelects | src/analysis_module/analysis.rs:117-142 | The result is, in file order, the re-rooted form of exactly the files that pass the root test, and nothing else. |
| InternalAnalysis.RebaseBelowRoot | src/analysis_module/analysis.rs:117-142 | A file below the root keeps only the root's last directory, followed by its path below the root. |
| InternalAnalysis.RebaseSiblingFolder | src/analysis_module/analysis.rs:117-142 | `root2/f` passes the textual prefix test against `root`. The rebuilt path is `root2/f` unchanged. |
| InternalAnalysis.RebaseTrailingSlashRoot | src/analysis_module/analysis.rs:117-142 | A root typed with a trailing `/` strips that slash too, so the root's last name and the file's first name below it are glued into one component. |
| InternalAnalysis.RebaseSrcWithTrailingSlash | src/analysis_module/analysis.rs:117-142 | With the root typed as `src/`, the file `src/a.rs` becomes `srca.rs`. |
| InternalAnalysis.KeepAllBelowRoot | src/analysis_module/analysis.rs:117-142 | When every file lies below the root, all are kept, in order, re-rooted at the root's last directory. |
| InternalAnalysis.BuildHierarchy | src/analysis_module/analysis.rs:144-156 | The hierarchy keeps the root's name, and is a folder as soon as one file is merged in. |
| InternalAnalysis.BuildHierarchyWellFormed | src/analysis_module/analysis.rs:144-156 | Building the hierarchy keeps every folder's content sorted by key. |
| InternalAnalysis.BuildHierarchyTopKeys | src/analysis_module/analysis.rs:144-156 | The root's entries are its own plus the first component below the root of every file. |
| InternalAnalysis.RootLinesCountIsSum | src/analysis_module/analysis.rs:144-156 | With only line counts, the root's count is the sum of the successful file counts. It is an error only when every count failed. |
| InternalAnalysis.BuildHierarchyRootFake | src/analysis_module/analysis.rs:144-156 | With only the test metric under one key, the root carries the sum of all the files' values, as the folder totals of the analysis tests expect. |
| InternalAnalysis.Scores | src/analysis_module/analysis.rs:158-181 | The score map has exactly the keys of the metrics. |
| InternalAnalysis.ScoresOfUniqueKeys | src/analysis_module/analysis.rs:158-181 | With distinct keys, each key maps to its metric's score. |
| InternalAnalysis.BuildTop | src/analysis_module/analysis.rs:158-181 | The public analysis keeps the name and the metric keys, and is a file exactly when the analysis was one. |
| InternalAnalysis.BuildTopKeepsKeys | src/analysis_module/analysis.rs:158-181 | Folder entries keep their keys and order, each reduced the same way. |
| InternalAnalysis.DoInternalAnalysis | src/analysis_module/analysis.rs:91-115 | The result is named after the root's file name and is always a folder. |
| InternalAnalysis.NothingDiscovered | src/analysis_module/analysis.rs:91-115 | With no files the result is an empty folder with no metrics, named after the root. |
| InternalAnalysis.DiscoveredBelowRoot | src/analysis_module/analysis.rs:91-115 | The entries of the result are exactly the first components below the root of the discovered files. |
| AnalysisExamples.AnalyseTwoFilesInOneFolder | src/analysis_module/analysis.rs:870-933 | Two files in `folder1`, each scoring 1 with the test metric, give a root and `folder1` scoring 2 and both files scoring 1. |
| LineCount.CountLines | src/metrics/line_count.rs:27-29 | A line count always fits in a `u32`. |
| LineCount.Lines | src/metrics/line_count.rs:27-29 | No line holds a line feed. |
| LineCount.LinesCount | src/metrics/line_count.rs:27-29 | The number of lines is the number of line feeds, plus one for a last line without one. |
| LineCount.CountLinesOfLineFeeds | src/metrics/line_count.rs:27-29 | A text of `n` line feeds counts `n` lines, modulo 2^32. |
| LineCount.CountLinesOfJoinedLines | src/metrics/line_count.rs:27-29 | Lines joined by line feeds, the last non-empty, count as their number, modulo 2^32. |
| LineCount.LinesOfJoinedLines | src/metrics/line_count.rs:27-29 | Lines joined by line feeds, the last non-empty, come back one by one; each line a line feed ends loses one trailing carriage return, the last line keeps its own. |
| LineCount.LinesCarriageReturnExample | src/metrics/line_count.rs:27-29 | `foo\r\nbaz\r` has the lines `foo` and `baz\r`. |
| LineCount.CountLinesOfOneLineExamples | src/metrics/line_count.rs:67-68 | An empty text counts 0 lines and `line1` counts 1. |
| LineCount.CountLinesOfTwoLinesExample | src/metrics/line_count.rs:69 | Two lines joined by a line feed count 2. |
| LineCount.CountLinesOfThreeLinesExample | src/metrics/line_count.rs:70 | Three lines joined by line feeds count 3. |
| LineCount.CountLinesOfLineFeedExamples | src/metrics/line_count.rs:71-72 | One line feed counts 1 line and three count 3. |
| LineCount.GetLinesCountValue | src/metrics/line_count.rs:39-58 | There is a value exactly when the analysis stores a score under the line-count key, and the value is that score. |
| LineCount.SummaryIsTotalContribution | src/metrics/line_count.rs:31-58 | `SummaryLinesCountMetric` is the sum of the stored line-count scores of the entries. Entries without one add nothing. |
| LineCount.SummaryIgnoresNestedContent | src/metrics/line_count.rs:47-54 | A folder entry adds its own stored score, whatever it contains. |
| LegacyAnalysis.RecordMetricsContents | src/analysis.rs:176-183 | Recording one file's metrics adds their keys and leaves other keys alone. Each key holds the answer of the last metric with that key. |
| LegacyAnalysis.RecordOverCoveredMap | src/analysis.rs:173-183 | A map whose keys are all overwritten ends up the map of the last file alone. |
| LegacyAnalysis.AnalyseFilesEntries | src/analysis.rs:176-189 | Analysing succeeds exactly when every file has a name. It gives one file entry per file, and the map of the last file. |
| LegacyAnalysis.FileEntryAnswers | src/analysis.rs:176-189 | With distinct keys, a file's map holds each metric's answer under its key. |
| LegacyAnalysis.InternalAnalyseRootReport | src/analysis.rs:168-196 | `InternalAnalyseRoot` gives a report exactly when the root and all files have names. It is keyed by the root's name, lists one entry per file, and carries the last file's metrics. |
| LegacyAnalysis.EmptyRootAnalysis | src/analysis.rs:168-196 | A named root with no files reports an empty folder with no metrics. |
| LegacyAnalysis.CanFileBeAnalysed | src/analysis.rs:227-233 | An item, given as text, is analysed exactly when its components end in a file name that does not start with a dot. |
| LegacyAnalysis.ExtractAnalysedItemKey | src/analysis.rs:235-242 | The key is the file name, or, when the path has none, the text the path was given as (`as_os_str`). |
| LegacyAnalysis.PlainEntries | src/analysis.rs:227-242 | For the text of a path of plain names, the key is its last name, with no slash. The item is analysed unless that name starts with a dot. |
| LegacyAnalysis.PushedEntries | src/analysis.rs:227-242 | An entry pushed under a plain name onto any folder text is keyed by that name, and analysed unless the name starts with a dot. |
| LegacyAnalysis.UnnamedEntries | src/analysis.rs:227-242 | The root `/`, or text whose components end in `.` or `..`, is never analysed and is keyed by the text exactly as given. |
| LegacyAnalysis.UnnamedRootKeys | src/analysis.rs:235-242 | The roots `./`, `.//`, `../`, `/` and the empty text are keyed by their own text, trailing separators included. |
| LegacyAnalysis.FolderMetrics | src/analysis.rs:136-144 | A folder's metric map has exactly the line-count and social-complexity keys. |
| LegacyAnalysis.FolderOf | src/analysis.rs:129-152 | A folder analysis is keyed like any item and holds the given content. |
| LegacyAnalysis.FolderMetricsAreLineTotals | src/analysis.rs:129-152 | Both folder metrics are the entries' line-count total, cut to a `u32`. |
| CliLib.SummaryAppend | src/cli/cli_lib.rs:120-133 | The summary of two lists of entries is the sum of their summaries. |
| CliLib.SummaryOfEntries | src/cli/cli_lib.rs:120-133 | No entries sum to 0, and one more entry adds its own metric. |
| CliLib.SummaryLinesMetric | src/cli/cli_lib.rs:120-133 | Each entry's own metric is at most the summary; `SummaryAppend` and `SummaryOfEntries` give the exact sum. |
| CliLib.SortByName | src/cli/cli_lib.rs:81-87 | Sorting is a permutation of the entries. |
| CliLib.SortByNameSorted | src/cli/cli_lib.rs:81-87 | Sorted entries are in file-name order. |
| CliLib.ShownTotalSort | src/cli/cli_lib.rs:48-64 | Sorting does not change the total of the shown entries. |
| CliLib.AnalyseFolder | src/cli/cli_lib.rs:48-64 | A folder is analysed as a folder, keyed like any item. |
| CliLib.AnalyseCountsVisibleLines | src/cli/cli_lib.rs:48-64 | A folder's metric is the total line count of the visible files below it, through visible folders only. |
| CliLib.FolderContentIsSortedShownEntries | src/cli/cli_lib.rs:48-64 | A folder's content is its visible entries' analyses, sorted by name, a permutation of what was read. |
| CliLib.Analyse | src/cli/cli_lib.rs:66-74 | A file is analysed as a file and a directory as a folder. |
| CliLib.AnalyseRoot | src/cli/cli_lib.rs:76-87 | A root is analysed exactly when it is a directory, and is keyed from the text it was given as. |
| CliLib.UnnamedRootKeepsItsText | src/cli/cli_lib.rs:111-118 | A root given as `./` or `../` is keyed `./` or `../`. |
| CliLib.ShownEntries | src/cli/cli_lib.rs:103-118 | An entry with a plain name is shown exactly when the name does not start with a dot, and is keyed by the name, whatever text its folder was given as. |
| CliLib.ReadMetrics | src/cli/cli_lib.rs:34-37 | Whatever reads back as metrics is those metrics written. |
| CliLib.ToJson | src/cli/cli_lib.rs:142-169 | Every analysis is written as an object with one member. |
| CliLib.BuildJsonFolderAnalysis | src/cli/cli_lib.rs:142-159 | A folder is written as an object with one member, named by the folder key. |
| CliLib.BuildJsonFileAnalysis | src/cli/cli_lib.rs:161-169 | A file is written as an object with one member, named by the file key. |
| CliLib.FromJsonToJson | src/cli/cli_lib.rs:142-169 | Reading back a written analysis gives it back. |
| CliLib.ToJsonFromJson | src/cli/cli_lib.rs:142-169 | Whatever reads back as an analysis is that analysis written. |
| CliLib.JsonShapes | src/cli/cli_lib.rs:142-169 | A folder is written with its metrics and one element per entry, in order; a file with its metrics alone. |
| Json.ShapesAreOrderedObjects | src/formatters/json.rs:25-42 | Both written shapes are ordered objects with one member named after the record; inside, `folder_content` precedes `metrics`. |
| JsonFormatter.ConvertAnalysisToJson | src/formatters/json.rs:9-15 | Every record is written as an object with the single member named by its id. |
| JsonFormatter.BuildJsonFolderAnalysis | src/formatters/json.rs:17-33 | A folder is written as an object with the single member named by its id. |
| JsonFormatter.ContentItems | src/formatters/json.rs:18-24 | One element per content entry; no content gives an empty array. |
| JsonFormatter.BuildJsonFileAnalysis | src/formatters/json.rs:35-43 | A file is written as an object with the single member named by its id. |
| JsonFormatter.ConvertShapes | src/formatters/json.rs:9-43 | A record with content is written in the folder shape, its entries converted in order. One without content is written in the file shape. |
| JsonFormatter.DecodeConvert | src/formatters/json.rs:9-43 | A record whose entries are named after their ids reads back unchanged. |
| JsonFormatter.ConvertDecode | src/formatters/json.rs:9-43 | Whatever reads back as a record is that record written, and its entries are named after their ids. |
| JsonFormatter.EntryNamesAreNotWritten | src/formatters/json.rs:20-23 | Two folders whose entries differ only in their names are written identically. |
| Backlog.SplitDependencies | backlog.py:12 | Every dependency parsed is non-empty and has no space. |
| Backlog.DependenciesKeepAllButSpaces | backlog.py:12 | The dependencies, concatenated, are the string with its spaces removed. |
| Backlog.SplitDependenciesOfJoinedIds | backlog.py:12 | Space-separated ids parse back to exactly those ids. |
| Backlog.TwoDependencies | backlog.py:12 | `"SIZE4 RB4"` gives the two ids `SIZE4` and `RB4`. |
| Backlog.NewItem | backlog.py:9-14 | An item keeps its id, caption and done flag. |
| Backlog.NoDependencies | backlog.py:9-14 | An empty dependency string gives no dependencies. |
| Backlog.NodeOf | backlog.py:32-36 | A node carries the item's id and caption. It is coloured done exactly when the item is done, and to-do otherwise. |
| Backlog.ClusterName | backlog.py:27 | A cluster name has no space. |
| Backlog.ClusterNameIsPrefixedName | backlog.py:27 | A cluster is named `cluster_` followed by the direction name without its spaces. |
| Backlog.AppendDependencyEdges | backlog.py:43-44 | An item adds one edge per dependency, after the edges already collected. |
| Backlog.ItemsEdgesMembers | backlog.py:43-44 | An edge is drawn from `a` to `b` exactly when some item `b` lists `a` among its dependencies. |
| Backlog.DrawItems | backlog.py:30-44 | Each item gets its node, in order; each item is linked to the next; all dependency edges are collected. |
| Backlog.DrawDirection | backlog.py:26-44 | A direction is drawn as its cluster, and its dependency edges are collected. |
| Backlog.PrintGraphviz | backlog.py:22-47 | One cluster per direction, in order. Then the dependency edges of every item of every direction, in order. |
| Backlog.GraphCounts | backlog.py:22-47 | The graph has one node per item and one link fewer than items per direction. |
| Backlog.ExplicitEdgesCount | backlog.py:43-47 | There is one explicit edge per declared dependency. |
| FsGenerator.CreateFilesInDirectory | fs_generator/src/main.rs:6-27 | Depth 0 writes nothing, and any positive depth writes something. |
| FsGenerator.WidthZero | fs_generator/src/main.rs:10-13 | A width of 0 makes only the starting directory. |
| FsGenerator.FileWrites | fs_generator/src/main.rs:13-21 | A pass writes `file0.txt`, `file1.txt`, … in order, each holding the line repeated `num_lines` times. |
| FsGenerator.WritesAreReached | fs_generator/src/main.rs:6-27 | Every directory made is at a reachable index path. Every file written there is one of the first `total_files / width`, with the repeated line. |
| FsGenerator.ReachedAreWritten | fs_generator/src/main.rs:6-27 | Every reachable directory is made. With a positive width, each of its `total_files / width` files is written. |
| FsGenerator.FilesRewrittenEachPass | fs_generator/src/main.rs:12-14 | At the last level, the files are written again on each of the `width` passes of the outer loop. |
| FsGenerator.ParseUsize | fs_generator/src/main.rs:37-43 | A parsed number fits in a 64-bit `usize`. |
| FsGenerator.ParseUsizeOfDecimal | fs_generator/src/main.rs:37-67 | The decimal text of any `usize` parses back to it. |
| FsGenerator.ParseUsizeRefuses | fs_generator/src/main.rs:37-67 | An empty text, a lone `+` and a text not starting with a digit or `+` are refused. |
| FsGenerator.RunGenerator | fs_generator/src/main.rs:32-35 | Without exactly four arguments the program prints its usage and writes nothing. It panics when not even the program name is given. |
| FsGenerator.RunGeneratorWrites | fs_generator/src/main.rs:29-73 | Files are written exactly when all four arguments parse. Then the writes are those of the generator from `root_directory`, with the parsed arguments. |

## Left out

- The file system is an input value. This covers directory walking (`glob`, `read_dir`), file reading and `create_dir_all`. The same goes for the discovery in `data_sources/` and the test tree of `cucumber` and `e2e`. No I/O error is modelled except where the code turns one into a value.
- `SocialComplexityMetric::analyse` calls into git (`git2`) and is not modelled. A file's author list, or its failure, is an input.
- `format_json_output` writes text to standard output. The model stops at the JSON value; serialisation and printing are left out.
- The DOT text that `print_graphiz` prints is left out; the graph it describes is modelled. Backlog items are written in the source as data; the model takes them as input.
- `src/main.rs`, `src/cli/mod.rs` and `src/metrics/metric.rs` are left out: they are argument parsing and trait plumbing. The `integration/` crate and `analysis_module/public_analysis.rs` are left out as well.
- Integer widths: `u64`/`usize` overflow in the sums is not modelled, since integers are unbounded. Only the `as u32` casts of `count_lines` and of the older folder metrics are written out, as `% 2^32`.
- LinesCount.Aggregate: in the arms of src/metrics/lines_count.rs:68-82 where the other value is an author list, `MetricValueType`'s addition and `get_value` are not part of this model. The result is taken as the `Ok(0)` those arms fall back to.
- The older `models::FileAnalysis` declares a two-field `Metrics` struct, but `line_count.rs` reads a file's metrics as a map by key. The model follows `line_count.rs` and gives every analysis a map.
- The older pipeline's `analyse_file` builds a `Metrics` struct and calls `social_complexity(".")`; that struct and the git call are not modelled. A legacy metric's answer is an unbounded number, not a `u32`.
- CliLib.AnalyseFolder: each entry is analysed before the entries are sorted and filtered. This gives the same result, because analysis is a pure function here. Hidden entries are therefore analysed and then dropped.
- JsonFormatter.DecodeConvert: the formatter does not write a folder entry's map key, only the entry's own id. The round trip therefore holds for records whose entries are named after their ids. The type of the record read by `formatters/json.rs` is not part of this model; it is an id, a JSON metrics value and an optional list of entries.
- SocialComplexity.UnionLength: the union is at least as long as the other list only when that list has no duplicates. With duplicates it can be shorter, because the union loop skips authors already added.
- FsGenerator.RunGenerator: `eprintln!` messages are modelled as the text of a refusal. I/O failure is not modelled: `create_dir_all`, `File::create` and `write_all` pass their errors on with `?` (`fs_generator/src/main.rs` lines 10, 15, 19 and 23), so the first failure stops the whole tree and `main` prints it (lines 70-72). The model assumes every write succeeds and always produces the full sequence.
- The internal analysis takes the root as the text it was given, because the re-rooting tests that text as a string prefix. The discovered files are component sequences whose text is their `Display`; the file explorer that produces them is not part of this model.
