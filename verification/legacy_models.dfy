/**
 * The analysis records of the older pipeline (`src/analysis.rs`, module `models`): file and
 * folder analyses whose metrics are a map from metric key to a score or an error.
 */
module LegacyModels {

  /** `MetricsValueType`: a score (a `u32`) or the text of an error. */
  datatype MetricsValue = Score(score: nat) | Error(error: string)

  type MetricsMap = map<string, MetricsValue>

  /**
   * `Analysis`: a file, or a folder with the analyses of its entries. Both carry a metric map;
   * the file's map is read by key in `line_count.rs` even though the record declares a
   * two-field struct there (see the README).
   */
  datatype Analysis =
    | FileAnalysis(fileKey: string, metrics: MetricsMap)
    | FolderAnalysis(folderKey: string, metrics: MetricsMap, folderContent: seq<Analysis>)

  /** `AnalysisTest` and `RootAnalysis`: what `internal_analyse_root` reports. */
  datatype AnalysisTest =
    | FileAnalysisTest(fileKey: string, metrics: MetricsMap)
    | FolderAnalysisTest(folder: RootAnalysis)

  datatype RootAnalysis = RootAnalysis(folderKey: string, metrics: MetricsMap, folderContent: seq<AnalysisTest>)

  /** The largest `u32` plus one: `as u32` keeps a number modulo this. */
  const U32Modulus: nat := 0x1_0000_0000
}
