/**
 * `formatters/json.rs`: an analysis record written as nested JSON objects, a folder with its
 * "folder_content" array and a file without one.
 */
module JsonFormatter {
  import opened Wrappers
  import opened Json

  /**
   * The analysis record the formatter reads: an id, its metrics (already a JSON value), and
   * for a folder the entries of its content map in iteration order.
   */
  datatype Analysis = Analysis(id: string, metrics: Json, content: Content)

  datatype Content = NoContent | Entries(entries: seq<Entry>)

  datatype Entry = Entry(name: string, analysis: Analysis)

  /** `convert_analysis_to_json`: the folder shape when there is content, the file shape otherwise. */
  function ConvertAnalysisToJson(a: Analysis): (r: Json)
    ensures r.JObj? && Names(r.members) == [a.id]
    decreases a, 2
  {
    if a.content.Entries? then BuildJsonFolderAnalysis(a) else BuildJsonFileAnalysis(a)
  }

  /** `build_json_folder_analysis`: each entry converted in turn; no content gives an empty array. */
  function BuildJsonFolderAnalysis(folder: Analysis): (r: Json)
    ensures r.JObj? && Names(r.members) == [folder.id]
    decreases folder, 1
  {
    FolderShape(folder.id, folder.metrics, ContentItems(folder))
  }

  /** The `folder_content` array: one converted entry per content entry, in order. */
  function ContentItems(folder: Analysis): (r: seq<Json>)
    ensures folder.content.Entries? ==> |r| == |folder.content.entries|
    ensures folder.content.NoContent? ==> r == []
    decreases folder, 0
  {
    match folder.content
    case NoContent => []
    case Entries(es) => seq(|es|, i requires 0 <= i < |es| => ConvertAnalysisToJson(es[i].analysis))
  }

  /** `build_json_file_analysis`: the id and the metrics, whatever the content. */
  function BuildJsonFileAnalysis(file: Analysis): (r: Json)
    ensures r.JObj? && Names(r.members) == [file.id]
  {
    FileShape(file.id, file.metrics)
  }

  /**
   * Reads a written record back. The names of the content entries are not written, so each
   * entry is named after the id of its record.
   */
  function Decode(j: Json): Option<Analysis> {
    match ReadShape(j)
    case None => None
    case Some(FileShaped(id, metrics)) => Some(Analysis(id, metrics, NoContent))
    case Some(FolderShaped(id, metrics, items)) =>
      assert j == FolderShape(id, metrics, items);
      var decoded := seq(|items|, i requires 0 <= i < |items| => Decode(items[i]));
      if forall i :: 0 <= i < |decoded| ==> decoded[i].Some? then
        Some(Analysis(id, metrics, Entries(seq(|items|, i requires 0 <= i < |items| =>
          Entry(decoded[i].value.id, decoded[i].value)))))
      else None
  }

  /** Every content entry is named after the id of its record, at every depth. */
  predicate WellKeyed(a: Analysis) {
    match a.content
    case NoContent => true
    case Entries(es) =>
      forall i :: 0 <= i < |es| ==> es[i].name == es[i].analysis.id && WellKeyed(es[i].analysis)
  }

  /**
   * A folder is written as a one-member object keyed by its id holding "folder_content" and
   * "metrics", with one element per entry in entry order; a file as a one-member object
   * holding only "metrics".
   */
  lemma ConvertShapes(a: Analysis)
    ensures a.content.Entries? ==>
      ReadShape(ConvertAnalysisToJson(a)) == Some(FolderShaped(a.id, a.metrics, ContentItems(a)))
    ensures a.content.Entries? ==> forall i :: 0 <= i < |a.content.entries| ==>
      ContentItems(a)[i] == ConvertAnalysisToJson(a.content.entries[i].analysis)
    ensures a.content.NoContent? ==>
      ReadShape(ConvertAnalysisToJson(a)) == Some(FileShaped(a.id, a.metrics))
  {
    ReadWrittenShapes(a.id, a.metrics, ContentItems(a));
  }

  /** Reading back a written record whose entries are named after their records gives it back. */
  lemma {:induction false} DecodeConvert(a: Analysis)
    requires WellKeyed(a)
    ensures Decode(ConvertAnalysisToJson(a)) == Some(a)
    decreases a
  {
    ConvertShapes(a);
    match a.content
    case NoContent =>
    case Entries(es) =>
      var items := ContentItems(a);
      forall i | 0 <= i < |es| ensures Decode(items[i]) == Some(es[i].analysis) {
        DecodeConvert(es[i].analysis);
      }
      var decoded := seq(|items|, i requires 0 <= i < |items| => Decode(items[i]));
      assert forall i :: 0 <= i < |decoded| ==> decoded[i] == Some(es[i].analysis);
      assert seq(|items|, i requires 0 <= i < |items| => Entry(decoded[i].value.id, decoded[i].value)) == es;
  }

  /** Whatever reads back as a record is exactly that record written, and its entries are well keyed. */
  lemma {:induction false} ConvertDecode(j: Json)
    requires Decode(j).Some?
    ensures WellKeyed(Decode(j).value)
    ensures ConvertAnalysisToJson(Decode(j).value) == j
    decreases j
  {
    match ReadShape(j)
    case Some(FileShaped(id, metrics)) =>
    case Some(FolderShaped(id, metrics, items)) =>
      assert j == FolderShape(id, metrics, items);
      var decoded := seq(|items|, i requires 0 <= i < |items| => Decode(items[i]));
      assert forall i :: 0 <= i < |items| ==> decoded[i].Some?;
      var a := Decode(j).value;
      var es := a.content.entries;
      assert |es| == |items|;
      forall i | 0 <= i < |items|
        ensures Decode(items[i]).Some?
        ensures es[i] == Entry(Decode(items[i]).value.id, Decode(items[i]).value)
        ensures ConvertAnalysisToJson(es[i].analysis) == items[i]
        ensures WellKeyed(es[i].analysis)
      {
        assert decoded[i] == Decode(items[i]);
        ConvertDecode(items[i]);
      }
      assert ContentItems(a) == items;
  }

  /** Entry names are not written: two folders whose entries differ only in names look the same. */
  lemma EntryNamesAreNotWritten(id: string, metrics: Json, es1: seq<Entry>, es2: seq<Entry>)
    requires |es1| == |es2|
    requires forall i :: 0 <= i < |es1| ==> es1[i].analysis == es2[i].analysis
    ensures ConvertAnalysisToJson(Analysis(id, metrics, Entries(es1)))
         == ConvertAnalysisToJson(Analysis(id, metrics, Entries(es2)))
  {
    var a1 := Analysis(id, metrics, Entries(es1));
    var a2 := Analysis(id, metrics, Entries(es2));
    assert ContentItems(a1) == ContentItems(a2);
  }
}
