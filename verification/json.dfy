/**
 * The part of `serde_json::Value` the formatters build: objects keep their members ordered by
 * name (serde_json's default map is a `BTreeMap`), and the two shapes every analysis record is
 * written in.
 */
module Json {
  import opened Wrappers
  import opened Text

  datatype Json =
    | JNull
    | JBool(b: bool)
    | JNum(n: int)
    | JStr(s: string)
    | JArr(items: seq<Json>)
    | JObj(members: seq<Member>)

  datatype Member = Member(name: string, value: Json)

  function Names(members: seq<Member>): (r: seq<string>)
    ensures |r| == |members|
    ensures forall i :: 0 <= i < |members| ==> r[i] == members[i].name
  {
    seq(|members|, i requires 0 <= i < |members| => members[i].name)
  }

  /** An object as serde_json holds one: member names distinct and in increasing order. */
  predicate IsOrderedObject(j: Json) {
    j.JObj? && StrictlyIncreasing(Names(j.members))
  }

  const MetricsName := "metrics"
  const FolderContentName := "folder_content"

  /** `{ id: { "metrics": metrics } }`: how a file is written. */
  function FileShape(id: string, metrics: Json): Json {
    JObj([Member(id, JObj([Member(MetricsName, metrics)]))])
  }

  /**
   * `{ id: { "metrics": metrics, "folder_content": items } }`: how a folder is written. The
   * inner object lists "folder_content" first, the order of its map.
   */
  function FolderShape(id: string, metrics: Json, items: seq<Json>): Json {
    JObj([Member(id, JObj([Member(FolderContentName, JArr(items)), Member(MetricsName, metrics)]))])
  }

  /** Both shapes are objects with one member, named after the record, whose value is an ordered object. */
  lemma ShapesAreOrderedObjects(id: string, metrics: Json, items: seq<Json>)
    ensures IsOrderedObject(FileShape(id, metrics)) && IsOrderedObject(FileShape(id, metrics).members[0].value)
    ensures IsOrderedObject(FolderShape(id, metrics, items)) && IsOrderedObject(FolderShape(id, metrics, items).members[0].value)
    ensures Names(FileShape(id, metrics).members) == Names(FolderShape(id, metrics, items).members) == [id]
  {
    assert Less(FolderContentName, MetricsName) by {
      assert FolderContentName[0] == 'f' && MetricsName[0] == 'm';
    }
  }

  /** What a value written in one of the two shapes holds. */
  datatype Shape =
    | FileShaped(id: string, metrics: Json)
    | FolderShaped(id: string, metrics: Json, items: seq<Json>)

  /** Recognises the two shapes; any other value is not an analysis record. */
  function ReadShape(j: Json): (r: Option<Shape>)
    ensures r.Some? && r.value.FileShaped? ==> j == FileShape(r.value.id, r.value.metrics)
    ensures r.Some? && r.value.FolderShaped? ==> j == FolderShape(r.value.id, r.value.metrics, r.value.items)
  {
    match j
    case JObj(outer) =>
      if |outer| != 1 then None
      else
        (match outer[0].value
        case JObj(inner) =>
          if |inner| == 1 && inner[0].name == MetricsName then
            assert j == FileShape(outer[0].name, inner[0].value) by {
              assert outer == [outer[0]] && inner == [inner[0]];
            }
            Some(FileShaped(outer[0].name, inner[0].value))
          else if |inner| == 2 && inner[0].name == FolderContentName && inner[1].name == MetricsName
              && inner[0].value.JArr? then
            assert j == FolderShape(outer[0].name, inner[1].value, inner[0].value.items) by {
              assert outer == [outer[0]] && inner == [inner[0], inner[1]];
            }
            Some(FolderShaped(outer[0].name, inner[1].value, inner[0].value.items))
          else None
        case _ => None)
    case _ => None
  }

  /** Reading a written file or folder gives back what was written. */
  lemma ReadWrittenShapes(id: string, metrics: Json, items: seq<Json>)
    ensures ReadShape(FileShape(id, metrics)) == Some(FileShaped(id, metrics))
    ensures ReadShape(FolderShape(id, metrics, items)) == Some(FolderShaped(id, metrics, items))
  {
  }
}
