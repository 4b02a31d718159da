/**
 * `GraphRAGExtractor` (deal_graph.py): turns the entity and relationship
 * tables of one GraphRAG output into an entity dictionary and a triple list,
 * every record tagged with the extractor's partition id.
 */
module GraphExtract {
  import opened Wrappers
  import opened Text
  import opened Records
  import TripleImport
  import Numbers

  datatype Extractor = Extractor(inputDir: string, outputDir: string, gragId: string)

  /** `os.path.join(a, b)` for a relative `b`. */
  function PathJoin(a: string, b: string): string
  {
    if a == "" then b else if a[|a| - 1] == '/' then a + b else a + "/" + b
  }

  /**
   * The constructor: a blank partition id raises `ValueError`; the id is
   * kept stripped, and the output directory defaults to
   * `<input_dir>/extracted_data`.
   */
  function NewExtractor(inputDir: string, outputDir: Option<string>, gragId: string): (r: Result<Extractor>)
    ensures r.Failure? <==> AllSpace(gragId)
    ensures r.Success? ==> r.value.gragId == Strip(gragId) && r.value.gragId != "" && r.value.inputDir == inputDir
    ensures r.Success? ==> r.value.outputDir == outputDir.UnwrapOr(PathJoin(inputDir, "extracted_data"))
  {
    if gragId == "" || Strip(gragId) == "" then Failure("ValueError: grag_id must not be empty")
    else Success(Extractor(inputDir, outputDir.UnwrapOr(PathJoin(inputDir, "extracted_data")), Strip(gragId)))
  }

  datatype Entity = Entity(id: string, name: string, entityType: string, description: string, degree: Cell, gragId: string)

  /**
   * `int(c) if pd.notna(c) else default`: a missing or NaN cell gives the
   * default, any other cell is converted and may raise.
   */
  function IntOr(c: Cell, default: Cell): (r: Result<Cell>)
    ensures r.Failure? <==> Available(c) && Numbers.IntCell(c).Failure?
    ensures r.Success? && Available(c) ==> r.value.Number? && Numbers.IntRepr(r.value.repr)
    ensures !Available(c) ==> r == Success(default)
  {
    if Available(c) then Numbers.IntCell(c) else Success(default)
  }

  /** `float(c) if pd.notna(c) else default`. */
  function FloatOr(c: Cell, default: Cell): (r: Result<Cell>)
    ensures r.Failure? <==> Available(c) && c.Text? && !Numbers.FloatText(c.s)
    ensures r.Success? && Available(c) ==> r.value.Number? && !Numbers.IntRepr(r.value.repr)
    ensures !Available(c) ==> r == Success(default)
  {
    if Available(c) then Numbers.FloatCell(c) else Success(default)
  }

  /** The `degree` of an entity row, as `int`, defaulting to 0. */
  function Degree(row: Record): Result<Cell>
  {
    IntOr(GetOr(row, "degree", Null), Number("0"))
  }

  /** A number cell holding the text of an int. */
  predicate IntText(c: Cell)
  {
    c.Number? && Numbers.IntRepr(c.repr)
  }

  /** The row's `degree` converts: it is missing, NaN, or something `int()` accepts. */
  predicate EntityConverts(row: Record)
  {
    Degree(row).Success?
  }

  /** The key of an entity row: its `id`, else its `human_readable_id`, else "". */
  function EntityId(row: Record): string
  {
    Str(GetOr(row, "id", GetOr(row, "human_readable_id", Text(""))))
  }

  /** The entity record of one row; converting its degree may raise. */
  function EntityOf(row: Record, gragId: string): (r: Result<Entity>)
    ensures r.Success? <==> EntityConverts(row)
    ensures r.Failure? ==> r.error == Degree(row).error
    ensures r.Success? ==> r.value.id == EntityId(row) && r.value.gragId == gragId
    ensures r.Success? && "type" !in row ==> r.value.entityType == "ENTITY"
    ensures r.Success? && "name" !in row ==> r.value.name == Str(GetOr(row, "title", Text("")))
    ensures r.Success? ==> IntText(r.value.degree)
  {
    var degree :- Degree(row);
    assert Numbers.IntRepr("0") by { assert "0"[0] != '-'; }
    Success(Entity(EntityId(row),
                   Str(GetOr(row, "name", GetOr(row, "title", Text("")))),
                   Str(GetOr(row, "type", Text("ENTITY"))),
                   Str(GetOr(row, "description", Text(""))),
                   degree,
                   gragId))
  }

  type EntityDict = seq<(string, Entity)>

  /** `d[k] = v`: overwrite in place when present, else append. */
  function Put(d: EntityDict, k: string, v: Entity): (r: EntityDict)
    ensures Keys(r) == if k in Keys(d) then Keys(d) else Keys(d) + [k]
    ensures |d| <= |r| && forall i :: 0 <= i < |d| ==> r[i] == (if d[i].0 == k then (k, v) else d[i])
    ensures k !in Keys(d) ==> r == d + [(k, v)]
  {
    if k in Keys(d) then
      seq(|d|, i requires 0 <= i < |d| => if d[i].0 == k then (k, v) else d[i])
    else
      var r := d + [(k, v)];
      assert Keys(r) == Keys(d) + [k];
      r
  }

  /**
   * `extract_entities`: the rows in order, each entity under its own id and
   * tagged with the partition; the first row whose degree does not convert
   * raises.
   */
  function ExtractEntities(rows: seq<Record>, gragId: string): (r: Result<EntityDict>)
    ensures r.Success? <==> forall i :: 0 <= i < |rows| ==> EntityConverts(rows[i])
    ensures r.Success? ==> forall i :: 0 <= i < |r.value| ==> r.value[i].1.id == r.value[i].0 && r.value[i].1.gragId == gragId
  {
    if rows == [] then Success([])
    else
      var init := rows[..|rows| - 1];
      var row := rows[|rows| - 1];
      assert rows == init + [row];
      AllSnoc(init, row, EntityConverts);
      var d :- ExtractEntities(init, gragId);
      var e :- EntityOf(row, gragId);
      Success(Put(d, EntityId(row), e))
  }

  /** The error `extract_entities` raises is that of the first row whose degree does not convert. */
  lemma {:induction false} ExtractEntitiesFirstError(rows: seq<Record>, gragId: string, k: nat)
    requires k < |rows| && !EntityConverts(rows[k]) && forall j :: 0 <= j < k ==> EntityConverts(rows[j])
    ensures ExtractEntities(rows, gragId) == Failure(Degree(rows[k]).error)
  {
    var init := rows[..|rows| - 1];
    var row := rows[|rows| - 1];
    if k < |rows| - 1 {
      assert forall j :: 0 <= j <= k ==> init[j] == rows[j];
      ExtractEntitiesFirstError(init, gragId, k);
    } else {
      assert forall j :: 0 <= j < |init| ==> init[j] == rows[j];
      assert ExtractEntities(init, gragId).Success?;
      assert EntityOf(row, gragId) == Failure(Degree(row).error);
    }
  }

  function Ids(rows: seq<Record>): (ids: seq<string>)
    ensures |ids| == |rows| && forall i :: 0 <= i < |rows| ==> ids[i] == EntityId(rows[i])
  {
    seq(|rows|, i requires 0 <= i < |rows| => EntityId(rows[i]))
  }

  /** The dictionary's keys are the distinct ids, in order of first appearance. */
  lemma {:induction false} ExtractEntitiesKeys(rows: seq<Record>, gragId: string)
    requires ExtractEntities(rows, gragId).Success?
    ensures Keys(ExtractEntities(rows, gragId).value) == Dedup(Ids(rows))
  {
    if rows != [] {
      var init := rows[..|rows| - 1];
      var row := rows[|rows| - 1];
      assert forall i :: 0 <= i < |init| ==> init[i] == rows[i];
      ExtractEntitiesKeys(init, gragId);
      IdsSnoc(rows);
      PutKeys(ExtractEntities(init, gragId).value, EntityId(row), EntityOf(row, gragId).value, Ids(init));
    }
  }

  lemma IdsSnoc(rows: seq<Record>)
    requires rows != []
    ensures Ids(rows) == Ids(rows[..|rows| - 1]) + [EntityId(rows[|rows| - 1])]
  {
  }

  /** Putting a key into a dictionary keyed by the distinct `ks` keys it by the distinct `ks + [k]`. */
  lemma PutKeys(d: EntityDict, k: string, v: Entity, ks: seq<string>)
    requires Keys(d) == Dedup(ks)
    ensures Keys(Put(d, k, v)) == Dedup(ks + [k])
  {
    DedupSnoc(ks, k);
  }

  /** The entity under key `k`, looked up as `entity_dict.get(k)`. */
  function LookupEntity(d: EntityDict, k: string): (r: Option<Entity>)
    ensures r.None? <==> k !in Keys(d)
    ensures r.Some? ==> (k, r.value) in d
  {
    if d == [] then None
    else if d[0].0 == k then Some(d[0].1)
    else
      assert Keys(d) == [d[0].0] + Keys(d[1..]);
      LookupEntity(d[1..], k)
  }

  /** Every entry under key `k` holds `e`. */
  predicate HoldsOnly(d: EntityDict, k: string, e: Entity)
  {
    forall m :: 0 <= m < |d| && d[m].0 == k ==> d[m].1 == e
  }

  /** A later row with another id leaves the entries under `k` alone. */
  lemma PutOther(d: EntityDict, k: string, e: Entity, k': string, v: Entity)
    requires k' != k && HoldsOnly(d, k, e) && (k, e) in d
    ensures HoldsOnly(Put(d, k', v), k, e) && (k, e) in Put(d, k', v)
  {
    var r := Put(d, k', v);
    var j :| 0 <= j < |d| && d[j] == (k, e);
    assert r[j] == d[j];
    forall m | 0 <= m < |r| && r[m].0 == k ensures r[m].1 == e {
      if m < |d| {
        assert r[m] == d[m];
      }
    }
  }

  /** Putting `k` makes `v` the only value under `k`. */
  lemma PutSame(d: EntityDict, k: string, v: Entity)
    ensures HoldsOnly(Put(d, k, v), k, v) && (k, v) in Put(d, k, v)
  {
    var r := Put(d, k, v);
    if k in Keys(d) {
      var j :| 0 <= j < |d| && Keys(d)[j] == k;
      assert r[j] == (k, v);
    } else {
      assert r[|d|] == (k, v);
    }
  }

  /** The last row whose id is `k` is the one the dictionary keeps. */
  lemma {:induction false} ExtractEntitiesLastWins(rows: seq<Record>, gragId: string, i: nat)
    requires ExtractEntities(rows, gragId).Success?
    requires i < |rows| && forall j :: i < j < |rows| ==> EntityId(rows[j]) != EntityId(rows[i])
    ensures (EntityId(rows[i]), EntityOf(rows[i], gragId).value) in ExtractEntities(rows, gragId).value
    ensures HoldsOnly(ExtractEntities(rows, gragId).value, EntityId(rows[i]), EntityOf(rows[i], gragId).value)
  {
    var init := rows[..|rows| - 1];
    var row := rows[|rows| - 1];
    assert forall j :: 0 <= j < |init| ==> init[j] == rows[j];
    var d := ExtractEntities(init, gragId).value;
    if i == |rows| - 1 {
      PutSame(d, EntityId(row), EntityOf(row, gragId).value);
    } else {
      ExtractEntitiesLastWins(init, gragId, i);
      PutOther(d, EntityId(rows[i]), EntityOf(rows[i], gragId).value, EntityId(row), EntityOf(row, gragId).value);
    }
  }

  datatype Triple = Triple(
    id: string, subject: string, subjectId: string, relation: string,
    obj: string, objectId: string, weight: Cell, description: string,
    sourceDegree: Cell, targetDegree: Cell, rank: Cell, gragId: string)

  /** `entity_dict.get(id, {}).get('name', id)`. */
  function NameOf(d: EntityDict, id: string): (n: string)
    ensures id !in Keys(d) ==> n == id
  {
    match LookupEntity(d, id)
    case Some(e) => e.name
    case None => id
  }

  /** The conversions of a relationship row, in the order the triple's fields are built. */
  function Weight(row: Record): Result<Cell>
  {
    FloatOr(GetOr(row, "weight", Null), Number("1.0"))
  }

  function SourceDegree(row: Record): Result<Cell>
  {
    IntOr(GetOr(row, "source_degree", Null), Number("0"))
  }

  function TargetDegree(row: Record): Result<Cell>
  {
    IntOr(GetOr(row, "target_degree", Null), Number("0"))
  }

  function Rank(row: Record): Result<Cell>
  {
    IntOr(GetOr(row, "rank", Null), Number("0"))
  }

  /** The row's weight, degrees and rank all convert. */
  predicate TripleConverts(row: Record)
  {
    Weight(row).Success? && SourceDegree(row).Success? && TargetDegree(row).Success? && Rank(row).Success?
  }

  /** The triple of relationship row `idx`; the weight is converted first, then the degrees, then the rank. */
  function TripleOf(row: Record, idx: nat, d: EntityDict, gragId: string): (r: Result<Triple>)
    ensures r.Success? <==> TripleConverts(row)
    ensures Weight(row).Failure? ==> r == Failure(Weight(row).error)
    ensures r.Success? ==> r.value.id == "rel_" + NatToString(idx) && r.value.gragId == gragId
    ensures r.Success? ==> r.value.subjectId == Str(GetOr(row, "source", Text(""))) && r.value.objectId == Str(GetOr(row, "target", Text("")))
    ensures r.Success? && "type" !in row && "description" !in row ==> r.value.relation == "RELATED_TO"
    ensures r.Success? && !Available(GetOr(row, "weight", Null)) ==> r.value.weight == Number("1.0")
    ensures r.Success? ==> r.value.weight.Number? && !Numbers.IntRepr(r.value.weight.repr)
    ensures r.Success? ==> IntText(r.value.sourceDegree) && IntText(r.value.targetDegree) && IntText(r.value.rank)
  {
    var sourceId := Str(GetOr(row, "source", Text("")));
    var targetId := Str(GetOr(row, "target", Text("")));
    var weight :- Weight(row);
    var sourceDegree :- SourceDegree(row);
    var targetDegree :- TargetDegree(row);
    var rank :- Rank(row);
    assert Numbers.IntRepr("0") by { assert "0"[0] != '-'; }
    assert !Numbers.IntRepr("1.0") by { Numbers.PointNotInt("1"); assert "1" + ".0" == "1.0"; }
    Success(Triple("rel_" + NatToString(idx),
                   NameOf(d, sourceId), sourceId,
                   Str(GetOr(row, "type", GetOr(row, "description", Text("RELATED_TO")))),
                   NameOf(d, targetId), targetId,
                   weight,
                   Str(GetOr(row, "description", Text(""))),
                   sourceDegree, targetDegree, rank,
                   gragId))
  }

  /** The conversion of one relationship row at its position. */
  function TripleAt(d: EntityDict, gragId: string): (Record, nat) -> Result<Triple>
  {
    (row: Record, idx: nat) => TripleOf(row, idx, d, gragId)
  }

  /**
   * `extract_triples`: the rows in order, one triple per row numbered by its
   * position; the first row with a field that does not convert raises.
   */
  function ExtractTriples(rows: seq<Record>, d: EntityDict, gragId: string): (r: Result<seq<Triple>>)
    ensures r.Success? <==> forall i :: 0 <= i < |rows| ==> TripleConverts(rows[i])
    ensures r.Success? ==> |r.value| == |rows|
  {
    MapAllSuccess(rows, TripleAt(d, gragId));
    assert forall i :: 0 <= i < |rows| ==> TripleAt(d, gragId)(rows[i], i) == TripleOf(rows[i], i, d, gragId);
    MapAll(rows, TripleAt(d, gragId))
  }

  /** Triple `i` is the triple of relationship row `i`. */
  lemma ExtractTriplesContent(rows: seq<Record>, d: EntityDict, gragId: string)
    requires ExtractTriples(rows, d, gragId).Success?
    ensures forall i :: 0 <= i < |rows| ==> TripleOf(rows[i], i, d, gragId) == Success(ExtractTriples(rows, d, gragId).value[i])
  {
    MapAllContent(rows, TripleAt(d, gragId));
    assert forall i :: 0 <= i < |rows| ==> TripleAt(d, gragId)(rows[i], i) == TripleOf(rows[i], i, d, gragId);
  }

  /** The error `extract_triples` raises is that of the first row with a field that does not convert. */
  lemma ExtractTriplesFirstError(rows: seq<Record>, d: EntityDict, gragId: string, k: nat)
    requires k < |rows| && !TripleConverts(rows[k]) && forall j :: 0 <= j < k ==> TripleConverts(rows[j])
    ensures ExtractTriples(rows, d, gragId) == Failure(TripleOf(rows[k], k, d, gragId).error)
  {
    assert forall j :: 0 <= j <= k ==> TripleAt(d, gragId)(rows[j], j) == TripleOf(rows[j], j, d, gragId);
    MapAllFirstError(rows, TripleAt(d, gragId), k);
  }

  datatype GraphData = GraphData(gragId: string, sourceDirectory: string, entityCount: nat, tripleCount: nat,
                                 entities: EntityDict, triples: seq<Triple>, path: string)

  /** Every row of both tables converts. */
  predicate AllConvert(entityRows: seq<Record>, relationshipRows: seq<Record>)
  {
    (forall i :: 0 <= i < |entityRows| ==> EntityConverts(entityRows[i])) &&
    (forall i :: 0 <= i < |relationshipRows| ==> TripleConverts(relationshipRows[i]))
  }

  /**
   * `run()`: load both tables (either load may raise `FileNotFoundError`),
   * extract, and describe the file written to `<output_dir>/graph_data.json`.
   */
  function Run(x: Extractor, loadEntities: string -> Result<seq<Record>>, loadRelationships: string -> Result<seq<Record>>): (r: Result<GraphData>)
    ensures r.Success? <==> loadEntities(x.inputDir).Success? && loadRelationships(x.inputDir).Success? &&
                            AllConvert(loadEntities(x.inputDir).value, loadRelationships(x.inputDir).value)
    ensures r.Success? ==> r.value.entityCount == |r.value.entities| && r.value.tripleCount == |r.value.triples|
    ensures r.Success? ==> r.value.tripleCount == |loadRelationships(x.inputDir).value|
    ensures r.Success? ==> r.value.entityCount == |Dedup(Ids(loadEntities(x.inputDir).value))|
    ensures r.Success? ==> r.value.gragId == x.gragId && r.value.path == PathJoin(x.outputDir, "graph_data.json")
  {
    var entityRows :- loadEntities(x.inputDir);
    var relationshipRows :- loadRelationships(x.inputDir);
    var entities :- ExtractEntities(entityRows, x.gragId);
    ExtractEntitiesKeys(entityRows, x.gragId);
    var triples :- ExtractTriples(relationshipRows, entities, x.gragId);
    Success(GraphData(x.gragId, x.inputDir, |entities|, |triples|, entities, triples, PathJoin(x.outputDir, "graph_data.json")))
  }

  /** `main(input_dir, grag_id)`: the output path, or `None` for a blank id or any failure. */
  function Main(inputDir: string, gragId: string, loadEntities: string -> Result<seq<Record>>,
                loadRelationships: string -> Result<seq<Record>>): (r: Option<string>)
    ensures AllSpace(gragId) ==> r.None?
    ensures r.Some? ==> r.value == PathJoin(PathJoin(inputDir, "extracted_data"), "graph_data.json")
    ensures !AllSpace(gragId) ==>
      (r.Some? <==> loadEntities(inputDir).Success? && loadRelationships(inputDir).Success? &&
                    AllConvert(loadEntities(inputDir).value, loadRelationships(inputDir).value))
  {
    if gragId == "" || Strip(gragId) == "" then None
    else
      match NewExtractor(inputDir, None, gragId)
      case Failure(_) => None
      case Success(x) =>
        match Run(x, loadEntities, loadRelationships)
        case Success(data) => Some(data.path)
        case Failure(_) => None
  }

  // ---------------------------------------------------------------- hand-off to the importer

  /** A triple as the JSON object the importer reads back. */
  function AsRecord(t: Triple): Record
  {
    map["id" := Text(t.id), "subject" := Text(t.subject), "subject_id" := Text(t.subjectId),
        "predicate" := Text(t.relation), "object" := Text(t.obj), "object_id" := Text(t.objectId),
        "weight" := t.weight, "description" := Text(t.description), "source_degree" := t.sourceDegree,
        "target_degree" := t.targetDegree, "rank" := t.rank, "grag_id" := Text(t.gragId)]
  }

  /** The saved triple list as the importer reads it back. */
  function AsRecords(ts: seq<Triple>): (rs: seq<Record>)
    ensures |rs| == |ts| && forall i :: 0 <= i < |ts| ==> rs[i] == AsRecord(ts[i])
  {
    seq(|ts|, i requires 0 <= i < |ts| => AsRecord(ts[i]))
  }

  /**
   * Extracted triples always import: the importer recognises `subject_id`
   * and `object_id`, and every triple lands in a batch carrying the
   * extractor's partition id.
   */
  lemma ExtractedTriplesImport(ts: seq<Triple>)
    requires ts != []
    ensures TripleImport.ImportRelationships(AsRecords(ts)).Success?
    ensures TripleImport.ImportRelationships(AsRecords(ts)).value.Send?
    ensures TripleImport.Entries(AsRecords(ts), "subject_id", "object_id").Success?
    ensures forall i :: 0 <= i < |ts| ==>
      TripleImport.Entries(AsRecords(ts), "subject_id", "object_id").value[i].1.gragId == Text(ts[i].gragId)
  {
    var rs := AsRecords(ts);
    assert TripleImport.FirstPresent(TripleImport.SubjectKeys, rs[0]) == Some("subject_id");
    assert TripleImport.FirstPresent(TripleImport.ObjectKeys, rs[0]) == Some("object_id");
    ExtractedEntries(ts);
  }

  /** Every saved triple gives an importer entry, tagged with the triple's partition id. */
  lemma ExtractedEntries(ts: seq<Triple>)
    ensures TripleImport.Entries(AsRecords(ts), "subject_id", "object_id").Success?
    ensures forall i :: 0 <= i < |ts| ==>
      TripleImport.Entries(AsRecords(ts), "subject_id", "object_id").value[i].1.gragId == Text(ts[i].gragId)
  {
    var rs := AsRecords(ts);
    forall i | 0 <= i < |rs| ensures TripleImport.Entry(rs[i], "subject_id", "object_id").Success? {
      assert "predicate" in rs[i] && rs[i]["predicate"].Text?;
    }
    TripleImport.EntriesSucceed(rs, "subject_id", "object_id");
    TripleImport.EntriesContent(rs, "subject_id", "object_id");
  }
}
