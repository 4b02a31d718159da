/**
 * Entity linking against the dense vector index (`ywretriever.py` and its
 * copy `scripts/ywretriever.py`). The index is seen only through its top-k
 * search, which returns hits ordered by distance and may raise.
 */
module EntityLinking {
  import opened Wrappers

  /** One retrieval hit: the indexed entity name and its distance to the query. */
  datatype Hit = Hit(text: string, score: real)

  /** What `entity_linking` produces: the linked names, and per name the printed marker. */
  datatype Linked = Linked(names: seq<string>, matched: seq<bool>)

  /** Default thresholds of the two copies of `entity_linking`. */
  const RootDefaultThreshold: real := 15.0
  const ScriptsDefaultThreshold: real := 10.0

  /**
   * Reference meaning of linking: the text of the top hit of every mention
   * whose search is non-empty, in mention order; mentions without a hit are
   * dropped, and nothing is de-duplicated.
   */
  function TopTexts(results: seq<seq<Hit>>): seq<string>
  {
    if results == [] then []
    else (if results[0] == [] then [] else [results[0][0].text]) + TopTexts(results[1..])
  }

  /** The printed markers: whether each top hit lies within the threshold. */
  function TopMarkers(results: seq<seq<Hit>>, threshold: real): seq<bool>
  {
    if results == [] then []
    else (if results[0] == [] then [] else [results[0][0].score <= threshold]) + TopMarkers(results[1..], threshold)
  }

  /** The searches of all mentions, or the first exception. */
  function SearchAll(search: string -> Result<seq<Hit>>, mentions: seq<string>): (r: Result<seq<seq<Hit>>>)
    ensures r.Success? ==> |r.value| == |mentions|
    ensures r.Success? ==> forall i :: 0 <= i < |mentions| ==> search(mentions[i]) == Success(r.value[i])
    ensures r.Failure? <==> exists i :: 0 <= i < |mentions| && search(mentions[i]).Failure?
  {
    if mentions == [] then Success([])
    else
      match search(mentions[0])
      case Failure(e) => Failure(e)
      case Success(hits) =>
        match SearchAll(search, mentions[1..])
        case Failure(e) => Failure(e)
        case Success(rest) =>
          assert forall i :: 1 <= i < |mentions| ==> mentions[i] == mentions[1..][i - 1];
          Success([hits] + rest)
  }

  /**
   * `entity_linking(retriever, entities, threshold)`: for each mention, in
   * order, the top hit's text if the search returned anything. The threshold
   * only decides the printed marker `matched` (distance <= threshold).
   */
  function Link(search: string -> Result<seq<Hit>>, mentions: seq<string>, threshold: real): (r: Result<Linked>)
    ensures r.Success? <==> SearchAll(search, mentions).Success?
    ensures r.Success? ==> r.value.names == TopTexts(SearchAll(search, mentions).value)
    ensures r.Success? ==> r.value.matched == TopMarkers(SearchAll(search, mentions).value, threshold)
    ensures r.Success? ==> |r.value.names| == |r.value.matched| <= |mentions|
    ensures mentions == [] ==> r == Success(Linked([], []))
  {
    if mentions == [] then Success(Linked([], []))
    else
      match search(mentions[0])
      case Failure(e) => Failure(e)
      case Success(hits) =>
        match Link(search, mentions[1..], threshold)
        case Failure(e) => Failure(e)
        case Success(rest) =>
          if hits == [] then Success(rest)
          else Success(Linked([hits[0].text] + rest.names, [hits[0].score <= threshold] + rest.matched))
  }

  /** The threshold never changes which names are linked, only the markers. */
  lemma {:induction false} LinkThresholdIrrelevant(search: string -> Result<seq<Hit>>, mentions: seq<string>, t1: real, t2: real)
    ensures Link(search, mentions, t1).Success? == Link(search, mentions, t2).Success?
    ensures Link(search, mentions, t1).Success? ==>
              Link(search, mentions, t1).value.names == Link(search, mentions, t2).value.names
    decreases |mentions|
  {
    if mentions != [] {
      LinkThresholdIrrelevant(search, mentions[1..], t1, t2);
    }
  }

  /** An exception from any mention's search makes the whole linking raise. */
  lemma {:induction false} LinkFailureSticks(search: string -> Result<seq<Hit>>, mentions: seq<string>, i: nat, threshold: real)
    requires i < |mentions| && search(mentions[i]).Failure?
    ensures Link(search, mentions, threshold).Failure?
    decreases i
  {
    if i > 0 {
      assert mentions[1..][i - 1] == mentions[i];
      LinkFailureSticks(search, mentions[1..], i - 1, threshold);
    }
  }

  /** The only retriever type is "dense"; any other raises `ValueError`. */
  function NewRetriever<Index>(kind: string, version: string, load: string -> Result<Index>): (r: Result<Index>)
    ensures kind != "dense" ==> r == Failure("Invalid retriever type")
    ensures kind == "dense" ==> r == load(version)
  {
    if kind == "dense" then load(version) else Failure("Invalid retriever type")
  }

  /** A row of the node CSV that the index is built from. */
  datatype NodeRow = NodeRow(id: string, name: string)

  /** An indexed document: the entity name as content and its id as metadata. */
  datatype Document = Document(content: string, id: string)

  /**
   * `crtDenseRetriever` (scripts copy): a missing CSV raises
   * `FileNotFoundError`; otherwise one document per row, in row order.
   */
  function IndexDocuments(filePath: string, exists_: string -> bool, rows: seq<NodeRow>): (r: Result<seq<Document>>)
    ensures !exists_(filePath) <==> r.Failure?
    ensures r.Failure? ==> r.error == "CSV文件不存在: " + filePath
    ensures r.Success? ==> |r.value| == |rows|
    ensures r.Success? ==> forall i :: 0 <= i < |rows| ==> r.value[i] == Document(rows[i].name, rows[i].id)
  {
    if !exists_(filePath) then Failure("CSV文件不存在: " + filePath)
    else Success(seq(|rows|, i requires 0 <= i < |rows| => Document(rows[i].name, rows[i].id)))
  }
}
