/**
 * `ToGService` (services/query_tog_service.py): the engine bound to one
 * knowledge-base partition, with depth and width fixed at construction and
 * an LLM call that is not wrapped, so its exceptions reach `reason`.
 */
module ToGService {
  import opened Wrappers
  import opened Text
  import EntityLinking
  import opened ToGPaths
  import opened ToG

  const DefaultMaxDepth: int := 5
  const DefaultMaxWidth: int := 5
  /** `settings.entity_linking_threshold`. */
  const LinkingThreshold: real := 15.0
  /** `settings.graphrag_root`. */
  const GraphragRoot: string := "../graphrag"

  type Search = string -> Result<seq<EntityLinking.Hit>>

  datatype Instance = Instance(
    gragId: string,
    maxDepth: int,
    maxWidth: int,
    graph: Graph,
    retriever: Option<Search>,
    llm: Prompt -> Result<string>)

  /**
   * The index directory of a partition, `<root>/<grag_id>/.retrive`. An
   * empty id adds no component and an absolute id replaces the root, as
   * path joining does.
   */
  function RetrieverPath(gragId: string): (r: string)
    ensures gragId == "" ==> r == GraphragRoot + "/.retrive"
    ensures gragId != "" && gragId[0] != '/' ==> r == GraphragRoot + "/" + gragId + "/.retrive"
    ensures gragId != "" && gragId[0] == '/' ==> r == gragId + "/.retrive"
  {
    if gragId == "" then GraphragRoot + "/.retrive"
    else if gragId[0] == '/' then gragId + "/.retrive"
    else GraphragRoot + "/" + gragId + "/.retrive"
  }

  /**
   * The constructor: the connector of the partition supplies the graph, and
   * the partition's dense index is loaded, or left out when loading raises.
   */
  function NewService(gragId: string, graph: Graph, llm: Prompt -> Result<string>, load: string -> Result<Search>,
                      maxDepth: int, maxWidth: int): (r: Instance)
    ensures r.gragId == gragId && r.maxDepth == maxDepth && r.maxWidth == maxWidth
    ensures r.retriever.Some? <==> load(RetrieverPath(gragId)).Success?
    ensures r.retriever.Some? ==> r.retriever.value == load(RetrieverPath(gragId)).value
  {
    var retriever := match EntityLinking.NewRetriever("dense", RetrieverPath(gragId), load)
      case Success(search) => Some(search)
      case Failure(_) => None;
    Instance(gragId, maxDepth, maxWidth, graph, retriever, llm)
  }

  function DefaultService(gragId: string, graph: Graph, llm: Prompt -> Result<string>, load: string -> Result<Search>): (r: Instance)
    ensures r.maxDepth == 5 && r.maxWidth == 5
  {
    NewService(gragId, graph, llm, load, DefaultMaxDepth, DefaultMaxWidth)
  }

  function SetupOf(v: Instance): Setup
  {
    Setup(Service, v.maxWidth, LinkingThreshold, v.graph, v.retriever, v.llm)
  }

  /** `reason(question)`: exactly the engine's run with the constructor's depth and width. */
  function Reason(v: Instance, question: string): (r: Outcome)
    ensures r.question == question
    ensures r.success ==> FinalPaths(SetupOf(v), question, v.maxDepth) != [] && r.errorMessage.None?
    ensures r.errorMessage.Some? ==> r.answer == "推理过程出错: " + r.errorMessage.value
  {
    Run(SetupOf(v), question, v.maxDepth)
  }

  /**
   * An LLM call that always raises (the configured client has no
   * `chat_with_siliconflow`) makes every run of depth one or more end in
   * the exception branch with that exception's message.
   */
  lemma ReasonWithBrokenLlm(v: Instance, question: string, msg: string)
    requires forall p :: v.llm(p) == Failure(msg)
    requires 1 <= v.maxDepth
    ensures Reason(v, question) == Errored(question, msg)
  {
    var s := SetupOf(v);
    assert TopicEntities(s, question) == Failure(msg);
    assert Iterate(s, question, []) == Failure(msg);
    assert Explore(s, question, [], Max(0, v.maxDepth)) == Failure(msg);
  }

  /** With an LLM that never raises, a run succeeds exactly when topic extraction finds an entity. */
  lemma ReasonSucceedsIffTopics(v: Instance, question: string)
    requires Reliable(v.llm) && 0 < v.maxWidth && 1 <= v.maxDepth
    ensures TopicEntities(SetupOf(v), question).Success?
    ensures Reason(v, question).success <==> TopicEntities(SetupOf(v), question).value != []
    ensures Reason(v, question).errorMessage.None?
  {
    RunSucceedsIffTopics(SetupOf(v), question, v.maxDepth);
    RunReliable(SetupOf(v), question, v.maxDepth);
  }
}
