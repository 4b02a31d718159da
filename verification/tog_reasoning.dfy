/**
 * `ToGReasoning` (tog_reasoning.py): the engine bound to an Ollama model
 * whose calls never raise, a Neo4j connector and an optional dense index.
 */
module ToGReasoning {
  import opened Wrappers
  import opened Text
  import EntityLinking
  import opened ToGPaths
  import opened ToG

  const DefaultBeamWidth: int := 3
  const DefaultMaxDepth: int := 10
  const DefaultThreshold: real := 15.0

  /** A dense-index search, as produced by loading an index directory. */
  type Search = string -> Result<seq<EntityLinking.Hit>>

  /** The constructed engine; `llm` is the raw Ollama call, which may raise. */
  datatype Engine = Engine(
    beamWidth: int,
    maxDepth: int,
    threshold: real,
    graph: Graph,
    retriever: Option<Search>,
    llm: Prompt -> Result<string>)

  /**
   * The constructor: a dense retriever is built from `retrieverPath`; when
   * that raises, the engine keeps no retriever and falls back to graph matching.
   */
  function NewEngine(graph: Graph, llm: Prompt -> Result<string>, load: string -> Result<Search>,
                     retrieverPath: string, beamWidth: int, maxDepth: int, threshold: real): (r: Engine)
    ensures r.beamWidth == beamWidth && r.maxDepth == maxDepth && r.threshold == threshold
    ensures r.graph == graph && r.llm == llm
    ensures r.retriever.Some? <==> load(retrieverPath).Success?
    ensures r.retriever.Some? ==> r.retriever.value == load(retrieverPath).value
  {
    var retriever := match EntityLinking.NewRetriever("dense", retrieverPath, load)
      case Success(search) => Some(search)
      case Failure(_) => None;
    Engine(beamWidth, maxDepth, threshold, graph, retriever, llm)
  }

  /** The constructor with every optional argument left at its default. */
  function DefaultEngine(graph: Graph, llm: Prompt -> Result<string>, load: string -> Result<Search>, retrieverPath: string): (r: Engine)
    ensures r.beamWidth == 3 && r.maxDepth == 10 && r.threshold == 15.0
  {
    NewEngine(graph, llm, load, retrieverPath, DefaultBeamWidth, DefaultMaxDepth, DefaultThreshold)
  }

  /** `_call_llm`: the stripped reply, or "" when the call raises. */
  function CallLlm(llm: Prompt -> Result<string>, p: Prompt): (r: string)
    ensures llm(p).Failure? ==> r == ""
    ensures llm(p).Success? ==> r == Strip(llm(p).value)
    ensures Stripped(r)
  {
    match llm(p)
    case Success(reply) => Strip(reply)
    case Failure(_) => ""
  }

  /** The engine's view of the LLM: `_call_llm`, which swallows every exception. */
  function Asker(e: Engine): (ask: Prompt -> Result<string>)
    ensures Reliable(ask)
  {
    p => Success(CallLlm(e.llm, p))
  }

  function SetupOf(e: Engine): Setup
  {
    Setup(Reasoning, e.beamWidth, e.threshold, e.graph, e.retriever, Asker(e))
  }

  /**
   * `reason(question, max_depth, max_width)`: the depth limit is the argument
   * when given, else the constructor's; `maxWidth` is only logged, so every
   * cut still uses the constructor's beam width.
   */
  function Reason(e: Engine, question: string, maxDepth: Option<int>, maxWidth: Option<int>): (r: Outcome)
    ensures r.question == question
    ensures r.errorMessage.None?
    ensures r.success <==> FinalPaths(SetupOf(e), question, maxDepth.UnwrapOr(e.maxDepth)) != []
    ensures !r.success ==> r.answer == NoAnswer
  {
    var s := SetupOf(e);
    var depth := maxDepth.UnwrapOr(e.maxDepth);
    RunReliable(s, question, depth);
    Run(s, question, depth)
  }

  /** The per-call width never changes the outcome. */
  lemma ReasonIgnoresWidth(e: Engine, question: string, maxDepth: Option<int>, w1: Option<int>, w2: Option<int>)
    ensures Reason(e, question, maxDepth, w1) == Reason(e, question, maxDepth, w2)
  {
  }

  /** A depth given per call overrides the constructor's; `None` falls back to it. */
  lemma ReasonDepthOverride(e: Engine, question: string, depth: int)
    ensures Reason(e, question, Some(depth), None) == Reason(e.(maxDepth := depth), question, None, None)
  {
  }

  /**
   * With a positive beam width and depth, a question succeeds exactly when
   * topic-entity extraction yields an entity, whatever the graph holds.
   */
  lemma ReasonSucceedsIffTopics(e: Engine, question: string, maxDepth: Option<int>, maxWidth: Option<int>)
    requires 0 < e.beamWidth && 1 <= maxDepth.UnwrapOr(e.maxDepth)
    ensures TopicEntities(SetupOf(e), question).Success?
    ensures Reason(e, question, maxDepth, maxWidth).success <==> TopicEntities(SetupOf(e), question).value != []
  {
    RunSucceedsIffTopics(SetupOf(e), question, maxDepth.UnwrapOr(e.maxDepth));
  }

  /** A depth of zero or less runs no iteration and never succeeds. */
  lemma ReasonZeroDepth(e: Engine, question: string, maxDepth: Option<int>, maxWidth: Option<int>)
    requires maxDepth.UnwrapOr(e.maxDepth) <= 0
    ensures Reason(e, question, maxDepth, maxWidth) == Outcome(false, question, NoAnswer, None)
  {
  }
}
