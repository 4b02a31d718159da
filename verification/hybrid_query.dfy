/**
 * `HybridQueryService.query` (services/query_hybrid_service.py): one ToG
 * run and one GraphRAG query, whose answers an LLM merges; when the merge
 * raises, the longer answer stands in. The GraphRAG query and the merging
 * LLM are oracles; the ToG run is the engine's own outcome.
 */
module HybridQuery {
  import opened Wrappers
  import opened Text
  import ToG
  import ToGService

  const Placeholder: string := "(未获取到答案)"
  const NoAnswersError: string := "两种查询方法都未返回有效答案"

  /** The integration prompt's variable parts: the question and each answer, or a placeholder for an empty one. */
  datatype IntegrationPrompt = IntegrationPrompt(question: string, togText: string, graphText: string)

  /** What the GraphRAG service returns: its success flag and its answer. */
  datatype GraphRagReply = GraphRagReply(success: bool, answer: string)

  datatype HybridResult =
    | NoAnswers(question: string, error: string)
    | Integrated(question: string, finalAnswer: string, togAnswer: string, graphAnswer: string)
  {
    predicate Success() { Integrated? }
  }

  function Shown(answer: string): (t: string)
    ensures t != ""
  {
    if answer != "" then answer else Placeholder
  }

  /** The stand-in when the merge fails: the ToG answer only when it is strictly longer. */
  function Longer(togAnswer: string, graphAnswer: string): (r: string)
    ensures r == togAnswer || r == graphAnswer
    ensures |r| == Max(|togAnswer|, |graphAnswer|)
    ensures |togAnswer| == |graphAnswer| ==> r == graphAnswer
  {
    if |togAnswer| > |graphAnswer| then togAnswer else graphAnswer
  }

  /**
   * The answer selection of `query`. With no answer from either method the
   * result fails without calling the LLM; otherwise it succeeds whatever
   * the two success flags say, carrying both answers unchanged.
   */
  function Query(question: string, tog: ToG.Outcome, graph: GraphRagReply,
                 generate: IntegrationPrompt -> Result<string>): (r: HybridResult)
    ensures r.NoAnswers? <==> tog.answer == "" && graph.answer == ""
    ensures r.NoAnswers? ==> r == NoAnswers(question, NoAnswersError)
    ensures r.Integrated? ==> r.question == question && r.togAnswer == tog.answer && r.graphAnswer == graph.answer
    ensures r.Integrated? ==>
      var prompt := IntegrationPrompt(question, Shown(tog.answer), Shown(graph.answer));
      (generate(prompt).Success? ==> r.finalAnswer == generate(prompt).value) &&
      (generate(prompt).Failure? ==> r.finalAnswer == Longer(tog.answer, graph.answer))
  {
    if tog.answer == "" && graph.answer == "" then NoAnswers(question, NoAnswersError)
    else
      var final := match generate(IntegrationPrompt(question, Shown(tog.answer), Shown(graph.answer)))
        case Success(a) => a
        case Failure(_) => Longer(tog.answer, graph.answer);
      Integrated(question, final, tog.answer, graph.answer)
  }

  /** Without answers the merging LLM is never consulted: any two LLMs give the same result. */
  lemma NoAnswersNeedNoLlm(question: string, tog: ToG.Outcome, graph: GraphRagReply,
                           g1: IntegrationPrompt -> Result<string>, g2: IntegrationPrompt -> Result<string>)
    requires tog.answer == "" && graph.answer == ""
    ensures Query(question, tog, graph, g1) == Query(question, tog, graph, g2)
  {
  }

  /**
   * A failed ToG run still carries a message as its answer, so the hybrid
   * query reports success whatever GraphRAG and the merging LLM do.
   */
  lemma FailedToGStillSucceeds(v: ToGService.Instance, question: string, graph: GraphRagReply,
                               generate: IntegrationPrompt -> Result<string>)
    ensures !ToGService.Reason(v, question).success ==> Query(question, ToGService.Reason(v, question), graph, generate).Success()
  {
    var o := ToGService.Reason(v, question);
    if !o.success {
      ToGOutcomeAnswered(ToGService.SetupOf(v), question, v.maxDepth);
      assert o.answer != "";
    }
  }

  /** Every failed ToG outcome has a non-empty answer: the fixed notice or the error text. */
  lemma ToGOutcomeAnswered(s: ToG.Setup, question: string, depth: int)
    ensures !ToG.Run(s, question, depth).success ==> ToG.Run(s, question, depth).answer != ""
  {
    var o := ToG.Run(s, question, depth);
    if o.success {
    } else if o.errorMessage.Some? {
      assert |o.answer| >= |"推理过程出错: "|;
    } else {
      assert o.answer == ToG.NoAnswer;
    }
  }
}
