/**
 * `LangGraphAgent` (agents/impl/langgraph_agent.py): a six-node workflow
 * (analyze complexity, select method, query the primary knowledge base,
 * validate, fall back, final answer) run once per knowledge base, or once
 * for the knowledge base the caller named. The planning LLM, the query
 * tools and the backend's knowledge-base list are oracles; a `Failure` of
 * the workflow is an exception that escapes it.
 */
module LangGraphAgent {
  import opened Wrappers
  import opened Text
  import opened JsonValues
  import opened Agents
  import opened Routing
  import AutoQuery

  type Record = AutoQuery.Record

  const AgentName: string := "LangGraphAgent"
  const AgentDescription: string := "使用 LangGraph 实现的高级 Agent，支持知识库回退和复杂工作流"

  /** The agent as constructed: its tools are kept as fields, none is registered. */
  function NewLangGraphAgent(): (a: Agent)
    ensures CapabilitiesOf(a) == Capability(AgentName, AgentDescription, [])
  {
    NewAgent(AgentName, AgentDescription)
  }

  /** `can_handle` accepts every question. */
  predicate CanHandle(question: string)
  {
    true
  }

  // ---------------------------------------------------------------- state

  /** The workflow state; the message list only accumulates and is left out. */
  datatype State = State(gragId: Json, question: string, allKbs: seq<Record>, attempted: seq<Json>,
                         answer: string, complexity: string, selected: string, success: bool, errorCount: nat)

  /** A query tool: the method, the knowledge-base id and the question give the answer text. */
  type Tool = (Method, Json, string) -> Result<string>

  /** The dispatch of both query nodes on the selected method's name: anything else is the hybrid tool. */
  function ToolMethod(name: string): (m: Method)
    ensures m.Name() == name || (m == HybridMethod && name != "graphrag" && name != "tog")
  {
    if name == "graphrag" then GraphRagMethod
    else if name == "tog" then ToGMethod
    else HybridMethod
  }

  /** A query answer that counts as successful: it mentions 成功 and is longer than 50. */
  predicate Succeeded(answer: string)
  {
    Contains(answer, "成功") && |answer| > 50
  }

  // ---------------------------------------------------------------- nodes

  /** `_analyze_complexity`: the label read from the planning LLM's reply; an exception escapes the workflow. */
  function AnalyzeNode(s: State, reply: Result<string>): (r: Result<State>)
    ensures r.Failure? <==> reply.Failure?
    ensures r.Success? ==> r.value == s.(complexity := ComplexityOf(reply.value))
  {
    match reply
    case Failure(e) => Failure(e)
    case Success(content) => Success(s.(complexity := ComplexityOf(content)))
  }

  /** `_select_method`: the same choice `AutoQueryAgent` makes, stored by name. */
  function SelectNode(s: State): (r: State)
    ensures r == s.(selected := r.selected)
    ensures ExplicitMethod(Lower(s.question)).Some? ==> r.selected == ExplicitMethod(Lower(s.question)).value.Name()
    ensures ExplicitMethod(Lower(s.question)).None? ==> r.selected == ByComplexity(s.complexity).Name()
  {
    var q := Lower(s.question);
    var m :=
      if Contains(q, "tog") || Contains(q, "思维图") then "tog"
      else if Contains(q, "graphrag") then "graphrag"
      else if Contains(q, "混合") || Contains(q, "hybrid") then "hybrid"
      else if s.complexity == Simple then "graphrag"
      else if s.complexity == Complex then "hybrid"
      else "tog";
    s.(selected := m)
  }

  /** Both agents pick the same method for the same question and label. */
  lemma SameChoiceAsAutoQuery(s: State)
    ensures SelectNode(s).selected == AutoQuery.SelectMethod(s.complexity, s.question).Name()
    ensures ToolMethod(SelectNode(s).selected) == AutoQuery.SelectMethod(s.complexity, s.question)
  {
  }

  /**
   * `_query_primary_kb`: an answer is recorded with its knowledge base and
   * may set the success flag (never clear it); an exception becomes a
   * failure notice and counts as an error.
   */
  function PrimaryNode(s: State, tool: Tool): (r: State)
    ensures tool(ToolMethod(s.selected), s.gragId, s.question).Success? ==>
      var answer := tool(ToolMethod(s.selected), s.gragId, s.question).value;
      r == s.(answer := answer, attempted := s.attempted + [s.gragId], success := s.success || Succeeded(answer))
    ensures tool(ToolMethod(s.selected), s.gragId, s.question).Failure? ==>
      r == s.(answer := "查询失败: " + tool(ToolMethod(s.selected), s.gragId, s.question).error, errorCount := s.errorCount + 1)
  {
    match tool(ToolMethod(s.selected), s.gragId, s.question)
    case Success(answer) =>
      s.(answer := answer, attempted := s.attempted + [s.gragId], success := s.success || Succeeded(answer))
    case Failure(e) =>
      s.(answer := "查询失败: " + e, errorCount := s.errorCount + 1)
  }

  /** `_validate_answer`: longer than 50 and mentioning neither 失败 nor 错误. */
  function ValidateNode(s: State): (r: State)
    ensures r == s.(success := r.success)
    ensures r.success <==> |s.answer| > 50 && !Contains(s.answer, "失败") && !Contains(s.answer, "错误")
  {
    s.(success := |s.answer| > 50 && !Contains(s.answer, "失败") && !Contains(s.answer, "错误"))
  }

  function GraphKey(kb: Record): Json
  {
    AutoQuery.KbId(kb)
  }

  /** The knowledge bases whose `graph_key` has not been attempted, in order. */
  function Remaining(kbs: seq<Record>, attempted: seq<Json>): (r: seq<Record>)
    ensures forall kb :: kb in r <==> kb in kbs && GraphKey(kb) !in attempted
  {
    if kbs == [] then []
    else (if GraphKey(kbs[0]) !in attempted then [kbs[0]] else []) + Remaining(kbs[1..], attempted)
  }

  /**
   * `_fallback_query`: the first knowledge base not yet attempted is
   * queried with the selected method; with none left the state is
   * unchanged. An exception only counts as an error.
   */
  function FallbackNode(s: State, tool: Tool): (r: State)
    ensures Remaining(s.allKbs, s.attempted) == [] ==> r == s
    ensures r.allKbs == s.allKbs && r.question == s.question && r.selected == s.selected && r.complexity == s.complexity
    ensures s.success ==> r.success
    ensures |s.attempted| <= |r.attempted| <= |s.attempted| + 1
    ensures |r.attempted| == |s.attempted| + 1 ==>
      (r.attempted == s.attempted + [r.gragId] && r.gragId !in s.attempted
       && exists kb :: kb in s.allKbs && GraphKey(kb) == r.gragId)
    ensures r.errorCount == s.errorCount || (r.errorCount == s.errorCount + 1 && r.attempted == s.attempted)
  {
    var remaining := Remaining(s.allKbs, s.attempted);
    if remaining == [] then s
    else
      var next := GraphKey(remaining[0]);
      assert remaining[0] in remaining;
      match tool(ToolMethod(s.selected), next, s.question)
      case Success(answer) =>
        s.(answer := answer, attempted := s.attempted + [next], gragId := next, success := s.success || Succeeded(answer))
      case Failure(_) => s.(errorCount := s.errorCount + 1)
  }

  /** The apology `_final_answer` gives when no answer succeeded, with the number of attempts. */
  function Apology(attempts: nat): string
  {
    "很抱歉，在 " + NatToString(attempts) + " 个知识库中都未找到满意的答案。"
  }

  /** `_final_answer`: an unsuccessful state's answer is replaced by the apology. */
  function FinalNode(s: State): (r: State)
    ensures s.success ==> r == s
    ensures !s.success ==> r == s.(answer := Apology(|s.attempted|))
  {
    if s.success then s else s.(answer := Apology(|s.attempted|))
  }

  // ---------------------------------------------------------------- routes

  datatype AfterPrimary = Validate | Fallback | EndPrimary
  datatype AfterCheck = Done | FallbackAfterCheck
  datatype AfterFallbackRoute = End | Continue

  /** `_should_fallback`. */
  function ShouldFallback(s: State): (r: AfterPrimary)
    ensures r == Validate <==> s.success
    ensures r == Fallback <==> !s.success && s.errorCount <= 3 && |s.allKbs| > 1
  {
    if s.success then Validate
    else if s.errorCount > 3 then EndPrimary
    else if |s.allKbs| > 1 then Fallback
    else EndPrimary
  }

  /** `_after_validation`. */
  function AfterValidation(s: State): (r: AfterCheck)
    ensures r == Done <==> s.success
  {
    if s.success then Done else FallbackAfterCheck
  }

  /** `_after_fallback`: stop on success, once as many attempts as knowledge bases were made, or after more than three errors. */
  function AfterFallback(s: State): (r: AfterFallbackRoute)
    ensures r == Continue <==> !s.success && |s.attempted| < |s.allKbs| && s.errorCount <= 3
  {
    if s.success then End
    else if |s.attempted| >= |s.allKbs| then End
    else if s.errorCount > 3 then End
    else Continue
  }

  // ---------------------------------------------------------------- the workflow

  /** LangGraph's default bound on the steps of one run; exceeding it raises `GraphRecursionError`. */
  const RecursionLimit: nat := 25
  const RecursionError: string := "GraphRecursionError: Recursion limit of 25 reached without hitting a stop condition."

  /**
   * The fallback node and its route, repeated; `steps` counts the node runs
   * the limit still allows, keeping one for the final node.
   */
  function FallbackLoop(s: State, tool: Tool, steps: nat): (r: Result<State>)
    ensures r.Success? ==> AfterFallback(r.value) == End && r.value.allKbs == s.allKbs
    ensures r.Success? && s.success ==> r.value.success
    ensures r.Failure? ==> r.error == RecursionError
    ensures r.Success? ==> |s.attempted| <= |r.value.attempted| && r.value.attempted[..|s.attempted|] == s.attempted
    decreases steps
  {
    if steps <= 1 then Failure(RecursionError)
    else
      var next := FallbackNode(s, tool);
      match AfterFallback(next)
      case End => Success(next)
      case Continue => FallbackLoop(next, tool, steps - 1)
  }

  function Finish(r: Result<State>): (f: Result<State>)
    ensures f.Success? <==> r.Success?
    ensures r.Failure? ==> f == r
    ensures r.Success? ==> f.value == FinalNode(r.value)
  {
    match r
    case Success(s) => Success(FinalNode(s))
    case Failure(e) => Failure(e)
  }

  /** The state after the three fixed nodes. */
  function Primary(s0: State, reply: Result<string>, tool: Tool): (r: Result<State>)
    ensures r.Failure? <==> reply.Failure?
  {
    match AnalyzeNode(s0, reply)
    case Failure(e) => Failure(e)
    case Success(s1) => Success(PrimaryNode(SelectNode(s1), tool))
  }

  /**
   * One run of the compiled workflow from `s0`: the final node always runs
   * last, so the outcome is either an escaping exception or a state whose
   * answer is the apology exactly when it did not succeed.
   */
  function Workflow(s0: State, reply: Result<string>, tool: Tool): (r: Result<State>)
    ensures reply.Failure? ==> r.Failure?
    ensures r.Success? ==> r.value.success || r.value.answer == Apology(|r.value.attempted|)
  {
    match Primary(s0, reply, tool)
    case Failure(e) => Failure(e)
    case Success(s3) =>
      match ShouldFallback(s3)
      case EndPrimary => Success(FinalNode(s3))
      case Fallback => Finish(FallbackLoop(s3, tool, RecursionLimit - 4))
      case Validate =>
        var s4 := ValidateNode(s3);
        match AfterValidation(s4)
        case Done => Success(FinalNode(s4))
        case FallbackAfterCheck => Finish(FallbackLoop(s4, tool, RecursionLimit - 5))
  }

  /** With at least one attempt and at most one knowledge base, the fallback loop ends after one round. */
  lemma OneRoundSuffices(s: State, tool: Tool, steps: nat)
    requires steps > 1 && |s.allKbs| <= 1 && |s.attempted| >= 1
    ensures FallbackLoop(s, tool, steps) == Success(FallbackNode(s, tool))
  {
    assert AfterFallback(FallbackNode(s, tool)) == End;
  }

  /**
   * Each call in `execute` passes at most one knowledge base and starts
   * unsuccessful, so the recursion limit is never reached: the run fails
   * exactly when the planning LLM raises.
   */
  lemma WorkflowFinishes(s0: State, reply: Result<string>, tool: Tool)
    requires !s0.success && |s0.allKbs| <= 1
    ensures Workflow(s0, reply, tool).Failure? <==> reply.Failure?
  {
    if reply.Success? {
      var s3 := Primary(s0, reply, tool).value;
      var s2 := SelectNode(AnalyzeNode(s0, reply).value);
      assert ShouldFallback(s3) != Fallback;
      if ShouldFallback(s3) == Validate {
        assert s3.success;
        assert tool(ToolMethod(s2.selected), s2.gragId, s2.question).Success?;
        assert |s3.attempted| >= 1;
        var s4 := ValidateNode(s3);
        if AfterValidation(s4) == FallbackAfterCheck {
          OneRoundSuffices(s4, tool, RecursionLimit - 5);
        }
      }
    }
  }

  /** Every count of attempts gives an apology that mentions 未找到. */
  lemma ApologyNotFound(n: nat)
    ensures Contains(Apology(n), "未找到")
  {
    var head := "很抱歉，在 " + NatToString(n);
    var tail := " 个知识库中都未找到满意的答案。";
    assert tail[7..10] == "未找到";
    assert Apology(n) == head + tail;
    assert (head + tail)[|head| + 7..|head| + 10] == tail[7..10];
    ContainsAt(Apology(n), "未找到", |head| + 7);
  }

  // ---------------------------------------------------------------- execute

  /** The id of a knowledge base: its `graph_key` when truthy, else its `grag_id`. */
  function KeyOf(kb: Record): Json
  {
    var key := GetOr(kb, "graph_key", JNull);
    if Truthy(key) then key else GetOr(kb, "grag_id", JNull)
  }

  /** The workflow's start for one knowledge base when no id was named: the base alone, already counted as attempted. */
  function StartFor(kb: Record, question: string): (s: State)
    ensures s.gragId == KeyOf(kb) && s.allKbs == [kb] && s.attempted == [KeyOf(kb)] && !s.success && s.errorCount == 0
  {
    State(KeyOf(kb), question, [kb], [KeyOf(kb)], "", "", "", false, 0)
  }

  /** The answer test of the loop over all knowledge bases. */
  predicate Satisfactory(answer: string)
  {
    answer != "" && |Strip(answer)| > 20
    && !Contains(answer, "失败") && !Contains(answer, "错误") && !Contains(answer, "未找到")
  }

  function KbLabel(kb: Record): Json
  {
    GetOr(kb, "name", JStr("未知知识库"))
  }

  function FoundResult(question: string, kb: Record, fs: State): AgentResult
  {
    AgentResult(fs.success,
      JObj([("question", JStr(question)), ("answer", JStr(fs.answer)), ("grag_id", KeyOf(kb)),
            ("kb_name", KbLabel(kb)), ("attempted_kbs", JArr(fs.attempted))]),
      "在知识库 '" + Show(KbLabel(kb)) + "' 中查询成功", None,
      map["complexity" := JStr(fs.complexity), "method" := JStr(fs.selected),
          "kb_used" := KbLabel(kb), "kb_grag_id" := KeyOf(kb)])
  }

  /**
   * One knowledge base of the loop: skipped without an id, and given up
   * when the workflow raises or its answer is not satisfactory.
   */
  function Attempt(kb: Record, question: string, reply: Result<string>, tool: Tool): (r: Option<AgentResult>)
    ensures r.Some? <==>
      Truthy(KeyOf(kb)) && Workflow(StartFor(kb, question), reply, tool).Success?
      && Satisfactory(Workflow(StartFor(kb, question), reply, tool).value.answer)
    ensures r.Some? ==>
      (Truthy(KeyOf(kb)) && Workflow(StartFor(kb, question), reply, tool).Success?
       && Satisfactory(Workflow(StartFor(kb, question), reply, tool).value.answer)
       && r.value == FoundResult(question, kb, Workflow(StartFor(kb, question), reply, tool).value))
  {
    if !Truthy(KeyOf(kb)) then None
    else
      match Workflow(StartFor(kb, question), reply, tool)
      case Failure(_) => None
      case Success(fs) => if Satisfactory(fs.answer) then Some(FoundResult(question, kb, fs)) else None
  }

  /** A result the loop returns always reports success: an unsuccessful run ends with the apology, which mentions 未找到. */
  lemma FoundMeansSucceeded(kb: Record, question: string, reply: Result<string>, tool: Tool)
    ensures Attempt(kb, question, reply, tool).Some? ==>
      Attempt(kb, question, reply, tool).value.success && Workflow(StartFor(kb, question), reply, tool).value.success
  {
    if Attempt(kb, question, reply, tool).Some? {
      var fs := Workflow(StartFor(kb, question), reply, tool).value;
      if !fs.success {
        ApologyNotFound(|fs.attempted|);
      }
    }
  }

  /** The outcome of each knowledge base, in list order. */
  function Attempts(kbs: seq<Record>, question: string, reply: Result<string>, tool: Tool): (rs: seq<Option<AgentResult>>)
    ensures |rs| == |kbs|
    ensures forall i :: 0 <= i < |kbs| ==> rs[i] == Attempt(kbs[i], question, reply, tool)
  {
    seq(|kbs|, i requires 0 <= i < |kbs| => Attempt(kbs[i], question, reply, tool))
  }

  /** The first present value, in order. */
  function FirstSome<T(==)>(xs: seq<Option<T>>): (r: Option<T>)
    ensures r.None? <==> forall i :: 0 <= i < |xs| ==> xs[i].None?
    ensures r.Some? ==>
      (exists i :: 0 <= i < |xs| && xs[i] == r && forall j :: 0 <= j < i ==> xs[j].None?)
  {
    if xs == [] then None
    else if xs[0].Some? then xs[0]
    else
      var rest := FirstSome(xs[1..]);
      assert forall j :: 1 <= j < |xs| ==> xs[j] == xs[1..][j - 1];
      if rest.Some? then
        var i :| 0 <= i < |xs[1..]| && xs[1..][i] == rest && forall j :: 0 <= j < i ==> xs[1..][j].None?;
        assert xs[i + 1] == rest;
        rest
      else rest
  }

  /**
   * A run started by the loop over all knowledge bases counts its base as
   * attempted before the primary node appends it again, so a result the
   * loop returns lists that base twice at the head of `attempted_kbs`.
   */
  lemma FoundListsKbTwice(kb: Record, question: string, reply: Result<string>, tool: Tool)
    ensures Attempt(kb, question, reply, tool).Some? ==>
      var fs := Workflow(StartFor(kb, question), reply, tool).value;
      |fs.attempted| >= 2 && fs.attempted[0] == KeyOf(kb) && fs.attempted[1] == KeyOf(kb)
  {
    if Attempt(kb, question, reply, tool).Some? {
      FoundMeansSucceeded(kb, question, reply, tool);
      SuccessListsStartTwice(StartFor(kb, question), reply, tool);
    }
  }

  /** A successful run from a single base that already counts its own id lists that id twice at the head. */
  lemma SuccessListsStartTwice(s0: State, reply: Result<string>, tool: Tool)
    requires !s0.success && |s0.allKbs| <= 1 && s0.attempted == [s0.gragId]
    ensures Workflow(s0, reply, tool).Success? && Workflow(s0, reply, tool).value.success ==>
      var a := Workflow(s0, reply, tool).value.attempted;
      |a| >= 2 && a[0] == s0.gragId && a[1] == s0.gragId
  {
    if Workflow(s0, reply, tool).Success? && Workflow(s0, reply, tool).value.success {
      SuccessRecordsPrimary(s0, reply, tool);
      WorkflowKeepsAttempts(s0, reply, tool);
      HeadPair(Primary(s0, reply, tool).value.attempted, Workflow(s0, reply, tool).value.attempted, s0.gragId);
    }
  }

  lemma HeadPair<T>(before: seq<T>, after: seq<T>, x: T)
    requires before == [x] + [x] && |before| <= |after| && after[..|before|] == before
    ensures |after| >= 2 && after[0] == x && after[1] == x
  {
    assert after[0] == after[..2][0] && after[1] == after[..2][1];
  }

  /** Runs only append to the attempts the three fixed nodes leave. */
  lemma WorkflowKeepsAttempts(s0: State, reply: Result<string>, tool: Tool)
    requires Workflow(s0, reply, tool).Success?
    ensures var before := Primary(s0, reply, tool).value.attempted;
      |before| <= |Workflow(s0, reply, tool).value.attempted|
      && Workflow(s0, reply, tool).value.attempted[..|before|] == before
  {
  }

  /**
   * A run that starts unsuccessful with at most one knowledge base can only
   * succeed when the primary query answered, which appends the start id.
   */
  lemma SuccessRecordsPrimary(s0: State, reply: Result<string>, tool: Tool)
    requires !s0.success && |s0.allKbs| <= 1
    ensures Workflow(s0, reply, tool).Success? && Workflow(s0, reply, tool).value.success ==>
      Primary(s0, reply, tool).value.attempted == s0.attempted + [s0.gragId]
  {
    if Workflow(s0, reply, tool).Success? && Workflow(s0, reply, tool).value.success {
      var s2 := SelectNode(AnalyzeNode(s0, reply).value);
      assert s2.attempted == s0.attempted && s2.gragId == s0.gragId && s2.allKbs == s0.allKbs && !s2.success;
      assert tool(ToolMethod(s2.selected), s2.gragId, s2.question).Success?;
    }
  }

  /** The first knowledge base, in order, that gives a result. */
  function FirstFound(kbs: seq<Record>, question: string, reply: Result<string>, tool: Tool): Option<AgentResult>
  {
    FirstSome(Attempts(kbs, question, reply, tool))
  }

  const NoKbsMessage: string := "未找到任何可用的知识库"
  const NoKbsError: string := "no_knowledge_bases_found"
  const AllFailedMessage: string := "在所有知识库中都未能找到满意答案"
  const AllFailedError: string := "all_knowledge_bases_failed"
  const QueryFailed: string := "查询失败"

  /** What the outer handler returns for an exception with the given text. */
  function Crashed(error: string): (r: AgentResult)
    ensures !r.success && r.message == QueryFailed && r.error == Some(error)
  {
    FailedResult(QueryFailed, error)
  }

  /**
   * The branch of `execute` without a named knowledge base: every base the
   * backend lists, in order, until one gives a satisfactory answer. Listing
   * the names first fails on a base without a `name` key.
   */
  function ExecuteAll(question: string, kbs: seq<Record>, reply: Result<string>, tool: Tool): (r: AgentResult)
    ensures kbs == [] ==> r == FailedResult(NoKbsMessage, NoKbsError)
    ensures kbs != [] && (exists i :: 0 <= i < |kbs| && "name" !in kbs[i]) ==> r == Crashed("'name'")
    ensures kbs != [] && (forall i :: 0 <= i < |kbs| ==> "name" in kbs[i]) ==>
      r == (var found := FirstFound(kbs, question, reply, tool);
            if found.Some? then found.value else FailedResult(AllFailedMessage, AllFailedError))
  {
    if kbs == [] then FailedResult(NoKbsMessage, NoKbsError)
    else if exists i :: 0 <= i < |kbs| && "name" !in kbs[i] then Crashed("'name'")
    else
      var found := FirstFound(kbs, question, reply, tool);
      if found.Some? then found.value else FailedResult(AllFailedMessage, AllFailedError)
  }

  /** A result of the loop over all knowledge bases that carries no error comes from a successful run. */
  lemma ExecuteAllSucceeded(question: string, kbs: seq<Record>, reply: Result<string>, tool: Tool)
    ensures ExecuteAll(question, kbs, reply, tool).error.None? ==> ExecuteAll(question, kbs, reply, tool).success
  {
    if ExecuteAll(question, kbs, reply, tool).error.None? {
      var found := FirstFound(kbs, question, reply, tool);
      var i :| 0 <= i < |kbs| && Attempt(kbs[i], question, reply, tool) == found;
      FoundMeansSucceeded(kbs[i], question, reply, tool);
    }
  }

  /** A key Python cannot hash: a list or a dictionary. */
  predicate Unhashable(key: Json)
  {
    key.JArr? || key.JObj?
  }

  function HashError(key: Json): string
  {
    if key.JArr? then "unhashable type: 'list'" else "unhashable type: 'dict'"
  }

  /**
   * `{key: kb for kb in kbs}.get(id)`: the last knowledge base whose id is
   * the named one, or the error for the first key that cannot be hashed.
   */
  function CurrentKb(kbs: seq<Record>, id: Json): (r: Result<Option<Record>>)
    ensures r.Failure? <==> exists i :: 0 <= i < |kbs| && Unhashable(KeyOf(kbs[i]))
    ensures r.Success? && r.value.Some? ==>
      exists i :: 0 <= i < |kbs| && kbs[i] == r.value.value && KeyOf(kbs[i]) == id
        && forall j :: i < j < |kbs| ==> KeyOf(kbs[j]) != id
    ensures r == Success(None) ==> forall i :: 0 <= i < |kbs| ==> KeyOf(kbs[i]) != id
    decreases |kbs|
  {
    if kbs == [] then Success(None)
    else
      var last := kbs[|kbs| - 1];
      var init := kbs[..|kbs| - 1];
      assert forall j :: 0 <= j < |init| ==> init[j] == kbs[j];
      match CurrentKb(init, id)
      case Failure(e) => Failure(e)
      case Success(earlier) =>
        if Unhashable(KeyOf(last)) then Failure(HashError(KeyOf(last)))
        else if KeyOf(last) == id then Success(Some(last))
        else Success(earlier)
  }

  /** The workflow's start for a named knowledge base: its own record, if the backend lists it, and no attempts yet. */
  function NamedStart(id: Json, question: string, current: Option<Record>): (s: State)
    ensures s.attempted == [] && !s.success && |s.allKbs| <= 1
    ensures current.Some? && current.value != map[] ==> s.allKbs == [current.value]
    ensures current.None? ==> s.allKbs == []
  {
    State(id, question, if current.Some? && current.value != map[] then [current.value] else [], [], "", "", "", false, 0)
  }

  function NamedResult(question: string, fs: State): AgentResult
  {
    AgentResult(fs.success,
      JObj([("question", JStr(question)), ("answer", JStr(fs.answer)), ("grag_id", fs.gragId),
            ("attempted_kbs", JArr(fs.attempted))]),
      if fs.success then "查询成功" else QueryFailed, None,
      map["complexity" := JStr(fs.complexity), "method" := JStr(fs.selected),
          "fallback_used" := JBool(|fs.attempted| > 1)])
  }

  /** The branch of `execute` for a named knowledge base: one workflow run, reported whatever its outcome. */
  function ExecuteNamed(ctx: Context, kbs: seq<Record>, reply: Result<string>, tool: Tool): (r: AgentResult)
    ensures CurrentKb(kbs, ctx.gragId).Failure? ==> r == Crashed(CurrentKb(kbs, ctx.gragId).error)
    ensures CurrentKb(kbs, ctx.gragId).Success? ==>
      var run := Workflow(NamedStart(ctx.gragId, ctx.question, CurrentKb(kbs, ctx.gragId).value), reply, tool);
      (run.Failure? ==> r == Crashed(run.error)) && (run.Success? ==> r == NamedResult(ctx.question, run.value))
  {
    match CurrentKb(kbs, ctx.gragId)
    case Failure(e) => Crashed(e)
    case Success(current) =>
      match Workflow(NamedStart(ctx.gragId, ctx.question, current), reply, tool)
      case Failure(e) => Crashed(e)
      case Success(fs) => NamedResult(ctx.question, fs)
  }

  /** `execute`: a missing or "default" id queries every knowledge base the backend lists. */
  function Execute(ctx: Context, kbs: seq<Record>, reply: Result<string>, tool: Tool): (r: AgentResult)
    ensures !Truthy(ctx.gragId) || ctx.gragId == JStr("default") ==> r == ExecuteAll(ctx.question, kbs, reply, tool)
    ensures Truthy(ctx.gragId) && ctx.gragId != JStr("default") ==> r == ExecuteNamed(ctx, kbs, reply, tool)
  {
    if !Truthy(ctx.gragId) || ctx.gragId == JStr("default") then ExecuteAll(ctx.question, kbs, reply, tool)
    else ExecuteNamed(ctx, kbs, reply, tool)
  }

  /**
   * When the named id is the `graph_key` of the record found for it, the
   * fallback node finds nothing left to try, so a run never reports that
   * the fallback was used.
   */
  lemma NamedRunNeverFallsBack(id: Json, question: string, current: Option<Record>, reply: Result<string>, tool: Tool)
    requires current.Some? ==> GraphKey(current.value) == id
    requires Workflow(NamedStart(id, question, current), reply, tool).Success?
    ensures |Workflow(NamedStart(id, question, current), reply, tool).value.attempted| <= 1
  {
    var s0 := NamedStart(id, question, current);
    var s2 := SelectNode(AnalyzeNode(s0, reply).value);
    var s3 := Primary(s0, reply, tool).value;
    assert s2.gragId == id && s2.attempted == [] && s2.allKbs == s0.allKbs;
    assert |s3.attempted| <= 1;
    if ShouldFallback(s3) == Validate {
      assert tool(ToolMethod(s2.selected), s2.gragId, s2.question).Success?;
      assert s3.attempted == [id];
      var s4 := ValidateNode(s3);
      if AfterValidation(s4) == FallbackAfterCheck {
        assert Remaining(s4.allKbs, s4.attempted) == [] by {
          forall kb | kb in s4.allKbs
            ensures GraphKey(kb) in s4.attempted
          {
          }
        }
        OneRoundSuffices(s4, tool, RecursionLimit - 5);
      }
    }
  }
}
