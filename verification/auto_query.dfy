/**
 * `AutoQueryAgent` (agents/impl/auto_query_agent.py): picks a query method
 * from the question and an LLM's complexity label, tries the knowledge base
 * the caller named, and falls back to the other knowledge bases in list
 * order. The complexity LLM and the three query tools are oracles; a
 * `Failure` from them is an exception the agent catches. A `Failure` of
 * `Execute` itself is an exception that escapes the agent (a `TypeError`
 * from `len` or `join` on an unexpected value).
 */
module AutoQuery {
  import opened Wrappers
  import opened Text
  import opened JsonValues
  import opened Agents
  import opened Routing

  const AgentName: string := "AutoQueryAgent"
  const AgentDescription: string := "专门处理用户查询，根据问题复杂度自动选择最佳查询方法，支持跨知识库回退查询"
  const ToolNames: seq<string> := ["query_tog", "query_graphrag", "query_hybrid"]

  /** The agent as constructed: idle, with its three query tools registered in order. */
  function NewAutoQueryAgent(): (a: Agent)
    ensures CapabilitiesOf(a) == Capability(AgentName, AgentDescription, ToolNames)
    ensures a.status == Idle
  {
    var a := RegisterTools(NewAgent(AgentName, AgentDescription), ToolNames);
    RegisteredToolsListed(NewAgent(AgentName, AgentDescription), ToolNames);
    assert [] + ToolNames == ToolNames;
    a
  }

  // ---------------------------------------------------------------- routing

  const QueryKeywords: seq<string> := ["查询", "搜索", "查找", "告诉我", "什么是", "谁是", "如何", "为什么", "query", "search"]

  /** `can_handle`: some query keyword occurs in the lower-cased question. */
  predicate CanHandle(question: string)
  {
    AnyOccurs(Lower(question), QueryKeywords)
  }

  lemma LowerConcat(a: string, b: string)
    ensures Lower(a + b) == Lower(a) + Lower(b)
  {
  }

  /** Any question that contains a query keyword, in any letter case, is handled. */
  lemma KeywordQuestionHandled(before: string, k: nat, after: string)
    requires k < |QueryKeywords|
    ensures CanHandle(before + Upper(QueryKeywords[k]) + after)
    ensures CanHandle(before + QueryKeywords[k] + after)
  {
    var kw := QueryKeywords[k];
    assert Lower(Upper(kw)) == kw && Lower(kw) == kw;
    LowerConcat(before + Upper(kw), after);
    LowerConcat(before, Upper(kw));
    LowerConcat(before + kw, after);
    LowerConcat(before, kw);
    var low := Lower(before) + kw + Lower(after);
    assert low[|before|..|before| + |kw|] == kw;
    ContainsAt(low, kw, |before|);
  }

  /** `_analyze_complexity`: the label read from the reply; any exception gives "moderate". */
  function AnalyzeComplexity(reply: Result<string>): (c: string)
    ensures c in {Simple, Moderate, Complex}
    ensures reply.Failure? ==> c == Moderate
    ensures reply.Success? ==> c == ComplexityOf(reply.value)
  {
    match reply
    case Success(r) => ComplexityOf(r)
    case Failure(_) => Moderate
  }

  /**
   * `_select_method`, as the chain of early returns it is written as: a
   * method the question names wins over the complexity label.
   */
  function SelectMethod(complexity: string, question: string): (m: Method)
    ensures ExplicitMethod(Lower(question)).Some? ==> m == ExplicitMethod(Lower(question)).value
    ensures ExplicitMethod(Lower(question)).None? ==> m == ByComplexity(complexity)
  {
    var q := Lower(question);
    if Contains(q, "tog") || Contains(q, "思维图") then ToGMethod
    else if Contains(q, "graphrag") then GraphRagMethod
    else if Contains(q, "混合") || Contains(q, "hybrid") then HybridMethod
    else if complexity == Simple then GraphRagMethod
    else if complexity == Complex then HybridMethod
    else ToGMethod
  }

  // ---------------------------------------------------------------- one query

  /** A result dictionary or a knowledge-base record. */
  type Record = map<string, Json>

  /** The query tools: the chosen method, the knowledge-base id and the question give the tool's result dictionary. */
  type QueryTool = (Method, Json, string) -> Result<Record>

  /**
   * `_execute_query_logic`: the tool's result tagged with the method used,
   * or a failure dictionary carrying the exception text.
   */
  function RunQuery(gragId: Json, question: string, complexityReply: Result<string>, tool: QueryTool): (r: Record)
    ensures var m := SelectMethod(AnalyzeComplexity(complexityReply), question);
      tool(m, gragId, question).Failure? ==>
        r.Keys == {"success", "error"} && r["success"] == JBool(false) && r["error"] == JStr(tool(m, gragId, question).error)
    ensures var m := SelectMethod(AnalyzeComplexity(complexityReply), question);
      tool(m, gragId, question).Success? ==>
        var res := tool(m, gragId, question).value;
        (r.Keys == res.Keys + {"method"} && r["method"] == JStr(m.Name())
         && forall k :: k in res && k != "method" ==> r[k] == res[k])
  {
    var m := SelectMethod(AnalyzeComplexity(complexityReply), question);
    match tool(m, gragId, question)
    case Success(result) => result["method" := JStr(m.Name())]
    case Failure(e) => map["success" := JBool(false), "error" := JStr(e)]
  }

  /** `len` of a decoded value; `None` is the `TypeError` for numbers and booleans. */
  function Len(j: Json): (n: Option<nat>)
    ensures j.JStr? ==> n == Some(|j.s|)
    ensures n.None? <==> !(j.JStr? || j.JArr? || j.JObj?)
  {
    match j
    case JStr(s) => Some(|s|)
    case JArr(items) => Some(|items|)
    case JObj(fields) => Some(|fields|)
    case _ => None
  }

  /** `result.get("answer") or result.get("final_answer", "")`. */
  function AnswerOf(result: Record): (a: Json)
    ensures Truthy(GetOr(result, "answer", JNull)) ==> a == result["answer"]
    ensures !Truthy(GetOr(result, "answer", JNull)) ==> a == GetOr(result, "final_answer", JStr(""))
  {
    var a := GetOr(result, "answer", JNull);
    if Truthy(a) then a else GetOr(result, "final_answer", JStr(""))
  }

  const MinAnswerLength: nat := 20

  /**
   * Whether a result is accepted: success holds and the answer is longer
   * than 20. A truthy answer without a length makes `len` raise.
   */
  function Accepted(result: Record): (r: Result<bool>)
    ensures r == Success(true) <==>
      Truthy(GetOr(result, "success", JNull)) && Len(AnswerOf(result)).Some? && Len(AnswerOf(result)).value > MinAnswerLength
    ensures r.Failure? <==>
      Truthy(GetOr(result, "success", JNull)) && Truthy(AnswerOf(result)) && Len(AnswerOf(result)).None?
  {
    if !Truthy(GetOr(result, "success", JNull)) then Success(false)
    else
      var a := AnswerOf(result);
      if !Truthy(a) then Success(false)
      else match Len(a)
        case None => Failure("TypeError: object has no len()")
        case Some(n) => Success(n > MinAnswerLength)
  }

  /** A JSON answer longer than 20 is truthy, so `answer and len(answer) > 20` reduces to the length test. */
  lemma LongAnswerTruthy(a: Json)
    requires Len(a).Some? && Len(a).value > MinAnswerLength
    ensures Truthy(a)
  {
  }

  // ---------------------------------------------------------------- the knowledge-base fallback

  /** The records `get_knowledge_bases` returns (utils/java_backend.py): only `graph_key`, `name` and `intro`. */
  function BackendRecord(graphKey: Json, name: Json, intro: Json): (kb: Record)
    ensures kb.Keys == {"graph_key", "name", "intro"}
  {
    map["graph_key" := graphKey, "name" := name, "intro" := intro]
  }

  /** The fallback list: the records whose `grag_id` entry differs from the requested id, in order. */
  function Fallbacks(kbs: seq<Record>, requested: Json): (r: seq<Record>)
    ensures |r| <= |kbs|
    ensures forall kb :: kb in r <==> kb in kbs && GetOr(kb, "grag_id", JNull) != requested
  {
    if kbs == [] then []
    else (if GetOr(kbs[0], "grag_id", JNull) != requested then [kbs[0]] else []) + Fallbacks(kbs[1..], requested)
  }

  /**
   * The filter compares the wrong key: records from the backend carry
   * `graph_key` and no `grag_id`, so a requested id excludes nothing (not
   * even the knowledge base just tried), and a missing id excludes every
   * record.
   */
  lemma {:induction false} BackendRecordsNeverExcluded(kbs: seq<Record>, requested: Json)
    requires forall i :: 0 <= i < |kbs| ==> "grag_id" !in kbs[i]
    ensures requested != JNull ==> Fallbacks(kbs, requested) == kbs
    ensures requested == JNull ==> Fallbacks(kbs, requested) == []
  {
    if kbs != [] {
      BackendRecordsNeverExcluded(kbs[1..], requested);
      assert "grag_id" !in kbs[0];
      assert forall i :: 0 <= i < |kbs[1..]| ==> kbs[1..][i] == kbs[i + 1];
      assert kbs == [kbs[0]] + kbs[1..];
    }
  }

  function KbId(kb: Record): Json
  {
    GetOr(kb, "graph_key", JNull)
  }

  function KbName(kb: Record): Json
  {
    GetOr(kb, "name", JStr("未知"))
  }

  /** The query made against one fallback record. */
  function TryKb(kb: Record, question: string, complexityReply: Result<string>, tool: QueryTool): Record
  {
    RunQuery(KbId(kb), question, complexityReply, tool)
  }

  /** The verdict on each fallback record, in list order. */
  function Verdicts(kbs: seq<Record>, question: string, complexityReply: Result<string>, tool: QueryTool): (vs: seq<Result<bool>>)
    ensures |vs| == |kbs|
    ensures forall i :: 0 <= i < |kbs| ==> vs[i] == Accepted(TryKb(kbs[i], question, complexityReply, tool))
  {
    seq(|kbs|, i requires 0 <= i < |kbs| => Accepted(TryKb(kbs[i], question, complexityReply, tool)))
  }

  /**
   * The loop of `_query_multiple_kbs` over the verdicts: the index of the
   * first accepted one, `None` when none is, or the exception that stops
   * the loop.
   */
  function FirstAccepted(vs: seq<Result<bool>>): (r: Result<Option<nat>>)
    ensures r.Success? && r.value.Some? ==>
      (r.value.value < |vs| && vs[r.value.value] == Success(true)
       && forall j :: 0 <= j < r.value.value ==> vs[j] == Success(false))
    ensures r == Success(None) <==> forall j :: 0 <= j < |vs| ==> vs[j] == Success(false)
    ensures r.Failure? ==> exists j :: 0 <= j < |vs| && vs[j].Failure?
  {
    if vs == [] then Success(None)
    else
      match vs[0]
      case Failure(e) => Failure(e)
      case Success(true) => Success(Some(0))
      case Success(false) =>
        var rest := FirstAccepted(vs[1..]);
        assert forall j :: 1 <= j < |vs| ==> vs[j] == vs[1..][j - 1];
        match rest
        case Failure(e) => Failure(e)
        case Success(None) => Success(None)
        case Success(Some(i)) => Success(Some(i + 1))
  }

  function FirstAnswering(kbs: seq<Record>, question: string, complexityReply: Result<string>, tool: QueryTool): Result<Option<nat>>
  {
    FirstAccepted(Verdicts(kbs, question, complexityReply, tool))
  }

  /** `", ".join(names)`: every name must be a text. */
  function JoinNames(names: seq<Json>): (r: Result<string>)
    ensures r.Success? <==> forall i :: 0 <= i < |names| ==> names[i].JStr?
  {
    if names == [] then Success("")
    else if !names[0].JStr? then Failure("TypeError: sequence item: expected str instance")
    else if |names| == 1 then Success(names[0].s)
    else
      match JoinNames(names[1..])
      case Success(t) => Success(names[0].s + ", " + t)
      case Failure(e) => Failure(e)
  }

  function NamesOf(kbs: seq<Record>): (names: seq<Json>)
    ensures |names| == |kbs| && forall i :: 0 <= i < |kbs| ==> names[i] == KbName(kbs[i])
  {
    seq(|kbs|, i requires 0 <= i < |kbs| => KbName(kbs[i]))
  }

  const NoAnswerError: string := "no_answer_found_in_any_kb"
  const NoFallbackError: string := "no_fallback_kbs"
  const NoFallbackMessage: string := "指定知识库无答案，且没有其他可用知识库"

  function FallbackSuccess(question: string, complexity: string, kb: Record, result: Record): AgentResult
  {
    var m := GetOr(result, "method", JNull);
    AgentResult(true,
      JObj([("question", JStr(question)), ("answer", AnswerOf(result)), ("method_used", m),
            ("complexity", JStr(complexity)), ("grag_id", KbId(kb))]),
      "查询成功 (知识库: " + Show(KbName(kb)) + ")", None,
      map["method" := m, "complexity" := JStr(complexity), "kb_name" := KbName(kb), "is_fallback" := JBool(true)])
  }

  /**
   * `_query_multiple_kbs`: the answer of the first record in list order
   * whose query is accepted; when none is, a failure naming how many
   * records were tried and listing their names.
   */
  function QueryMultipleKbs(question: string, kbs: seq<Record>, complexityReply: Result<string>, tool: QueryTool): (r: Result<AgentResult>)
    ensures FirstAnswering(kbs, question, complexityReply, tool).Success? && FirstAnswering(kbs, question, complexityReply, tool).value.Some? ==>
      var i := FirstAnswering(kbs, question, complexityReply, tool).value.value;
      r == Success(FallbackSuccess(question, AnalyzeComplexity(complexityReply), kbs[i], TryKb(kbs[i], question, complexityReply, tool)))
    ensures FirstAnswering(kbs, question, complexityReply, tool) == Success(None) && JoinNames(NamesOf(kbs)).Success? ==>
      r == Success(FailedResult("在指定知识库及 " + NatToString(|kbs|) + " 个备用知识库中均未找到相关答案。已尝试: "
                                + JoinNames(NamesOf(kbs)).value, NoAnswerError))
    ensures r.Failure? <==> (FirstAnswering(kbs, question, complexityReply, tool).Failure?
      || (FirstAnswering(kbs, question, complexityReply, tool) == Success(None) && JoinNames(NamesOf(kbs)).Failure?))
  {
    var complexity := AnalyzeComplexity(complexityReply);
    match FirstAnswering(kbs, question, complexityReply, tool)
    case Failure(e) => Failure(e)
    case Success(Some(i)) => Success(FallbackSuccess(question, complexity, kbs[i], TryKb(kbs[i], question, complexityReply, tool)))
    case Success(None) =>
      match JoinNames(NamesOf(kbs))
      case Failure(e) => Failure(e)
      case Success(names) =>
        Success(FailedResult("在指定知识库及 " + NatToString(|kbs|) + " 个备用知识库中均未找到相关答案。已尝试: " + names, NoAnswerError))
  }

  /** Whether `execute` tries the requested knowledge base first: a truthy id other than "default". */
  predicate Requested(gragId: Json)
  {
    Truthy(gragId) && gragId != JStr("default")
  }

  function RequestedSuccess(ctx: Context, result: Record): AgentResult
  {
    AgentResult(true,
      JObj([("question", JStr(ctx.question)), ("answer", AnswerOf(result)),
            ("method_used", GetOr(result, "method", JStr("unknown"))), ("grag_id", ctx.gragId)]),
      "在指定知识库中查询成功", None,
      map["method" := GetOr(result, "method", JNull), "kb_name" := JStr("用户指定知识库")])
  }

  /**
   * `execute`: the requested knowledge base first when there is one, then
   * the fallback list, which must not be empty. `allKbs` is the context's
   * `all_kbs` entry.
   */
  function Execute(ctx: Context, allKbs: seq<Record>, complexityReply: Result<string>, tool: QueryTool): (r: Result<AgentResult>)
    ensures Requested(ctx.gragId) && Accepted(RunQuery(ctx.gragId, ctx.question, complexityReply, tool)) == Success(true) ==>
      r == Success(RequestedSuccess(ctx, RunQuery(ctx.gragId, ctx.question, complexityReply, tool)))
    ensures (!Requested(ctx.gragId) || Accepted(RunQuery(ctx.gragId, ctx.question, complexityReply, tool)) == Success(false)) ==>
      r == (if Fallbacks(allKbs, ctx.gragId) == [] then Success(FailedResult(NoFallbackMessage, NoFallbackError))
            else QueryMultipleKbs(ctx.question, Fallbacks(allKbs, ctx.gragId), complexityReply, tool))
    ensures Requested(ctx.gragId) && Accepted(RunQuery(ctx.gragId, ctx.question, complexityReply, tool)).Failure? ==>
      r == Failure(Accepted(RunQuery(ctx.gragId, ctx.question, complexityReply, tool)).error)
  {
    var fromRequested :=
      if Requested(ctx.gragId) then
        var result := RunQuery(ctx.gragId, ctx.question, complexityReply, tool);
        match Accepted(result)
        case Failure(e) => Some(Failure(e))
        case Success(true) => Some(Success(RequestedSuccess(ctx, result)))
        case Success(false) => None
      else None;
    if fromRequested.Some? then fromRequested.value
    else
      var fallback := Fallbacks(allKbs, ctx.gragId);
      if fallback == [] then Success(FailedResult(NoFallbackMessage, NoFallbackError))
      else QueryMultipleKbs(ctx.question, fallback, complexityReply, tool)
  }

  /** Every successful result carries an answer longer than 20. */
  lemma SuccessHasLongAnswer(ctx: Context, allKbs: seq<Record>, complexityReply: Result<string>, tool: QueryTool)
    ensures Execute(ctx, allKbs, complexityReply, tool).Success? && Execute(ctx, allKbs, complexityReply, tool).value.success ==>
      var d := Execute(ctx, allKbs, complexityReply, tool).value.data;
      d.JObj? && |d.fields| > 1 && d.fields[1].0 == "answer" && Len(d.fields[1].1).Some? && Len(d.fields[1].1).value > MinAnswerLength
  {
    var q := RunQuery(ctx.gragId, ctx.question, complexityReply, tool);
    if !(Execute(ctx, allKbs, complexityReply, tool).Success? && Execute(ctx, allKbs, complexityReply, tool).value.success) {
    } else if Requested(ctx.gragId) && Accepted(q) == Success(true) {
      RequestedAnswerLong(ctx, q);
    } else {
      var fallback := Fallbacks(allKbs, ctx.gragId);
      assert Execute(ctx, allKbs, complexityReply, tool) == QueryMultipleKbs(ctx.question, fallback, complexityReply, tool);
      FallbackAnswerLong(ctx.question, fallback, complexityReply, tool);
    }
  }

  lemma RequestedAnswerLong(ctx: Context, result: Record)
    requires Accepted(result) == Success(true)
    ensures var d := RequestedSuccess(ctx, result).data;
      d.JObj? && |d.fields| > 1 && d.fields[1].0 == "answer" && Len(d.fields[1].1).Some? && Len(d.fields[1].1).value > MinAnswerLength
  {
    AcceptedAnswerLong(result);
  }

  lemma FallbackAnswerLong(question: string, kbs: seq<Record>, complexityReply: Result<string>, tool: QueryTool)
    ensures QueryMultipleKbs(question, kbs, complexityReply, tool).Success? && QueryMultipleKbs(question, kbs, complexityReply, tool).value.success ==>
      var d := QueryMultipleKbs(question, kbs, complexityReply, tool).value.data;
      d.JObj? && |d.fields| > 1 && d.fields[1].0 == "answer" && Len(d.fields[1].1).Some? && Len(d.fields[1].1).value > MinAnswerLength
  {
    var r := QueryMultipleKbs(question, kbs, complexityReply, tool);
    if r.Success? && r.value.success {
      var first := FirstAnswering(kbs, question, complexityReply, tool);
      assert first.Success? && first.value.Some?;
      var i := first.value.value;
      var result := TryKb(kbs[i], question, complexityReply, tool);
      assert r == Success(FallbackSuccess(question, AnalyzeComplexity(complexityReply), kbs[i], result));
      FallbackSuccessAnswer(question, AnalyzeComplexity(complexityReply), kbs[i], result);
    }
  }

  lemma FallbackSuccessAnswer(question: string, complexity: string, kb: Record, result: Record)
    requires Accepted(result) == Success(true)
    ensures var d := FallbackSuccess(question, complexity, kb, result).data;
      d.JObj? && |d.fields| > 1 && d.fields[1].0 == "answer" && Len(d.fields[1].1).Some? && Len(d.fields[1].1).value > MinAnswerLength
  {
    AcceptedAnswerLong(result);
  }

  /** An accepted query result has an answer longer than 20. */
  lemma AcceptedAnswerLong(result: Record)
    requires Accepted(result) == Success(true)
    ensures Len(AnswerOf(result)).Some? && Len(AnswerOf(result)).value > MinAnswerLength
  {
  }

  /**
   * With backend records and a requested id, a requested knowledge base
   * that gives no accepted answer is queried a second time, as the first
   * fallback candidate when it is first in the list.
   */
  lemma RequestedKbQueriedAgain(ctx: Context, kbs: seq<Record>, complexityReply: Result<string>, tool: QueryTool)
    requires kbs != [] && forall i :: 0 <= i < |kbs| ==> "grag_id" !in kbs[i]
    requires Requested(ctx.gragId)
    requires Accepted(RunQuery(ctx.gragId, ctx.question, complexityReply, tool)) == Success(false)
    ensures Execute(ctx, kbs, complexityReply, tool) == QueryMultipleKbs(ctx.question, kbs, complexityReply, tool)
  {
    BackendRecordsNeverExcluded(kbs, ctx.gragId);
  }
}
