/**
 * Decision helpers of the process-aware audit service (services/yw_service.py):
 * merging risk levels, the key-release filter, reading model replies,
 * identifying the process an operation belongs to, the process check and its
 * defaults, the alarm rules, and the history context given to the model.
 * Model replies arrive as `Result<string>`: `Failure` is an exception raised
 * by the client.
 */
module YwAudit {
  import opened Wrappers
  import opened Text
  import opened JsonValues

  // ---------------------------------------------------------------- risk levels

  const RiskOrder: seq<string> := ["none", "low", "medium", "high"]

  /** The level a value denotes: itself when it is one of the four, else `"none"`. */
  function Level(j: Json): (l: string)
    ensures l in RiskOrder
  {
    if j.JStr? && j.s in RiskOrder then j.s else "none"
  }

  /** Position in none < low < medium < high; anything else ranks as none. */
  function Rank(l: string): (i: nat)
    ensures i < |RiskOrder|
    ensures l in RiskOrder ==> RiskOrder[i] == l
    ensures l !in RiskOrder ==> i == 0
  {
    if l == "low" then 1 else if l == "medium" then 2 else if l == "high" then 3 else 0
  }

  /**
   * `_merge_risk_level(level1, level2)`: the higher of the two levels, an
   * unknown level counting as none — the least upper bound of the two.
   */
  function MergeRiskLevel(a: Json, b: Json): (r: string)
    ensures r in RiskOrder
    ensures r == Level(a) || r == Level(b)
    ensures Rank(Level(a)) <= Rank(r) && Rank(Level(b)) <= Rank(r)
  {
    RiskOrder[Max(Rank(Level(a)), Rank(Level(b)))]
  }

  lemma MergeCommutative(a: Json, b: Json)
    ensures MergeRiskLevel(a, b) == MergeRiskLevel(b, a)
  {
  }

  lemma MergeIdempotent(a: Json)
    ensures MergeRiskLevel(a, a) == Level(a)
  {
  }

  lemma MergeAssociative(a: Json, b: Json, c: Json)
    ensures MergeRiskLevel(JStr(MergeRiskLevel(a, b)), c) == MergeRiskLevel(a, JStr(MergeRiskLevel(b, c)))
  {
  }

  /** `"none"` is neutral: merging with it only normalises the other level. */
  lemma MergeNoneNeutral(a: Json)
    ensures MergeRiskLevel(JStr("none"), a) == Level(a)
  {
  }

  // ---------------------------------------------------------------- event filter

  /** `"state" in value` for each decoded shape; `None` is the `TypeError` Python raises for scalars. */
  function StateMember(j: Json): Option<bool>
  {
    match j
    case JObj(f) => Some(HasKey(f, "state"))
    case JArr(items) => Some(JStr("state") in items)
    case JStr(s) => Some(Contains(s, "state"))
    case _ => None
  }

  /**
   * `_should_ignore_event`: a key or button release — content decoding to an
   * object whose `"state"` is `false` — is ignored. Undecodable content and
   * scalars are processed. A list or text that "contains" `"state"` reaches
   * `.get` and raises, which this handler does not catch.
   */
  function ShouldIgnoreEvent(content: string, parse: Parser): (r: Result<bool>)
    ensures r == Success(true) <==>
      parse(content).Some? && parse(content).value.JObj? &&
      Lookup(parse(content).value.fields, "state") == Some(JBool(false))
    ensures r.Failure? <==>
      parse(content).Some? && !parse(content).value.JObj? && StateMember(parse(content).value) == Some(true)
    ensures parse(content).None? ==> r == Success(false)
  {
    match parse(content)
    case None => Success(false)
    case Some(j) =>
      match StateMember(j)
      case None => Success(false)
      case Some(member) =>
        if !member then Success(false)
        else if j.JObj? then Success(Lookup(j.fields, "state") == Some(JBool(false)))
        else Failure("AttributeError: object has no attribute 'get'")
  }

  // ---------------------------------------------------------------- model replies

  const JsonFence: string := "```json"
  const Fence: string := "```"

  /**
   * The text `_parse_json_response` decodes: the stripped reply, narrowed to
   * what follows the first ```` ```json ```` up to the next ```` ``` ````,
   * or else to what lies between the first two ```` ``` ````.
   */
  function FencedText(response: string): string
  {
    var text := Strip(response);
    if Contains(text, JsonFence) then Strip(Before(Second(text, JsonFence), Fence))
    else if Contains(text, Fence) then Strip(Before(Second(text, Fence), Fence))
    else text
  }

  /** `_parse_json_response`: `None` when the decoder raises. */
  function ParseJsonResponse(response: string, parse: Parser): Option<Json>
  {
    parse(FencedText(response))
  }

  lemma FencedTextOfJson(t: string)
    requires Stripped(t) && Contains(t, JsonFence)
    ensures FencedText(t) == Strip(Before(Second(t, JsonFence), Fence))
  {
    StripStripped(t);
  }

  lemma FencedTextOfPlain(t: string)
    requires Stripped(t) && !Contains(t, JsonFence) && Contains(t, Fence)
    ensures FencedText(t) == Strip(Before(Second(t, Fence), Fence))
  {
    StripStripped(t);
  }

  /** A reply with one ```` ```json ```` block decodes the block's trimmed body. */
  lemma JsonFencedReply(pre: string, body: string, post: string)
    requires '`' !in pre && '`' !in body
    requires !Contains(body + Fence + post, JsonFence)
    requires Stripped(pre + JsonFence + body + Fence + post)
    ensures FencedText(pre + JsonFence + body + Fence + post) == Strip(body)
  {
    var rest := body + Fence + post;
    var t := pre + JsonFence + body + Fence + post;
    assert t == pre + JsonFence + rest;
    SplitOnceAfterClean(pre, JsonFence, rest);
    FencedTextOfJson(t);
    assert Second(t, JsonFence) == rest;
    BeforeAfterClean(body, Fence, post);
  }

  /** A reply with a plain ```` ``` ```` block, and no ```` ```json ````, decodes the block's trimmed body. */
  lemma PlainFencedReply(pre: string, body: string, post: string)
    requires '`' !in pre && '`' !in body
    requires !Contains(pre + Fence + body + Fence + post, JsonFence)
    requires Stripped(pre + Fence + body + Fence + post)
    ensures FencedText(pre + Fence + body + Fence + post) == Strip(body)
  {
    var rest := body + Fence + post;
    var t := pre + Fence + body + Fence + post;
    assert t == pre + Fence + rest;
    SplitOnceAfterClean(pre, Fence, rest);
    FencedTextOfPlain(t);
    BeforeAfterClean(body, Fence, post);
    assert Second(t, Fence) == body;
    NotContainsWithoutHead(body, Fence);
  }

  /** A reply without back-ticks is decoded whole, trimmed. */
  lemma UnfencedReply(response: string)
    requires '`' !in response
    ensures FencedText(response) == Strip(response)
  {
    NotContainsWithoutHead(Strip(response), JsonFence);
    NotContainsWithoutHead(Strip(response), Fence);
  }

  /**
   * How far a reply gets: the client raised, the reply was empty, it decoded
   * to nothing truthy, it decoded to something other than an object (whose
   * `.get` then raises), or it decoded to a non-empty object.
   */
  datatype Reading = Raised | EmptyReply | Unreadable | NotObject | Object(fields: seq<(string, Json)>)

  /** The checks `if not result` and `result.get(...)` applied to a decoded reply. */
  function Classify(decoded: Option<Json>): (r: Reading)
    ensures r != Raised && r != EmptyReply
    ensures r.Object? ==> r.fields != [] && decoded == Some(JObj(r.fields))
  {
    match decoded
    case None => Unreadable
    case Some(j) =>
      if !Truthy(j) then Unreadable
      else if j.JObj? then Object(j.fields)
      else NotObject
  }

  function ReadReply(reply: Result<string>, parse: Parser): (r: Reading)
    ensures r.Object? ==> r.fields != []
    ensures reply.Failure? <==> r == Raised
    ensures r == EmptyReply <==> reply == Success("")
  {
    match reply
    case Failure(_) => Raised
    case Success(text) =>
      if text == "" then EmptyReply
      else Classify(ParseJsonResponse(text, parse))
  }

  // ---------------------------------------------------------------- process identification

  /** `name in p or p in name`. */
  predicate Related(name: string, p: string)
  {
    Contains(p, name) || Contains(name, p)
  }

  /** The first listed process at or after `k` related to `name`. */
  function FirstRelatedFrom(processes: seq<string>, name: string, k: nat): (r: Option<nat>)
    ensures r.Some? ==> k <= r.value < |processes| && Related(name, processes[r.value])
    ensures r.Some? ==> forall j :: k <= j < r.value ==> !Related(name, processes[j])
    ensures r.None? ==> forall j :: k <= j < |processes| ==> !Related(name, processes[j])
    decreases |processes| - k
  {
    if k >= |processes| then None
    else if Related(name, processes[k]) then Some(k)
    else FirstRelatedFrom(processes, name, k + 1)
  }

  /**
   * The process name a reply proposes, when the reply gets as far as the
   * membership test. A missing, falsy or `"null"` name proposes nothing; so
   * does a non-text name, which is never a member and whose substring test
   * raises.
   */
  function ProposedName(reply: Result<string>, parse: Parser): (n: Option<string>)
    ensures n.Some? ==> n.value != "" && n.value != "null"
    ensures n.Some? ==> ReadReply(reply, parse).Object?
  {
    match ReadReply(reply, parse)
    case Object(f) =>
      var name := FieldOr(f, "process_name", JNull);
      if !Truthy(name) || name == JStr("null") || !name.JStr? then None
      else Some(name.s)
    case _ => None
  }

  /**
   * `_identify_process`: the proposed name when it is listed, else the first
   * listed process related to it by substring in either direction, else none.
   */
  function IdentifyProcess(reply: Result<string>, parse: Parser, processes: seq<string>): (r: Option<string>)
    ensures r.Some? ==> r.value in processes
    ensures ProposedName(reply, parse).None? ==> r.None?
    ensures ProposedName(reply, parse).Some? && ProposedName(reply, parse).value in processes ==>
      r == ProposedName(reply, parse)
    ensures ProposedName(reply, parse).Some? && ProposedName(reply, parse).value !in processes ==>
      (r.None? <==> forall j :: 0 <= j < |processes| ==> !Related(ProposedName(reply, parse).value, processes[j]))
    ensures r.Some? && r != ProposedName(reply, parse) ==>
      exists i :: 0 <= i < |processes| && processes[i] == r.value && Related(ProposedName(reply, parse).value, processes[i]) &&
        forall j :: 0 <= j < i ==> !Related(ProposedName(reply, parse).value, processes[j])
  {
    match ProposedName(reply, parse)
    case None => None
    case Some(name) =>
      if name in processes then Some(name)
      else match FirstRelatedFrom(processes, name, 0)
        case None => None
        case Some(i) => Some(processes[i])
  }

  // ---------------------------------------------------------------- process check

  /** The pair `_check_operation_in_process` returns. */
  datatype ProcessCheck = ProcessCheck(inProcess: Json, info: map<string, Json>)

  /** The fallback answer: in the process, no risk, level none. */
  function DefaultCheck(reason: string): (c: ProcessCheck)
    ensures Truthy(c.inProcess) && c.info.Keys == {"has_risk", "risk_level", "reason"}
  {
    ProcessCheck(JBool(true), map["has_risk" := JBool(false), "risk_level" := JStr("none"), "reason" := JStr(reason)])
  }

  /** A readable reply copied field by field; a missing `is_in_process` means "not in the process". */
  function CheckFromObject(f: seq<(string, Json)>): (c: ProcessCheck)
    ensures c.info.Keys == {"matched_operation", "has_risk", "risk_level", "reason"}
    ensures !HasKey(f, "is_in_process") ==> c.inProcess == JBool(false)
    ensures forall k :: k in c.info && HasKey(f, k) ==> Some(c.info[k]) == Lookup(f, k)
  {
    ProcessCheck(FieldOr(f, "is_in_process", JBool(false)), map[
      "matched_operation" := FieldOr(f, "matched_operation", JStr("")),
      "has_risk" := FieldOr(f, "has_risk", JBool(false)),
      "risk_level" := FieldOr(f, "risk_level", JStr("none")),
      "reason" := FieldOr(f, "reason", JStr(""))])
  }

  /**
   * `_check_operation_in_process`: an empty reply, an unreadable one or an
   * exception answers "in the process, no risk"; a readable object is copied.
   */
  function CheckInProcess(reply: Result<string>, parse: Parser): (c: ProcessCheck)
    ensures !ReadReply(reply, parse).Object? ==>
      c.inProcess == JBool(true) && "has_risk" in c.info && "risk_level" in c.info &&
      c.info["has_risk"] == JBool(false) && c.info["risk_level"] == JStr("none")
    ensures ReadReply(reply, parse).Object? ==> c == CheckFromObject(ReadReply(reply, parse).fields)
  {
    match ReadReply(reply, parse)
    case Raised => DefaultCheck("流程检查异常")
    case EmptyReply => DefaultCheck("LLM调用失败，默认认为在流程中")
    case Unreadable => DefaultCheck("解析失败，默认认为在流程中")
    case NotObject => DefaultCheck("流程检查异常")
    case Object(f) => CheckFromObject(f)
  }

  // ---------------------------------------------------------------- risk audit and alarms

  const FallbackKeywords: seq<string> := ["删除", "格式化", "shutdown", "rm -rf", "drop", "truncate"]

  function RiskResult(hasRisk: Json, level: Json, message: Json): (a: map<string, Json>)
    ensures a.Keys == {"has_risk", "risk_level", "alarm_message"}
    ensures a["has_risk"] == hasRisk && a["risk_level"] == level
  {
    map["has_risk" := hasRisk, "risk_level" := level, "alarm_message" := message]
  }

  /**
   * `_audit_operation_risk` after the model call: an exception falls back to
   * keyword matching on the lower-cased content; an empty or unreadable reply
   * means no risk; a readable object is copied with defaults.
   */
  function RiskAudit(reply: Result<string>, parse: Parser, content: string): (a: map<string, Json>)
    ensures a.Keys == {"has_risk", "risk_level", "alarm_message"}
    ensures reply.Failure? ==>
      (a["has_risk"] == JBool(true) <==> AnyOccurs(Lower(content), FallbackKeywords)) &&
      (a["risk_level"] == JStr("medium") <==> AnyOccurs(Lower(content), FallbackKeywords))
  {
    match ReadReply(reply, parse)
    case Raised | NotObject =>
      var hit := AnyOccurs(Lower(content), FallbackKeywords);
      RiskResult(JBool(hit), JStr(if hit then "medium" else "none"), JStr(if hit then "检测到可能的危险操作" else ""))
    case EmptyReply | Unreadable => RiskResult(JBool(false), JStr("none"), JStr(""))
    case Object(f) =>
      RiskResult(FieldOr(f, "has_risk", JBool(false)), FieldOr(f, "risk_level", JStr("none")), FieldOr(f, "alarm_message", JStr("")))
  }

  /** The alarm test of the standard, first-operation and in-process audits. */
  predicate RaisesAlarm(audit: map<string, Json>)
  {
    Truthy(GetOr(audit, "has_risk", JNull)) && GetOr(audit, "risk_level", JNull) != JStr("none")
  }

  /** With the model unreachable, an audit alarms exactly when the content holds a danger keyword. */
  lemma AlarmWithoutModel(parse: Parser, content: string, e: string)
    ensures RaisesAlarm(RiskAudit(Failure(e), parse, content)) <==> AnyOccurs(Lower(content), FallbackKeywords)
  {
    var a := RiskAudit(Failure(e), parse, content);
    if AnyOccurs(Lower(content), FallbackKeywords) {
      assert a["has_risk"] == JBool(true) && a["risk_level"] == JStr("medium");
    } else {
      assert a["has_risk"] == JBool(false);
    }
  }

  const SevereCode: string := "300001"
  const MinorCode: string := "200001"

  function HasRisk(d: map<string, Json>): bool
  {
    Truthy(GetOr(d, "has_risk", JBool(false)))
  }

  function RiskLevelOf(d: map<string, Json>): Json
  {
    GetOr(d, "risk_level", JStr("none"))
  }

  /**
   * `_handle_operation_out_of_process`: a severe alarm when either the audit
   * or the process check reports a risk and the merged level is high or
   * medium; otherwise a minor warning.
   */
  function OutOfProcessCode(audit: map<string, Json>, check: map<string, Json>): (code: string)
    ensures code == SevereCode || code == MinorCode
    ensures code == SevereCode <==>
      (HasRisk(audit) || HasRisk(check)) && (Rank(Level(RiskLevelOf(audit))) >= 2 || Rank(Level(RiskLevelOf(check))) >= 2)
  {
    var level := MergeRiskLevel(RiskLevelOf(audit), RiskLevelOf(check));
    if (HasRisk(audit) || HasRisk(check)) && level in ["high", "medium"] then SevereCode else MinorCode
  }

  /** Outcome of a follow-up operation in a known process. */
  datatype Verdict = Alarm | Normal | Coded(code: string)

  /** `_handle_followup_operation`: in-process operations get the standard audit, others the out-of-process rule. */
  function Followup(check: ProcessCheck, audit: map<string, Json>): (v: Verdict)
    ensures Truthy(check.inProcess) ==> (v == Alarm <==> RaisesAlarm(audit)) && !v.Coded?
    ensures !Truthy(check.inProcess) ==> v.Coded? && v.code == OutOfProcessCode(audit, check.info)
  {
    if Truthy(check.inProcess) then (if RaisesAlarm(audit) then Alarm else Normal)
    else Coded(OutOfProcessCode(audit, check.info))
  }

  /** A reply the process check cannot read keeps the operation in its process. */
  lemma UnreadableCheckStaysInProcess(reply: Result<string>, parse: Parser, audit: map<string, Json>)
    requires !ReadReply(reply, parse).Object?
    ensures !Followup(CheckInProcess(reply, parse), audit).Coded?
  {
  }

  /** A process check that reports no risk leaves the severe alarm to the audit's own risk and level. */
  lemma QuietCheckDefersToAudit(audit: map<string, Json>, check: map<string, Json>)
    requires !HasRisk(check) && Rank(Level(RiskLevelOf(check))) < 2
    ensures OutOfProcessCode(audit, check) == SevereCode <==> HasRisk(audit) && Rank(Level(RiskLevelOf(audit))) >= 2
  {
  }

  // ---------------------------------------------------------------- history context

  const NoHistoryText: string := "\n历史操作：无历史操作记录"
  const HistoryErrorText: string := "\n历史操作：无法获取历史记录"

  /** `records[-k:] if len(records) > k else records`, as written. */
  function HistoryWindowAsWritten<T>(records: seq<T>, maxOperations: int): seq<T>
  {
    if |records| > maxOperations then SliceFrom(records, -maxOperations) else records
  }

  /** With a limit of zero the slice `records[-0:]` is the whole list, not an empty one. */
  lemma HistoryWindowZeroKeepsAll<T>(records: seq<T>)
    requires records != []
    ensures HistoryWindowAsWritten(records, 0) == records
    ensures |HistoryWindowAsWritten(records, 0)| > 0
  {
  }

  /** The last `maxOperations` records, or all of them when there are fewer. */
  function HistoryWindow<T>(records: seq<T>, maxOperations: nat): (w: seq<T>)
    ensures |w| == Min(maxOperations, |records|)
    ensures w == records[|records| - |w|..]
  {
    if |records| > maxOperations then records[|records| - maxOperations..] else records
  }

  /** For every positive limit the code as written already takes the intended window. */
  lemma HistoryWindowAgrees<T>(records: seq<T>, maxOperations: nat)
    requires maxOperations > 0
    ensures HistoryWindowAsWritten(records, maxOperations) == HistoryWindow(records, maxOperations)
  {
  }

  function HistoryItem(idx: nat, summary: string): string
  {
    "历史操作" + NatToString(idx) + ": " + summary
  }

  function HistoryHeader(n: nat): string
  {
    "\n\n【历史操作上下文（最近" + NatToString(n) + "条）】\n"
  }

  /** One numbered line per record of the window, from 1. */
  function HistoryItems(w: seq<map<string, string>>): (items: seq<string>)
    requires forall i :: 0 <= i < |w| ==> "summary" in w[i]
    ensures |items| == |w|
    ensures forall i :: 0 <= i < |w| ==> items[i] == HistoryItem(i + 1, w[i]["summary"])
  {
    seq(|w|, i requires 0 <= i < |w| => HistoryItem(i + 1, w[i]["summary"]))
  }

  /**
   * `_get_history_summary`: a fixed text when the store fails or a record
   * lacks its summary, another when there are no records, else a header
   * with the count and the latest records' summaries numbered from 1.
   */
  function HistorySummary(records: Result<seq<map<string, string>>>, maxOperations: nat): (r: string)
    ensures records.Failure? ==> r == HistoryErrorText
    ensures records == Success([]) ==> r == NoHistoryText
  {
    match records
    case Failure(_) => HistoryErrorText
    case Success(rs) =>
      if rs == [] then NoHistoryText
      else
        var w := HistoryWindow(rs, maxOperations);
        if forall i :: 0 <= i < |w| ==> "summary" in w[i] then
          HistoryHeader(|w|) + Join(HistoryItems(w), "\n")
        else HistoryErrorText
  }

  /**
   * When every record of the window has a summary, the text is the header
   * counting the window followed by those summaries, numbered from 1.
   */
  lemma HistorySummaryListsWindow(records: seq<map<string, string>>, maxOperations: nat)
    requires records != []
    requires forall i :: |records| - Min(maxOperations, |records|) <= i < |records| ==> "summary" in records[i]
    ensures var n := |records|;
      var m := Min(maxOperations, n);
      HistorySummary(Success(records), maxOperations) ==
        HistoryHeader(m) + Join(seq(m, i requires 0 <= i < m => HistoryItem(i + 1, records[n - m + i]["summary"])), "\n")
  {
    var n := |records|;
    var w := HistoryWindow(records, maxOperations);
    var m := |w|;
    assert forall i :: 0 <= i < m ==> w[i] == records[n - m + i];
    assert HistoryItems(w) == seq(m, i requires 0 <= i < m => HistoryItem(i + 1, records[n - m + i]["summary"]));
  }

  /** A record of the window without a summary gives the error text. */
  lemma HistorySummaryMissing(records: seq<map<string, string>>, maxOperations: nat, j: nat)
    requires |records| - Min(maxOperations, |records|) <= j < |records|
    requires "summary" !in records[j]
    ensures HistorySummary(Success(records), maxOperations) == HistoryErrorText
  {
    var w := HistoryWindow(records, maxOperations);
    assert w[j - (|records| - |w|)] == records[j];
  }
}
