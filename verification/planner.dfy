/**
 * `AgentPlanner` (agents/planner.py): the registry's capabilities are
 * listed in a prompt, an LLM answers with an `AGENT:` line and an optional
 * `PARAMS:` line, and the planner reads the agent name and the parameters
 * back out of the reply. The LLM is an oracle; a `Failure` is the exception
 * `plan` swallows.
 */
module Planner {
  import opened Wrappers
  import opened Text
  import opened JsonValues
  import opened Agents
  import CypherFilter

  // ---------------------------------------------------------------- the capability listing

  const ToolsPrefix: string := "  工具: "

  /** The lines one agent contributes: its name and description, then its tools when it has any. */
  function AgentLines(name: string, cap: Capability): (lines: seq<string>)
    ensures |lines| == if cap.tools == [] then 1 else 2
    ensures lines[0] == "- " + name + ": " + cap.description
    ensures cap.tools != [] ==> lines[1] == ToolsPrefix + Join(cap.tools, ", ")
  {
    ["- " + name + ": " + cap.description] + (if cap.tools != [] then [ToolsPrefix + Join(cap.tools, ", ")] else [])
  }

  /** Number of agents that list tools. */
  function WithTools(caps: seq<(string, Capability)>): nat
  {
    if caps == [] then 0 else (if caps[0].1.tools != [] then 1 else 0) + WithTools(caps[1..])
  }

  function CapabilityLines(caps: seq<(string, Capability)>): (lines: seq<string>)
    ensures |lines| == |caps| + WithTools(caps)
  {
    if caps == [] then [] else AgentLines(caps[0].0, caps[0].1) + CapabilityLines(caps[1..])
  }

  /** `_format_capabilities`: the lines joined by newlines. */
  function FormatCapabilities(caps: seq<(string, Capability)>): string
  {
    Join(CapabilityLines(caps), "\n")
  }

  /** Agents without tools give exactly one line each, in registry order. */
  lemma {:induction false} LinesWithoutTools(caps: seq<(string, Capability)>)
    requires forall i :: 0 <= i < |caps| ==> caps[i].1.tools == []
    ensures |CapabilityLines(caps)| == |caps|
    ensures forall i :: 0 <= i < |caps| ==> CapabilityLines(caps)[i] == "- " + caps[i].0 + ": " + caps[i].1.description
  {
    if caps != [] {
      LinesWithoutTools(caps[1..]);
      assert forall i :: 1 <= i < |caps| ==> caps[i] == caps[1..][i - 1];
    }
  }

  // ---------------------------------------------------------------- the agent name

  const AgentTag: string := "agent:"
  const ParamsTag: string := "params:"

  /** Start of the `\w+` group after a tag ending at `q`: the tag's trailing `\s*` is skipped. */
  function GroupStart(s: string, q: nat): (w: nat)
    requires q <= |s|
    ensures q <= w <= |s|
    ensures w == |s| || !IsSpace(s[w])
  {
    CypherFilter.SpaceRunSpan(s, q);
    q + CypherFilter.SpaceRun(s, q)
  }

  /**
   * `AGENT:\s*(\w+)` matches at `p` (case-insensitively): the tag, the
   * longest run of blanks, then at least one word character. A shorter run
   * of blanks cannot help, since a blank is not a word character.
   */
  predicate AgentMatchAt(s: string, p: nat)
  {
    OccursAt(Lower(s), AgentTag, p) && CypherFilter.WordRun(s, GroupStart(s, p + |AgentTag|)) > 0
  }

  /** The captured word of a match at `p`. */
  function AgentWord(s: string, p: nat): (w: string)
    requires AgentMatchAt(s, p)
    ensures w != [] && CypherFilter.AllWord(w)
  {
    var w := GroupStart(s, p + |AgentTag|);
    var n := CypherFilter.WordRun(s, w);
    CypherFilter.WordRunSpan(s, w);
    CypherFilter.SpanAllWord(s, w, w + n);
    s[w..w + n]
  }

  /** `re.search`: the first position at or after `from` where the pattern matches. */
  function FirstAgentMatch(s: string, from: nat): (r: Option<nat>)
    ensures r.Some? ==> from <= r.value && AgentMatchAt(s, r.value)
    ensures r.Some? ==> forall p :: from <= p < r.value ==> !AgentMatchAt(s, p)
    ensures r.None? ==> forall p :: from <= p ==> !AgentMatchAt(s, p)
    decreases |s| - from
  {
    if from + |AgentTag| > |s| then None
    else if AgentMatchAt(s, from) then Some(from)
    else FirstAgentMatch(s, from + 1)
  }

  /** The first known name that occurs in the lower-cased reply, compared lower-cased. */
  function FirstMentioned(low: string, known: seq<string>): (r: Option<string>)
    ensures r.Some? ==> exists k :: (0 <= k < |known| && known[k] == r.value && Contains(low, Lower(known[k]))
      && forall j :: 0 <= j < k ==> !Contains(low, Lower(known[j])))
    ensures r.None? <==> forall k :: 0 <= k < |known| ==> !Contains(low, Lower(known[k]))
  {
    if known == [] then None
    else if Contains(low, Lower(known[0])) then Some(known[0])
    else
      var r := FirstMentioned(low, known[1..]);
      assert forall k :: 1 <= k < |known| ==> known[k] == known[1..][k - 1];
      if r.Some? then
        var k :| 0 <= k < |known[1..]| && known[1..][k] == r.value && Contains(low, Lower(known[1..][k]))
          && forall j :: 0 <= j < k ==> !Contains(low, Lower(known[1..][j]));
        assert known[k + 1] == r.value;
        r
      else r
  }

  /**
   * `_parse_agent_name`: the word after the first `AGENT:` tag, else the
   * first registered name mentioned anywhere in the reply, else `None`.
   */
  function ParseAgentName(reply: string, known: seq<string>): (r: Option<string>)
    ensures FirstAgentMatch(reply, 0).Some? ==> r == Some(AgentWord(reply, FirstAgentMatch(reply, 0).value))
    ensures FirstAgentMatch(reply, 0).None? ==> r == FirstMentioned(Lower(reply), known)
    ensures FirstAgentMatch(reply, 0).None? && r.Some? ==> r.value in known
  {
    match FirstAgentMatch(reply, 0)
    case Some(p) => Some(AgentWord(reply, p))
    case None => FirstMentioned(Lower(reply), known)
  }

  /** A blank is never a word character, so the blank run and the word run cannot overlap. */
  lemma WordIsNotSpace(c: char)
    requires CypherFilter.IsWordChar(c)
    ensures !IsSpace(c)
  {
  }

  /**
   * The reply format the prompt asks for is read back exactly: a reply
   * that opens with `AGENT: <name>` names that agent, whatever follows the
   * name and whichever agents are registered.
   */
  lemma AgentLineRoundTrip(name: string, rest: string, known: seq<string>)
    requires name != [] && CypherFilter.AllWord(name)
    requires rest == [] || !CypherFilter.IsWordChar(rest[0])
    ensures ParseAgentName("AGENT: " + name + rest, known) == Some(name)
  {
    var s := "AGENT: " + name + rest;
    assert Lower(s)[..6] == AgentTag by {
      assert forall k :: 0 <= k < 6 ==> Lower(s)[k] == LowerChar(s[k]);
    }
    assert OccursAt(Lower(s), AgentTag, 0);
    assert s[6] == ' ' && s[7] == name[0];
    WordIsNotSpace(name[0]);
    CypherFilter.SpaceRunExact(s, 6, 1);
    assert GroupStart(s, 6) == 7;
    assert s[7..7 + |name|] == name;
    assert 7 + |name| == |s| || s[7 + |name|] == rest[0];
    CypherFilter.WordRunExact(s, 7, |name|);
    assert AgentMatchAt(s, 0);
  }

  // ---------------------------------------------------------------- the parameters

  /** Position of the first newline at or after `i`, or the end of `s`. */
  function LineEnd(s: string, i: nat): (e: nat)
    requires i <= |s|
    ensures i <= e <= |s| && '\n' !in s[i..e]
    ensures e < |s| ==> s[e] == '\n'
    decreases |s| - i
  {
    if i == |s| || s[i] == '\n' then i
    else
      var e := LineEnd(s, i + 1);
      assert s[i..e] == [s[i]] + s[i + 1..e];
      e
  }

  /**
   * The group of `PARAMS:\s*(.+)` at the first tag: the rest of the line
   * after the blanks (which may span newlines). When only blanks follow the
   * tag the group, if there is one, is blank, so it yields no parameters;
   * that case is `None`.
   */
  function ParamsGroup(reply: string): (g: Option<string>)
    ensures g.Some? ==> g.value != [] && !IsSpace(g.value[0]) && '\n' !in g.value
    ensures !Contains(Lower(reply), ParamsTag) ==> g.None?
  {
    match Find(Lower(reply), ParamsTag)
    case None => None
    case Some(p) =>
      var w := GroupStart(reply, p + |ParamsTag|);
      if w == |reply| then None
      else Some(reply[w..LineEnd(reply, w)])
  }

  /** An item `key=value` split at its first `=`, key and value trimmed; `None` for an item without `=`. */
  function Assignment(item: string): (a: Option<(string, string)>)
    ensures a.Some? <==> Contains(item, "=")
    ensures a.Some? ==> (item == SplitOnce(item, "=").0 + "=" + SplitOnce(item, "=").1
      && a.value == (Strip(SplitOnce(item, "=").0), Strip(SplitOnce(item, "=").1)))
  {
    if Contains(item, "=") then
      var (k, v) := SplitOnce(item, "=");
      Some((Strip(k), Strip(v)))
    else None
  }

  /** Whether a later assignment than the one at `i` sets the same key. */
  predicate Overridden(ps: seq<Option<(string, string)>>, i: nat)
    requires i < |ps| && ps[i].Some?
  {
    exists j :: i < j < |ps| && ps[j].Some? && ps[j].value.0 == ps[i].value.0
  }

  /** The dictionary the assignments build, applied in order. */
  function Assign(ps: seq<Option<(string, string)>>): map<string, string>
  {
    if ps == [] then map[]
    else
      var m := Assign(ps[..|ps| - 1]);
      match ps[|ps| - 1]
      case Some((k, v)) => m[k := v]
      case None => m
  }

  /** The keys are exactly the keys some item assigns. */
  lemma {:induction false} AssignKeys(ps: seq<Option<(string, string)>>, k: string)
    ensures k in Assign(ps) <==> exists i :: 0 <= i < |ps| && ps[i].Some? && ps[i].value.0 == k
  {
    if ps != [] {
      var init := ps[..|ps| - 1];
      AssignKeys(init, k);
      assert forall i :: 0 <= i < |init| ==> ps[i] == init[i];
    }
  }

  /** Each key maps to the value of the last item assigning it: later duplicates win. */
  lemma {:induction false} AssignLastWins(ps: seq<Option<(string, string)>>, i: nat)
    requires i < |ps| && ps[i].Some? && !Overridden(ps, i)
    ensures ps[i].value.0 in Assign(ps) && Assign(ps)[ps[i].value.0] == ps[i].value.1
  {
    var init := ps[..|ps| - 1];
    if i < |init| {
      assert init[i] == ps[i];
      AssignLastWins(init, i);
    }
  }

  /** `_parse_params`: the group split at commas and its assignments applied in order. */
  function ParseParams(reply: string): (m: map<string, string>)
    ensures ParamsGroup(reply).None? ==> m == map[]
    ensures ParamsGroup(reply).Some? ==> m == Assign(Assignments(Split(ParamsGroup(reply).value, ',')))
  {
    match ParamsGroup(reply)
    case None => map[]
    case Some(g) => Assign(Assignments(Split(g, ',')))
  }

  function Assignments(items: seq<string>): (ps: seq<Option<(string, string)>>)
    ensures |ps| == |items|
    ensures forall i :: 0 <= i < |items| ==> ps[i] == Assignment(items[i])
  {
    seq(|items|, i requires 0 <= i < |items| => Assignment(items[i]))
  }

  /** A key or value the `PARAMS:` format can carry unchanged. */
  predicate ParamText(t: string)
  {
    t != [] && Stripped(t) && ',' !in t && '=' !in t && '\n' !in t
  }

  /**
   * The parameter format the prompt asks for is read back exactly: a
   * reply ending in `PARAMS: key=value` yields that one parameter.
   */
  lemma ParamsLineRoundTrip(key: string, value: string)
    requires ParamText(key) && ParamText(value)
    ensures ParseParams("PARAMS: " + key + "=" + value) == map[key := value]
  {
    var item := key + "=" + value;
    assert "PARAMS: " + key + "=" + value == "PARAMS: " + item;
    ParamsGroupOfLine(item);
    AssignmentOfItem(key, value);
    SingleItemParams("PARAMS: " + item, item, (key, value));
  }

  lemma SingleItemParams(reply: string, item: string, kv: (string, string))
    requires ParamsGroup(reply) == Some(item) && Split(item, ',') == [item] && Assignment(item) == Some(kv)
    ensures ParseParams(reply) == map[kv.0 := kv.1]
  {
    var ps := Assignments(Split(item, ','));
    assert ps == [Some(kv)];
    AssignSingleton(kv);
  }

  lemma AssignSingleton(kv: (string, string))
    ensures Assign([Some(kv)]) == map[kv.0 := kv.1]
  {
    assert [Some(kv)][..0] == [];
  }

  /** The group of a reply `PARAMS: <item>` is the item, for an item that starts with a non-blank and holds no newline. */
  lemma ParamsGroupOfLine(item: string)
    requires item != [] && !IsSpace(item[0]) && '\n' !in item
    ensures ParamsGroup("PARAMS: " + item) == Some(item)
  {
    var s := "PARAMS: " + item;
    assert Lower(s)[..7] == ParamsTag by {
      assert forall k :: 0 <= k < 7 ==> Lower(s)[k] == LowerChar(s[k]);
    }
    assert OccursAt(Lower(s), ParamsTag, 0);
    assert Find(Lower(s), ParamsTag) == Some(0);
    assert s[7] == ' ' && s[8] == item[0];
    CypherFilter.SpaceRunExact(s, 7, 1);
    assert GroupStart(s, 7) == 8;
    assert s[8..] == item;
    assert LineEnd(s, 8) == |s|;
    assert GroupStart(s, 0 + |ParamsTag|) == 8;
    assert s[8..LineEnd(s, 8)] == item;
  }

  /** A clean `key=value` item is one comma-free item assigning `value` to `key`. */
  lemma AssignmentOfItem(key: string, value: string)
    requires ParamText(key) && ParamText(value)
    ensures Split(key + "=" + value, ',') == [key + "=" + value]
    ensures Assignment(key + "=" + value) == Some((key, value))
  {
    var item := key + "=" + value;
    assert ',' !in item;
    SplitNoSep(item, ',');
    SplitOnceAfterClean(key, "=", value);
    StripStripped(key);
    StripStripped(value);
  }

  // ---------------------------------------------------------------- planning

  /** The variable parts of the planning prompt. */
  datatype PlanPrompt = PlanPrompt(capabilities: string, query: string, gragId: string)

  /** Parameters enter the metadata as text values. */
  function AsJson(params: map<string, string>): (m: map<string, Json>)
    ensures m.Keys == params.Keys
    ensures forall k :: k in m ==> m[k] == JStr(params[k])
  {
    map k | k in params :: JStr(params[k])
  }

  /**
   * `plan`: the agent the reply names and the context metadata afterwards.
   * Parameters are merged, overriding existing keys, only when a non-empty
   * name was found; an LLM failure plans nothing and changes nothing.
   */
  function Plan(ctx: Context, reg: Registry, llm: PlanPrompt -> Result<string>): (r: (Option<string>, map<string, Json>))
    ensures var reply := llm(PlanPrompt(FormatCapabilities(AllCapabilities(reg)), ctx.question, Show(ctx.gragId)));
      && (reply.Failure? ==> r == (None, ctx.metadata))
      && (reply.Success? && r.0.Some? ==>
            r.0 == ParseAgentName(reply.value, ListAgents(reg))
            && r.1 == ctx.metadata + AsJson(ParseParams(reply.value)))
      && (reply.Success? && r.0.None? ==>
            r.1 == ctx.metadata && ParseAgentName(reply.value, ListAgents(reg)) in {None, Some("")})
    ensures r.0.Some? ==> r.0.value != ""
  {
    var prompt := PlanPrompt(FormatCapabilities(AllCapabilities(reg)), ctx.question, Show(ctx.gragId));
    match llm(prompt)
    case Failure(_) => (None, ctx.metadata)
    case Success(reply) =>
      var name := ParseAgentName(reply, ListAgents(reg));
      if name.Some? && name.value != "" then
        var params := ParseParams(reply);
        assert |params| == 0 ==> ctx.metadata + AsJson(params) == ctx.metadata;
        (name, if |params| > 0 then ctx.metadata + AsJson(params) else ctx.metadata)
      else (None, ctx.metadata)
  }
}
