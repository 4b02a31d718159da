/**
 * The agent framework (agents/base.py and agents/registry.py): execution
 * contexts and results with their defaults, agents that collect tools, and
 * the registry that keeps agents by name in registration order.
 */
module Agents {
  import opened Wrappers
  import opened Text
  import opened JsonValues

  // ---------------------------------------------------------------- contexts and results

  datatype Status = Idle | Running | Succeeded | Failed | Waiting
  {
    /** The enumeration's value. */
    function Value(): string
    {
      match this
      case Idle => "idle"
      case Running => "running"
      case Succeeded => "success"
      case Failed => "failed"
      case Waiting => "waiting"
    }
  }

  /** One turn of conversation history: a dictionary of strings. */
  type Turn = map<string, string>

  /**
   * `AgentContext`. The id is kept as a decoded value because callers pass
   * `None` or a knowledge-base record's raw `graph_key` as well as strings.
   */
  datatype Context = Context(gragId: Json, question: string, history: seq<Turn>, metadata: map<string, Json>)

  /** Building a context: a history or metadata left at `None` becomes empty. */
  function NewContext(gragId: Json, question: string, history: Option<seq<Turn>>,
                      metadata: Option<map<string, Json>>): (c: Context)
    ensures c.gragId == gragId && c.question == question
    ensures c.history == (if history.Some? then history.value else [])
    ensures c.metadata == (if metadata.Some? then metadata.value else map[])
  {
    Context(gragId, question, history.UnwrapOr([]), metadata.UnwrapOr(map[]))
  }

  /** `AgentResult` without its wall-clock `execution_time`. */
  datatype AgentResult = AgentResult(success: bool, data: Json, message: string,
                                     error: Option<string>, metadata: map<string, Json>)

  /** Building a result: metadata left at `None` becomes empty. */
  function NewResult(success: bool, data: Json, message: string, error: Option<string>,
                     metadata: Option<map<string, Json>>): (r: AgentResult)
    ensures r.success == success && r.data == data && r.message == message && r.error == error
    ensures r.metadata == (if metadata.Some? then metadata.value else map[])
  {
    AgentResult(success, data, message, error, metadata.UnwrapOr(map[]))
  }

  /** A failed result as the agents report it: no payload and an error code. */
  function FailedResult(message: string, error: string): (r: AgentResult)
    ensures !r.success && r.data == JNull && r.message == message && r.error == Some(error)
    ensures r.metadata == map[]
  {
    NewResult(false, JNull, message, Some(error), None)
  }

  // ---------------------------------------------------------------- agents

  /** A tool is known to an agent by its name only. */
  datatype Agent = Agent(name: string, description: string, status: Status, tools: seq<string>)

  /** `BaseAgent.__init__`: idle and without tools. */
  function NewAgent(name: string, description: string): (a: Agent)
    ensures a.name == name && a.description == description
    ensures a.status == Idle && a.tools == []
  {
    Agent(name, description, Idle, [])
  }

  /** `register_tool`: the tool goes to the end of the list, nothing else changes. */
  function RegisterTool(a: Agent, tool: string): (a': Agent)
    ensures a'.tools == a.tools + [tool]
    ensures a'.name == a.name && a'.description == a.description && a'.status == a.status
  {
    a.(tools := a.tools + [tool])
  }

  /** Registering several tools one after the other. */
  function RegisterTools(a: Agent, tools: seq<string>): Agent
    decreases |tools|
  {
    if tools == [] then a else RegisterTools(RegisterTool(a, tools[0]), tools[1..])
  }

  /** `get_capabilities`. */
  datatype Capability = Capability(name: string, description: string, tools: seq<string>)

  function CapabilitiesOf(a: Agent): (c: Capability)
    ensures c.name == a.name && c.description == a.description && c.tools == a.tools
  {
    Capability(a.name, a.description, a.tools)
  }

  /** A new agent given tools one by one lists exactly those tools, in registration order. */
  lemma {:induction false} RegisteredToolsListed(a: Agent, tools: seq<string>)
    ensures CapabilitiesOf(RegisterTools(a, tools)).tools == a.tools + tools
    ensures RegisterTools(a, tools).name == a.name && RegisterTools(a, tools).status == a.status
    decreases |tools|
  {
    if tools != [] {
      RegisteredToolsListed(RegisterTool(a, tools[0]), tools[1..]);
      assert a.tools + [tools[0]] + tools[1..] == a.tools + tools;
    }
  }

  // ---------------------------------------------------------------- the registry

  /** The agents in the order their names were first registered. */
  datatype Registry = Registry(agents: seq<Agent>)
  {
    /** A dictionary holds each name once. */
    ghost predicate Valid()
    {
      NoDups(Names(agents))
    }
  }

  function Names(agents: seq<Agent>): (ns: seq<string>)
    ensures |ns| == |agents|
    ensures forall i :: 0 <= i < |agents| ==> ns[i] == agents[i].name
  {
    seq(|agents|, i requires 0 <= i < |agents| => agents[i].name)
  }

  const EmptyRegistry: Registry := Registry([])

  /** `list_agents`. */
  function ListAgents(reg: Registry): (ns: seq<string>)
    ensures |ns| == |reg.agents|
    ensures forall i :: 0 <= i < |ns| ==> ns[i] == reg.agents[i].name
  {
    Names(reg.agents)
  }

  /** Position of the agent named `name`, if any. */
  function IndexOf(agents: seq<Agent>, name: string): (r: Option<nat>)
    ensures r.Some? ==> r.value < |agents| && agents[r.value].name == name
    ensures r.Some? ==> forall j :: 0 <= j < r.value ==> agents[j].name != name
    ensures r.None? <==> name !in Names(agents)
  {
    if agents == [] then None
    else if agents[0].name == name then Some(0)
    else
      match IndexOf(agents[1..], name)
      case Some(i) => Some(i + 1)
      case None => assert Names(agents) == [agents[0].name] + Names(agents[1..]); None
  }

  /** `get_agent`: the agent stored under `name`, or `None`. */
  function GetAgent(reg: Registry, name: string): (r: Option<Agent>)
    ensures r.None? <==> name !in ListAgents(reg)
    ensures r.Some? ==> r.value in reg.agents && r.value.name == name
  {
    match IndexOf(reg.agents, name)
    case Some(i) => Some(reg.agents[i])
    case None => None
  }

  /**
   * `register`: a new name is appended; a known name keeps its place and
   * its agent is replaced.
   */
  function Register(reg: Registry, a: Agent): (r: Registry)
    ensures ListAgents(r) == if a.name in ListAgents(reg) then ListAgents(reg) else ListAgents(reg) + [a.name]
    ensures GetAgent(r, a.name) == Some(a)
    ensures forall n :: n != a.name ==> GetAgent(r, n) == GetAgent(reg, n)
  {
    match IndexOf(reg.agents, a.name)
    case Some(i) =>
      var r := Registry(reg.agents[i := a]);
      assert Names(r.agents) == Names(reg.agents);
      forall n | n != a.name
        ensures GetAgent(r, n) == GetAgent(reg, n)
      {
        IndexOfReplaced(reg.agents, i, a, n);
      }
      r
    case None =>
      var r := Registry(reg.agents + [a]);
      assert Names(r.agents) == Names(reg.agents) + [a.name];
      IndexOfAppended(reg.agents, a, a.name);
      forall n | n != a.name
        ensures GetAgent(r, n) == GetAgent(reg, n)
      {
        IndexOfAppended(reg.agents, a, n);
      }
      r
  }

  lemma IndexOfReplaced(agents: seq<Agent>, i: nat, a: Agent, n: string)
    requires i < |agents| && agents[i].name == a.name && n != a.name
    ensures IndexOf(agents[i := a], n) == IndexOf(agents, n)
  {
    var b := agents[i := a];
    match IndexOf(agents, n)
    case Some(k) =>
      assert b[k] == agents[k];
      assert forall j :: 0 <= j < k ==> b[j].name == agents[j].name;
      IndexOfFirst(b, n, k);
    case None =>
      assert Names(b) == Names(agents);
  }

  lemma IndexOfAppended(agents: seq<Agent>, a: Agent, n: string)
    ensures n in Names(agents) ==> IndexOf(agents + [a], n) == IndexOf(agents, n)
    ensures n !in Names(agents) && n == a.name ==> IndexOf(agents + [a], n) == Some(|agents|)
    ensures n !in Names(agents) && n != a.name ==> IndexOf(agents + [a], n).None?
  {
    var b := agents + [a];
    assert Names(b) == Names(agents) + [a.name];
    match IndexOf(agents, n)
    case Some(k) =>
      assert b[k] == agents[k];
      IndexOfFirst(b, n, k);
    case None =>
      if n == a.name {
        assert forall j :: 0 <= j < |agents| ==> b[j].name != n by {
          forall j | 0 <= j < |agents| ensures b[j].name != n {
            assert Names(agents)[j] == agents[j].name;
          }
        }
        IndexOfFirst(b, n, |agents|);
      }
  }

  /** The first position holding a name is the one `IndexOf` finds. */
  lemma IndexOfFirst(agents: seq<Agent>, n: string, k: nat)
    requires k < |agents| && agents[k].name == n
    requires forall j :: 0 <= j < k ==> agents[j].name != n
    ensures IndexOf(agents, n) == Some(k)
  {
    assert Names(agents)[k] == n;
  }

  /** Every registration keeps one agent per name. */
  lemma RegisterValid(reg: Registry, a: Agent)
    requires reg.Valid()
    ensures Register(reg, a).Valid()
  {
    var r := Register(reg, a);
    assert Names(r.agents) == ListAgents(r);
    assert Names(reg.agents) == ListAgents(reg);
  }

  /** Registering agents in turn, starting from an empty registry. */
  function RegisterAll(agents: seq<Agent>): Registry
  {
    if agents == [] then EmptyRegistry else Register(RegisterAll(agents[..|agents| - 1]), agents[|agents| - 1])
  }

  /**
   * After registering a list of agents the registry lists each distinct
   * name once, in order of first registration.
   */
  lemma {:induction false} RegisterAllNames(agents: seq<Agent>)
    ensures ListAgents(RegisterAll(agents)) == Dedup(Names(agents))
  {
    if agents != [] {
      RegisterAllNames(agents[..|agents| - 1]);
      RegisterAllStep(agents);
    }
  }

  lemma RegisterAllStep(agents: seq<Agent>)
    requires agents != []
    ensures ListAgents(RegisterAll(agents[..|agents| - 1])) == Dedup(Names(agents[..|agents| - 1])) ==>
      ListAgents(RegisterAll(agents)) == Dedup(Names(agents))
  {
    var init := agents[..|agents| - 1];
    var a := agents[|agents| - 1];
    if ListAgents(RegisterAll(init)) == Dedup(Names(init)) {
      NamesOfInit(agents);
      RegisterStep(RegisterAll(init), a, Names(init));
    }
  }

  /** Hence a registry built by registrations holds each name once. */
  lemma RegisterAllValid(agents: seq<Agent>)
    ensures RegisterAll(agents).Valid()
  {
    RegisterAllNames(agents);
  }

  /** One registration step of `RegisterAllNames`. */
  lemma RegisterStep(prev: Registry, a: Agent, names: seq<string>)
    requires ListAgents(prev) == Dedup(names)
    ensures ListAgents(Register(prev, a)) == Dedup(names + [a.name])
  {
    DedupSnoc(names, a.name);
  }

  lemma NamesSnoc(agents: seq<Agent>, a: Agent)
    ensures Names(agents + [a]) == Names(agents) + [a.name]
  {
  }

  lemma NamesOfInit(agents: seq<Agent>)
    requires agents != []
    ensures Names(agents) == Names(agents[..|agents| - 1]) + [agents[|agents| - 1].name]
  {
    assert agents == agents[..|agents| - 1] + [agents[|agents| - 1]];
    NamesSnoc(agents[..|agents| - 1], agents[|agents| - 1]);
  }

  /** The agent stored under a name is the last one registered under it. */
  lemma {:induction false} RegisterAllLastWins(agents: seq<Agent>, k: nat)
    requires k < |agents|
    requires forall j :: k < j < |agents| ==> agents[j].name != agents[k].name
    ensures GetAgent(RegisterAll(agents), agents[k].name) == Some(agents[k])
  {
    var init := agents[..|agents| - 1];
    var a := agents[|agents| - 1];
    if k < |agents| - 1 {
      assert init[k] == agents[k];
      RegisterAllLastWins(init, k);
      assert a.name != agents[k].name;
    }
  }

  /**
   * `find_suitable_agent`: the first agent in registration order that can
   * handle the context, or `None` when none can. Whether an agent can
   * handle it is each agent's own test, passed in.
   */
  function FindSuitable(reg: Registry, canHandle: Agent -> bool): (r: Option<Agent>)
    ensures r.Some? ==> r.value in reg.agents && canHandle(r.value)
    ensures r.Some? ==> exists i :: (0 <= i < |reg.agents| && reg.agents[i] == r.value
      && forall j :: 0 <= j < i ==> !canHandle(reg.agents[j]))
    ensures r.None? <==> forall i :: 0 <= i < |reg.agents| ==> !canHandle(reg.agents[i])
  {
    FirstHandling(reg.agents, canHandle)
  }

  function FirstHandling(agents: seq<Agent>, canHandle: Agent -> bool): (r: Option<Agent>)
    ensures r.Some? ==> exists i :: (0 <= i < |agents| && agents[i] == r.value
      && forall j :: 0 <= j < i ==> !canHandle(agents[j]))
    ensures r.Some? ==> r.value in agents && canHandle(r.value)
    ensures r.None? <==> forall i :: 0 <= i < |agents| ==> !canHandle(agents[i])
  {
    if agents == [] then None
    else if canHandle(agents[0]) then Some(agents[0])
    else
      var r := FirstHandling(agents[1..], canHandle);
      if r.Some? then
        var i :| 0 <= i < |agents[1..]| && agents[1..][i] == r.value
          && forall j :: 0 <= j < i ==> !canHandle(agents[1..][j]);
        assert agents[i + 1] == r.value;
        assert forall j :: 1 <= j < i + 1 ==> agents[j] == agents[1..][j - 1];
        r
      else
        assert forall i :: 1 <= i < |agents| ==> agents[i] == agents[1..][i - 1];
        r
  }

  /** `get_all_capabilities`: one entry per registered name, in registration order. */
  function AllCapabilities(reg: Registry): (caps: seq<(string, Capability)>)
    ensures |caps| == |reg.agents|
    ensures forall i :: 0 <= i < |caps| ==> caps[i].0 == reg.agents[i].name && caps[i].1 == CapabilitiesOf(reg.agents[i])
  {
    seq(|reg.agents|, i requires 0 <= i < |reg.agents| => (reg.agents[i].name, CapabilitiesOf(reg.agents[i])))
  }

  /** The capability table has exactly the registered names as keys, each describing the agent `get_agent` returns. */
  lemma CapabilitiesMatchRegistry(reg: Registry, name: string)
    ensures (exists i :: 0 <= i < |AllCapabilities(reg)| && AllCapabilities(reg)[i].0 == name) <==> name in ListAgents(reg)
    ensures GetAgent(reg, name).Some? ==>
      exists i :: 0 <= i < |AllCapabilities(reg)| && AllCapabilities(reg)[i] == (name, CapabilitiesOf(GetAgent(reg, name).value))
  {
    var caps := AllCapabilities(reg);
    if name in ListAgents(reg) {
      var i := IndexOf(reg.agents, name).value;
      assert caps[i].0 == name;
    }
    if (exists i :: 0 <= i < |caps| && caps[i].0 == name) {
      var i :| 0 <= i < |caps| && caps[i].0 == name;
      assert ListAgents(reg)[i] == name;
    }
  }
}
