/** The orchestrator: a name-keyed registry of delegates kept in insertion order,
    the selection call that asks the model which delegate fits a request, dispatch
    to that delegate or a self-answer, and the task ledger. */
module Meta {
  import opened Config
  import opened Wrappers
  import opened Text
  import opened BaseAgent
  import opened Strands

  /** The name the orchestrator records when it answers a request itself. */
  const META_NAME: string := "Meta Agent"
  const META_DESCRIPTION: string := "다른 에이전트들을 관리하고 조율하는 메타 에이전트"

  /** The fixed pieces of the selection prompt, in order. */
  const SELECTION_OPENING: string := "\n다음 에이전트들 중에서 주어진 작업에 가장 적합한 에이전트를 선택해주세요.\n\n사용 가능한 에이전트들:\n"
  const SELECTION_FIELD_REQUEST: string := "\n\n작업 요청: "
  const SELECTION_CLOSING: string := "\n\n가장 적합한 에이전트의 이름만 답변해주세요. 만약 어떤 에이전트도 적합하지 않다면 \"NONE\"이라고 답변해주세요.\n"

  /** The fixed pieces of the self-answer prompt, in order. */
  const META_OPENING: string := "\n당신은 메타 에이전트입니다. 다른 전문 에이전트들을 관리하고 조율하는 역할을 합니다.\n현재 다음과 같은 에이전트들을 관리하고 있습니다:\n\n"
  const META_FIELD_REQUEST: string := "\n\n사용자 요청: "
  const META_CLOSING: string := "\n\n이 요청에 대해 적절한 답변을 제공하거나, 필요한 경우 어떤 전문 에이전트가 필요한지 안내해주세요.\n"
  const NO_AGENTS_SUMMARY: string := "현재 관리 중인 에이전트가 없습니다."

  /** One entry of the task ledger. */
  datatype TaskRecord = TaskRecord(input: string, selectedAgent: string, output: string)

  /** `get_agent_status`. */
  datatype Status = Status(totalAgents: nat, agents: seq<map<string, string>>, totalTasks: nat)

  /** How the selection call ended: the model's answer, or an exception escaping it. */
  datatype SelectionCall = Replied(answer: string) | Raised

  /** The outcome of `_select_agent`: the chosen registry key, and the
      orchestrator's current model id afterwards. */
  datatype Selection = Selection(chosen: Option<string>, modelId: ModelId)

  predicate Distinct(s: seq<string>) {
    forall i, j :: 0 <= i < j < |s| ==> s[i] != s[j]
  }

  // ----- Registry order (the insertion order of the Python dict) -----

  /** Key order after `d[k] = v`: an existing key keeps its place, a new key goes
      to the end. */
  function InsertKey(order: seq<string>, k: string): (r: seq<string>)
    ensures |r| == if k in order then |order| else |order| + 1
    ensures r[..|order|] == order && k in r
    ensures forall x :: x in r <==> x in order || x == k
    ensures Distinct(order) ==> Distinct(r)
  {
    if k in order then order else order + [k]
  }

  /** Key order after `del d[k]` (or nothing, when `k` is absent). */
  function RemoveKey(order: seq<string>, k: string): (r: seq<string>)
    ensures |r| <= |order|
    ensures forall x :: x in r <==> x in order && x != k
  {
    if order == [] then []
    else if order[0] == k then RemoveKey(order[1..], k)
    else [order[0]] + RemoveKey(order[1..], k)
  }

  /** Removing a key present at position `i` of a duplicate-free order cuts out
      exactly that position: the other keys keep their relative order. */
  lemma {:induction false} RemoveKeyAt(order: seq<string>, k: string, i: nat)
    requires Distinct(order) && i < |order| && order[i] == k
    ensures RemoveKey(order, k) == order[..i] + order[i + 1..]
    decreases |order|
  {
    if i == 0 {
      RemoveKeyAbsent(order[1..], k);
    } else {
      assert Distinct(order[1..]);
      RemoveKeyAt(order[1..], k, i - 1);
      assert order[1..][..i - 1] + order[1..][i..] == order[1..i] + order[i + 1..];
      assert order[..i] == [order[0]] + order[1..i];
    }
  }

  /** Removing an absent key leaves the order as it is. */
  lemma {:induction false} RemoveKeyAbsent(order: seq<string>, k: string)
    requires k !in order
    ensures RemoveKey(order, k) == order
    decreases |order|
  {
    if order != [] {
      RemoveKeyAbsent(order[1..], k);
      assert order == [order[0]] + order[1..];
    }
  }

  /** Removal keeps the keys distinct and shortens the order by one exactly when
      the key was present. */
  lemma RemoveKeyDistinct(order: seq<string>, k: string)
    requires Distinct(order)
    ensures Distinct(RemoveKey(order, k))
    ensures |RemoveKey(order, k)| == if k in order then |order| - 1 else |order|
  {
    if k in order {
      var i :| 0 <= i < |order| && order[i] == k;
      RemoveKeyAt(order, k, i);
      CutDistinct(order, i);
    } else {
      RemoveKeyAbsent(order, k);
    }
  }

  lemma CutDistinct(order: seq<string>, i: nat)
    requires Distinct(order) && i < |order|
    ensures Distinct(order[..i] + order[i + 1..])
  {
    var r := order[..i] + order[i + 1..];
    forall p, q | 0 <= p < q < |r| ensures r[p] != r[q] {
      var p' := if p < i then p else p + 1;
      var q' := if q < i then q else q + 1;
      assert r[p] == order[p'];
      assert r[q] == order[q'];
    }
  }

  /** A duplicate-free order has as many entries as it has distinct keys. */
  lemma {:induction false} DistinctCardinality(order: seq<string>)
    requires Distinct(order)
    ensures |set x | x in order| == |order|
    decreases |order|
  {
    if order != [] {
      var tail := order[1..];
      assert Distinct(tail);
      DistinctCardinality(tail);
      assert (set x | x in order) == {order[0]} + (set x | x in tail);
      assert order[0] !in tail;
    }
  }

  /** A registry whose key order is duplicate-free and lists exactly the keys of
      its mapping has as many entries as its order. */
  lemma RegistrySize(names: seq<string>, agents: map<string, StrandsAgent>)
    requires Distinct(names) && forall n :: n in names <==> n in agents
    ensures |agents| == |names|
  {
    assert agents.Keys == set x | x in names;
    DistinctCardinality(names);
  }

  /** Adding the same key twice leaves one entry, in the place of the first add. */
  lemma InsertKeyIdempotent(order: seq<string>, k: string)
    ensures InsertKey(InsertKey(order, k), k) == InsertKey(order, k)
  {
  }

  // ----- Selection -----

  /** The decision of `_select_agent` once the selection call has ended: nothing on
      an empty registry, the first key when the call raised, otherwise the stripped
      answer when it is a key, and nothing when it is not. */
  function Choose(names: seq<string>, call: SelectionCall): (chosen: Option<string>)
    ensures chosen.Some? ==> chosen.value in names
    ensures names == [] ==> chosen == None
    ensures names != [] && call.Raised? ==> chosen == Some(names[0])
  {
    if names == [] then None
    else match call
      case Raised => Some(names[0])
      case Replied(answer) =>
        var selectedName := Strip(answer);
        if selectedName in names then Some(selectedName) else None
  }

  /** Only exact matches select: an answer selects `n` exactly when `n` is a key
      without surrounding whitespace and the answer is `n` with nothing but
      whitespace around it. A partial or fuzzy match never selects. */
  lemma ChooseExact(names: seq<string>, answer: string, n: string)
    ensures Choose(names, Replied(answer)) == Some(n) <==> n in names && Trimmed(n) && Padded(answer, n)
  {
    StripIff(answer, n);
  }

  /** A delegate whose name starts or ends with whitespace can never be selected
      from the model's answer, whatever the answer is. */
  lemma UntrimmedNameNeverChosen(names: seq<string>, answer: string, n: string)
    requires !Trimmed(n)
    ensures Choose(names, Replied(answer)) != Some(n)
  {
    ChooseExact(names, answer, n);
  }

  /** `- name: specialty (description)`, one line of the selection prompt. */
  function SelectionLine(name: string, agent: StrandsAgent): string {
    "- " + name + ": " + agent.specialty + " (" + agent.description + ")"
  }

  /** `- name: specialty`, one line of the agents summary. */
  function SummaryLine(name: string, agent: StrandsAgent): string {
    "- " + name + ": " + agent.specialty
  }

  /** The selection-prompt lines: one per key, in registry order. */
  function SelectionLines(names: seq<string>, agents: map<string, StrandsAgent>): (lines: seq<string>)
    requires forall n :: n in names ==> n in agents
    ensures |lines| == |names|
    ensures forall i :: 0 <= i < |names| ==> lines[i] == SelectionLine(names[i], agents[names[i]])
  {
    if names == [] then []
    else [SelectionLine(names[0], agents[names[0]])] + SelectionLines(names[1..], agents)
  }

  /** The summary lines: one per key, in registry order. */
  function SummaryLines(names: seq<string>, agents: map<string, StrandsAgent>): (lines: seq<string>)
    requires forall n :: n in names ==> n in agents
    ensures |lines| == |names|
    ensures forall i :: 0 <= i < |names| ==> lines[i] == SummaryLine(names[i], agents[names[i]])
  {
    if names == [] then []
    else [SummaryLine(names[0], agents[names[0]])] + SummaryLines(names[1..], agents)
  }

  /** The prompt of the selection call: the listing, then the request verbatim,
      just before the fixed closing instruction. */
  function SelectionPrompt(names: seq<string>, agents: map<string, StrandsAgent>, input: string): (p: string)
    requires forall n :: n in names ==> n in agents
    ensures |SELECTION_OPENING| + |Join(SelectionLines(names, agents), "\n")| <= |p|
    ensures p[..|SELECTION_OPENING| + |Join(SelectionLines(names, agents), "\n")|]
            == SELECTION_OPENING + Join(SelectionLines(names, agents), "\n")
    ensures |SELECTION_CLOSING| + |input| <= |p|
    ensures p[|p| - |SELECTION_CLOSING| - |input|..|p| - |SELECTION_CLOSING|] == input
  {
    var head := SELECTION_OPENING + Join(SelectionLines(names, agents), "\n") + SELECTION_FIELD_REQUEST;
    var p := head + input + SELECTION_CLOSING;
    assert p[|head|..|head| + |input|] == input;
    p
  }

  /** `_get_agents_summary`: a fixed sentence for an empty registry, otherwise the
      summary lines joined by newlines. */
  function AgentsSummary(names: seq<string>, agents: map<string, StrandsAgent>): (s: string)
    requires forall n :: n in names ==> n in agents
    ensures names == [] <==> s == NO_AGENTS_SUMMARY
    ensures names != [] ==> s == Join(SummaryLines(names, agents), "\n")
  {
    if names == [] then NO_AGENTS_SUMMARY
    else
      var lines := SummaryLines(names, agents);
      JoinStartsWithDash(lines);
      Join(lines, "\n")
  }

  lemma {:induction false} JoinStartsWithDash(lines: seq<string>)
    requires lines != [] && |lines[0]| >= 1 && lines[0][0] == '-'
    ensures |Join(lines, "\n")| >= 1 && Join(lines, "\n")[0] == '-'
  {
  }

  /** The prompt of the self-answer: the summary, then the request verbatim, just
      before the fixed closing instruction. */
  function MetaPrompt(names: seq<string>, agents: map<string, StrandsAgent>, input: string): (p: string)
    requires forall n :: n in names ==> n in agents
    ensures |META_OPENING| + |AgentsSummary(names, agents)| <= |p|
    ensures p[..|META_OPENING| + |AgentsSummary(names, agents)|] == META_OPENING + AgentsSummary(names, agents)
    ensures |META_CLOSING| + |input| <= |p|
    ensures p[|p| - |META_CLOSING| - |input|..|p| - |META_CLOSING|] == input
  {
    var head := META_OPENING + AgentsSummary(names, agents) + META_FIELD_REQUEST;
    var p := head + input + META_CLOSING;
    assert p[|head|..|head| + |input|] == input;
    p
  }

  /** Registering a new delegate in a non-empty registry adds exactly one line, at
      the end, to the summary every later self-answer prompt shows. */
  lemma SummaryAfterAdd(names: seq<string>, agents: map<string, StrandsAgent>, agent: StrandsAgent)
    requires forall n :: n in names ==> n in agents
    requires names != [] && agent.name !in names
    ensures var names' := InsertKey(names, agent.name);
            var agents' := agents[agent.name := agent];
            AgentsSummary(names', agents')
            == AgentsSummary(names, agents) + "\n" + SummaryLine(agent.name, agent)
  {
    var names' := InsertKey(names, agent.name);
    var agents' := agents[agent.name := agent];
    var lines := SummaryLines(names, agents);
    assert SummaryLines(names', agents') == lines + [SummaryLine(agent.name, agent)];
    JoinSnoc(lines, SummaryLine(agent.name, agent), "\n");
  }

  /** `_select_agent` as a whole: no call on an empty registry, the first key, with
      the id kept, when the call raises, otherwise one call with a budget of 100
      tokens, the id that call leaves, and the decision on its stripped answer. */
  function SelectionStep(names: seq<string>, agents: map<string, StrandsAgent>, current: ModelId,
                         input: string, backend: Backend, raises: bool): (s: Selection)
    requires forall n :: n in names ==> n in agents
    ensures s.chosen.Some? ==> s.chosen.value in names
    ensures names == [] ==> s == Selection(None, current)
    ensures s.modelId != current ==> s.modelId in ALTERNATIVE_MODEL_IDS
    ensures names != [] && raises ==> s.modelId == current
  {
    if names == [] then Selection(None, current)
    else if raises then Selection(Choose(names, Raised), current)
    else
      var inv := Invoke(current, backend, SelectionPrompt(names, agents, input), SELECTION_MAX_TOKENS);
      Selection(Choose(names, Replied(inv.response)), inv.modelId)
  }

  /** The id a step leaves: the current one on an empty registry or when the
      call raises, otherwise exactly the id the selection call leaves. */
  lemma SelectionStepModelId(names: seq<string>, agents: map<string, StrandsAgent>, current: ModelId,
                             input: string, backend: Backend, raises: bool)
    requires forall k :: k in names ==> k in agents
    ensures SelectionStep(names, agents, current, input, backend, raises).modelId
            == if names == [] || raises then current
               else Invoke(current, backend, SelectionPrompt(names, agents, input), SELECTION_MAX_TOKENS).modelId
  {
  }

  /** Which key the step selects: none on an empty registry, the first key when
      the call raises, otherwise exactly a key without surrounding whitespace that
      the answer of the selection call carries with only whitespace around it. */
  lemma SelectionStepIff(names: seq<string>, agents: map<string, StrandsAgent>, current: ModelId,
                         input: string, backend: Backend, raises: bool, n: string)
    requires forall k :: k in names ==> k in agents
    ensures SelectionStep(names, agents, current, input, backend, raises).chosen == Some(n)
            <==> names != [] &&
                 if raises then n == names[0]
                 else n in names && Trimmed(n)
                      && Padded(Invoke(current, backend, SelectionPrompt(names, agents, input), SELECTION_MAX_TOKENS).response, n)
  {
    var inv := Invoke(current, backend, SelectionPrompt(names, agents, input), SELECTION_MAX_TOKENS);
    ChooseExact(names, inv.response, n);
  }

  /** When the selection call succeeds on the current id with a key, padded
      with whitespace, that key is selected and the id stays. */
  lemma SelectionByAnswer(names: seq<string>, agents: map<string, StrandsAgent>, current: ModelId,
                          input: string, backend: Backend, answer: string, n: string)
    requires forall k :: k in names ==> k in agents
    requires n in names && Trimmed(n) && Padded(answer, n)
    requires backend(current, SelectionPrompt(names, agents, input), SELECTION_MAX_TOKENS) == Ok(answer)
    ensures SelectionStep(names, agents, current, input, backend, false) == Selection(Some(n), current)
  {
    ChooseExact(names, answer, n);
  }

  /** The `get_specialty_info` of every delegate, in registry order. */
  function SpecialtyInfos(names: seq<string>, agents: map<string, StrandsAgent>): (infos: seq<map<string, string>>)
    requires forall n :: n in names ==> n in agents
    reads agents.Values
    ensures |infos| == |names|
    ensures forall i :: 0 <= i < |names| ==> infos[i] == agents[names[i]].GetSpecialtyInfo()
  {
    if names == [] then []
    else [agents[names[0]].GetSpecialtyInfo()] + SpecialtyInfos(names[1..], agents)
  }

  /** The delegating branch of `process`: the selected delegate answers the
      request and its name is put in front of the answer. */
  method DelegateTo(agent: StrandsAgent, input: string, backend: Backend) returns (result: string)
    modifies agent`currentModelId, agent`conversationHistory
    ensures var inv := Invoke(old(agent.currentModelId), backend,
                              SpecializedPrompt(agent.specialty, agent.description, input), DEFAULT_MAX_TOKENS);
            && result == "[" + agent.name + "] " + inv.response
            && agent.currentModelId == inv.modelId
            && agent.conversationHistory == old(agent.conversationHistory) + [Exchange(input, inv.response)]
  {
    var response := agent.Process(input, backend);
    result := "[" + agent.name + "] " + response;
  }

  class MetaAgent {
    const name: string
    const description: string
    var currentModelId: ModelId
    /** The registry: `names` is the key order, `agents` the mapping. */
    var names: seq<string>
    var agents: map<string, StrandsAgent>
    var taskHistory: seq<TaskRecord>

    /** The keys are distinct and exactly those of the mapping, and every
        delegate is stored under its own name. */
    ghost predicate Valid()
      reads this
    {
      && Distinct(names)
      && (forall n :: n in names <==> n in agents)
      && (forall n :: n in agents ==> agents[n].name == n)
    }

    constructor ()
      ensures Valid()
      ensures name == META_NAME && description == META_DESCRIPTION
      ensures currentModelId == PRIMARY_MODEL_ID
      ensures names == [] && agents == map[] && taskHistory == []
    {
      name := META_NAME;
      description := META_DESCRIPTION;
      currentModelId := PRIMARY_MODEL_ID;
      names := [];
      agents := map[];
      taskHistory := [];
    }

    /** `add_agent`: keyed by the delegate's name, last write wins, a new name goes
        to the end of the order. */
    method AddAgent(agent: StrandsAgent)
      requires Valid()
      modifies this`names, this`agents
      ensures Valid()
      ensures names == InsertKey(old(names), agent.name)
      ensures agents == old(agents)[agent.name := agent]
    {
      names := InsertKey(names, agent.name);
      agents := agents[agent.name := agent];
    }

    /** `remove_agent`: deletes the name when present, does nothing otherwise. */
    method RemoveAgent(agentName: string)
      requires Valid()
      modifies this`names, this`agents
      ensures Valid()
      ensures names == RemoveKey(old(names), agentName)
      ensures agents == old(agents) - {agentName}
    {
      if agentName in agents {
        RemoveKeyDistinct(names, agentName);
        names := RemoveKey(names, agentName);
        agents := agents - {agentName};
      } else {
        RemoveKeyAbsent(names, agentName);
      }
    }

    /** `list_agents`: each delegate's specialty info, in registry order. */
    function ListAgents(): (infos: seq<map<string, string>>)
      requires Valid()
      reads this, agents.Values
      ensures |infos| == |names|
      ensures forall i :: 0 <= i < |names| ==>
                infos[i] == agents[names[i]].GetSpecialtyInfo() && infos[i]["name"] == names[i]
    {
      SpecialtyInfos(names, agents)
    }

    /** `invoke_bedrock_model` on the orchestrator's own sticky id. */
    method InvokeModel(prompt: string, maxTokens: int, backend: Backend) returns (response: string)
      requires Valid()
      modifies this`currentModelId
      ensures Valid()
      ensures Invocation(response, currentModelId) == Invoke(old(currentModelId), backend, prompt, maxTokens)
    {
      var modelId;
      response, modelId := InvokeWithFallback(currentModelId, backend, prompt, maxTokens);
      if modelId != currentModelId {
        currentModelId := modelId;
      }
    }

    /** `_select_agent`. `raises` stands for an exception escaping the selection
        call; the invoker itself turns every backend failure into a string. */
    method SelectAgent(input: string, backend: Backend, raises: bool) returns (selected: Option<StrandsAgent>)
      requires Valid()
      modifies this`currentModelId
      ensures Valid()
      ensures var s := SelectionStep(names, agents, old(currentModelId), input, backend, raises);
              currentModelId == s.modelId
              && selected == (if s.chosen.Some? then Some(agents[s.chosen.value]) else None)
    {
      if names == [] {
        return None;
      }
      var call: SelectionCall;
      if raises {
        call := Raised;
      } else {
        var prompt := SelectionPrompt(names, agents, input);
        var response := InvokeModel(prompt, SELECTION_MAX_TOKENS, backend);
        call := Replied(response);
      }
      var chosen := Choose(names, call);
      selected := if chosen.Some? then Some(agents[chosen.value]) else None;
    }

    /** `_handle_meta_task`: the self-answer with the default budget. */
    method HandleMetaTask(input: string, backend: Backend) returns (response: string)
      requires Valid()
      modifies this`currentModelId
      ensures Valid()
      ensures Invocation(response, currentModelId)
              == Invoke(old(currentModelId), backend, MetaPrompt(names, agents, input), DEFAULT_MAX_TOKENS)
    {
      var prompt := MetaPrompt(names, agents, input);
      response := InvokeModel(prompt, DEFAULT_MAX_TOKENS, backend);
    }

    /** `process`: select, then delegate (prefixing the delegate's name) or answer
        itself, and append exactly one ledger entry. Only the selected delegate
        changes; the registry does not. */
    method Process(input: string, backend: Backend, selectionRaises: bool) returns (result: string)
      requires Valid()
      modifies this, agents.Values
      ensures Valid()
      ensures names == old(names) && agents == old(agents)
      ensures var s := SelectionStep(old(names), old(agents), old(currentModelId), input, backend, selectionRaises);
              taskHistory == old(taskHistory)
                             + [TaskRecord(input, if s.chosen.Some? then s.chosen.value else META_NAME, result)]
      ensures var s := SelectionStep(old(names), old(agents), old(currentModelId), input, backend, selectionRaises);
              s.chosen.Some? ==>
                var agent := old(agents)[s.chosen.value];
                var inv := Invoke(old(agent.currentModelId), backend,
                                  SpecializedPrompt(agent.specialty, agent.description, input), DEFAULT_MAX_TOKENS);
                && result == "[" + s.chosen.value + "] " + inv.response
                && agent.currentModelId == inv.modelId
                && agent.conversationHistory == old(agent.conversationHistory) + [Exchange(input, inv.response)]
                && currentModelId == s.modelId
      ensures var s := SelectionStep(old(names), old(agents), old(currentModelId), input, backend, selectionRaises);
              s.chosen.None? ==>
                var inv := Invoke(s.modelId, backend, MetaPrompt(old(names), old(agents), input), DEFAULT_MAX_TOKENS);
                result == inv.response && currentModelId == inv.modelId
      ensures var s := SelectionStep(old(names), old(agents), old(currentModelId), input, backend, selectionRaises);
              forall agent :: agent in old(agents).Values && (s.chosen.None? || agent != old(agents)[s.chosen.value]) ==>
                agent.conversationHistory == old(agent.conversationHistory)
                && agent.currentModelId == old(agent.currentModelId)
    {
      hide SelectionStep, Invoke, MetaPrompt, SpecializedPrompt, SelectionPrompt, AgentsSummary, Join;
      var selected := SelectAgent(input, backend, selectionRaises);
      var selectedName: string;
      if selected.Some? {
        result := DelegateTo(selected.value, input, backend);
        selectedName := selected.value.name;
      } else {
        result := HandleMetaTask(input, backend);
        selectedName := META_NAME;
      }
      taskHistory := taskHistory + [TaskRecord(input, selectedName, result)];
    }

    /** `get_task_history`: the ledger, oldest entry first. */
    function GetTaskHistory(): (ledger: seq<TaskRecord>)
      reads this
      ensures ledger == taskHistory
    {
      taskHistory
    }

    /** `clear_task_history`: empties the ledger; the frame says nothing else changes. */
    method ClearTaskHistory()
      requires Valid()
      modifies this`taskHistory
      ensures Valid()
      ensures taskHistory == []
    {
      taskHistory := [];
    }

    /** `get_agent_status`: counts of delegates and of ledger entries, and the
        listing in registry order. */
    function GetAgentStatus(): (status: Status)
      requires Valid()
      reads this, agents.Values
      ensures status.totalAgents == |status.agents| == |names|
      ensures status.totalTasks == |taskHistory|
      ensures status.agents == ListAgents()
      ensures forall i :: 0 <= i < |names| ==> "name" in status.agents[i] && status.agents[i]["name"] == names[i]
    {
      RegistrySize(names, agents);
      Status(|agents|, ListAgents(), |taskHistory|)
    }

    /** `get_info`, inherited from the base agent. */
    function GetInfo(): (info: map<string, string>)
      reads this
      ensures info.Keys == {"name", "description", "current_model"}
      ensures info["name"] == name && info["description"] == description
      ensures info["current_model"] == IdString(currentModelId)
    {
      Info(name, description, currentModelId)
    }
  }
}
