# Strands multi-agent router, modelled in Dafny

This project models the orchestration core of a small multi-agent router built on
Amazon Bedrock. It has three parts:

- **The shared invoker.** `BaseAgent.invoke_bedrock_model` tries the agent's sticky
  current model id first and then every configured alternative, in order. It
  stops at the first answer. A failure stops the loop early when the failing id
  *equals the value* of the last candidate. A success on another id overwrites the
  sticky id.
- **The specialist delegate.** A `StrandsAgent` frames each request with its
  specialty and description, asks the invoker, and appends the exchange to its
  conversation log.
- **The orchestrator.** A `MetaAgent` keeps a name-keyed registry of delegates in
  insertion order. It asks the model which delegate fits a request and picks one
  on an exact match of the stripped answer, or the first registered delegate
  when the selection call raises. It then delegates, prefixing the
  reply with `[name] `, or answers itself. Every request adds one entry to a task
  ledger.

The Bedrock runtime is an injected oracle `Backend = (ModelId, prompt, maxTokens)
-> Reply`. A `Reply` is `Ok(text)` or `Err(message)`; any exception raised inside
the attempt is an `Err`.

The invoker loop is a method, `InvokeWithFallback`. It is proved equal to a
recursive specification, `Invoke`/`TryInOrder`, and the ordering, early-exit and
dead-code properties are proved as lemmas about that specification. The delegate
and the orchestrator are classes whose methods update their fields in place. The
Python dict is modelled as a key order (`names`) next to a map (`agents`), with an
invariant `Valid()` tying the two together.

Files:

- `config.dfy`: the model ids, the primary id and the ordered alternatives.
- `wrappers.dfy`: `Option`.
- `text.dfy`: Python's `str.strip()` and `"\n".join`.
- `base_agent.dfy`: the invoker.
- `strands_agent.dfy`: the delegate.
- `meta_agent.dfy`: the orchestrator.

## Model

| member | source | states |
|---|---|---|
| Config.IdStringInjective | strands-agents/config/aws_config.py:44-49 | two model ids have the same text exactly when they are the same id, so comparing ids is comparing the configured strings |
| Config.IdString | strands-agents/config/aws_config.py:44-49 | the text of each configured id; exactly the three alternatives after the first are `us.` cross-region inference profiles |
| BaseAgent.Candidates | strands-agents/agents/base_agent.py:27 | the candidate list has one more entry than the alternatives, starts with the current id, continues with the alternatives in order and ends with the last alternative |
| BaseAgent.TryInOrder | strands-agents/agents/base_agent.py:29-67 | an answer always comes from a candidate that returned exactly that text |
| BaseAgent.FailedBeforeTail | strands-agents/agents/base_agent.py:58-67 | "the first k+1 candidates failed without matching the last id" splits into the head and the first k of the tail |
| BaseAgent.AnsweredWitness | strands-agents/agents/base_agent.py:29-56 | an answer (t, m) comes from a position k where candidate m answered t and every earlier candidate failed without equalling the last id |
| BaseAgent.WitnessAnswered | strands-agents/agents/base_agent.py:29-56 | conversely, such a position k makes the loop answer (t, m) |
| BaseAgent.AnsweredIff | strands-agents/agents/base_agent.py:29-56 | both directions: the loop answers (t, m) exactly when such a position k exists |
| BaseAgent.FailedIff | strands-agents/agents/base_agent.py:58-64 | both directions: the loop returns the error for msg exactly when some candidate equal to the last id failed with msg and every earlier one failed without equalling it |
| BaseAgent.ExhaustedIff | strands-agents/agents/base_agent.py:29-69 | both directions: the loop runs off the end exactly when every candidate failed and none equals the last id |
| BaseAgent.NeverExhausted | strands-agents/agents/base_agent.py:63-69 | when the last id is the final candidate, the loop always returns from inside |
| BaseAgent.Invoke | strands-agents/agents/base_agent.py:23-69 | the id moves only to an alternative, and only to one that answered with the returned text; success on the current id returns its text and keeps the id |
| BaseAgent.InvokeWithFallback | strands-agents/agents/base_agent.py:23-69 | the loop returns the response and updated id that `Invoke` specifies |
| BaseAgent.NoModelsUnreachable | strands-agents/agents/base_agent.py:69 | the trailing "No models available" return is never reached |
| BaseAgent.InvokeAnswers | strands-agents/agents/base_agent.py:27-56 | both directions: the invocation answers t from m exactly when m is the first candidate to answer, with no earlier failure on an id equal to the last alternative |
| BaseAgent.InvokeFailsAt | strands-agents/agents/base_agent.py:58-64 | a failure on a candidate equal to the last alternative, after failures on ids that are not, returns the error string with that message and leaves the id unchanged |
| BaseAgent.InvokeMovesToFirstAnswer | strands-agents/agents/base_agent.py:29-56 | the sticky update: when candidate k answers and every earlier candidate failed without equalling the last alternative, the call returns that answer and the current id becomes candidate k's id |
| BaseAgent.InvokeFails | strands-agents/agents/base_agent.py:58-64 | when every model fails, the response carries the last alternative's message and the id is unchanged |
| BaseAgent.ResponseText | strands-agents/agents/base_agent.py:56-69 | an answer is returned verbatim; both failure endings return a string starting with "Error: ", and the all-failed string carries the last error message after its fixed prefix |
| BaseAgent.EarlyExitAtLastAlternative | strands-agents/agents/base_agent.py:63-64 | with the sticky id equal to the last alternative, one failure of that model ends the call at position 0 and no other candidate is tried |
| BaseAgent.LastAlternativeIsAbsorbing | strands-agents/agents/base_agent.py:52-64 | once the sticky id is the last alternative it never changes again |
| BaseAgent.Info | strands-agents/agents/base_agent.py:71-77 | `get_info` has exactly the keys name, description and current_model, with their values |
| Text.IsSpace | strands-agents/agents/meta_agent.py:77 | the characters `strip()` removes: space, tab, newline and carriage return are whitespace; ASCII letters, digits, `_` and `-` never are |
| Text.TrimStart | strands-agents/agents/meta_agent.py:77 | the result is a suffix not starting with whitespace, and everything dropped is whitespace |
| Text.TrimEnd | strands-agents/agents/meta_agent.py:77 | the result is a prefix not ending with whitespace, and everything dropped is whitespace |
| Text.Strip | strands-agents/agents/meta_agent.py:77 | `strip()` returns a core with no surrounding whitespace, with only whitespace around it in the input |
| Text.TrimBothEnds | strands-agents/agents/meta_agent.py:77 | trimming the start and then the end gives a trimmed core padded by whitespace in the input |
| Text.TrimStartPadded | strands-agents/agents/meta_agent.py:77 | leading whitespace in front of text that does not start with whitespace is exactly what the start trim drops |
| Text.TrimEndPadded | strands-agents/agents/meta_agent.py:77 | trailing whitespace behind text that does not end with whitespace is exactly what the end trim drops |
| Text.StripPadded | strands-agents/agents/meta_agent.py:77 | stripping a trimmed core surrounded by whitespace gives the core back |
| Text.StripIff | strands-agents/agents/meta_agent.py:77 | both directions: `strip(s) == core` exactly when core is trimmed and s is core padded with whitespace |
| Text.StripOfPadded | strands-agents/agents/meta_agent.py:77 | a trimmed core padded by whitespace is what `strip()` returns |
| Text.Join | strands-agents/agents/meta_agent.py:59-62 | `"\n".join`: no lines give the empty string; the result starts with the first line, followed by the separator when there is a second line |
| Text.JoinSnoc | strands-agents/agents/meta_agent.py:107-110 | joining one more line appends the separator and that line |
| Strands.SpecialistHeader | strands-agents/agents/strands_agent.py:31-37 | the part of the prompt before the request holds the specialty right after the opening and the description just before the request field, in that order |
| Strands.SpecializedPrompt | strands-agents/agents/strands_agent.py:29-42 | the prompt is the header, the verbatim request, and the closing, with the request at a fixed place |
| Strands.RequestRoundTrip | strands-agents/agents/strands_agent.py:29-42 | the request can be read back out of its prompt, and only the prompt built from a request gives that request back |
| Strands.SpecializedPromptInjective | strands-agents/agents/strands_agent.py:29-42 | two different requests to the same delegate never give the same prompt |
| Strands.StrandsAgent.constructor | strands-agents/agents/strands_agent.py:8-11 | a new delegate stores its name, description and specialty, starts on the primary id, and has an empty log |
| Strands.StrandsAgent.InvokeModel | strands-agents/agents/base_agent.py:23-69 | the response and the new sticky id are what `Invoke` specifies for the old id |
| Strands.StrandsAgent.Process | strands-agents/agents/strands_agent.py:13-27 | the response is the invoker's answer to the specialist prompt with budget 1000, error strings included, and the log grows by exactly the entry (input, response) |
| Strands.StrandsAgent.GetConversationHistory | strands-agents/agents/strands_agent.py:44-46 | the log, in append order |
| Strands.StrandsAgent.ClearHistory | strands-agents/agents/strands_agent.py:48-50 | the log is empty afterwards; only the log may change |
| Strands.StrandsAgent.GetInfo | strands-agents/agents/base_agent.py:71-77 | exactly the keys name, description and current_model, mapping to the delegate's name, its description and the text of its sticky id |
| Strands.StrandsAgent.GetSpecialtyInfo | strands-agents/agents/strands_agent.py:52-56 | the keys of `get_info()` plus "specialty"; every `get_info()` value is kept and "specialty" maps to the specialty |
| Meta.InsertKey | strands-agents/agents/meta_agent.py:20 | dict insertion order: an existing key keeps its place, a new key goes to the end, the earlier keys keep their order, and keys stay distinct |
| Meta.RemoveKey | strands-agents/agents/meta_agent.py:22-25 | the remaining keys are exactly the old ones other than the removed key |
| Meta.RemoveKeyAt | strands-agents/agents/meta_agent.py:22-25 | removing a key present at position i cuts out exactly that position, and the other keys keep their order |
| Meta.RemoveKeyAbsent | strands-agents/agents/meta_agent.py:24 | removing an absent key changes nothing |
| Meta.RemoveKeyDistinct | strands-agents/agents/meta_agent.py:22-25 | removal keeps the keys distinct and shortens the order by one exactly when the key was present |
| Meta.CutDistinct | strands-agents/agents/meta_agent.py:25 | cutting one position out of a duplicate-free order leaves it duplicate-free |
| Meta.DistinctCardinality | strands-agents/agents/meta_agent.py:123 | a duplicate-free order has as many entries as distinct keys |
| Meta.RegistrySize | strands-agents/agents/meta_agent.py:123 | the registry has as many entries as its key order |
| Meta.InsertKeyIdempotent | strands-agents/agents/meta_agent.py:20 | adding the same name twice leaves one entry, in the place of the first add |
| Meta.Choose | strands-agents/agents/meta_agent.py:77-85 | a choice is always a registry key; an empty registry gives none; an exception gives the first key in registry order |
| Meta.ChooseExact | strands-agents/agents/meta_agent.py:77-82 | both directions: the answer selects n exactly when n is a key without surrounding whitespace and the answer is n with only whitespace around it |
| Meta.UntrimmedNameNeverChosen | strands-agents/agents/meta_agent.py:77-82 | a delegate whose name starts or ends with whitespace is never selected by the answer |
| Meta.SelectionLines | strands-agents/agents/meta_agent.py:59-62 | one line `- name: specialty (description)` per key, in registry order |
| Meta.SummaryLines | strands-agents/agents/meta_agent.py:107-110 | one line `- name: specialty` per key, in registry order |
| Meta.SelectionPrompt | strands-agents/agents/meta_agent.py:59-73 | the prompt opens with the fixed header followed by the selection lines of every delegate joined by newlines, in registry order; the request appears verbatim just before the fixed closing instruction |
| Meta.AgentsSummary | strands-agents/agents/meta_agent.py:102-110 | both directions: the summary is the "no agents" sentence exactly when the registry is empty; otherwise it is the summary lines of every delegate joined by newlines, in registry order |
| Meta.JoinStartsWithDash | strands-agents/agents/meta_agent.py:107-110 | a joined listing whose first line starts with a dash starts with a dash |
| Meta.MetaPrompt | strands-agents/agents/meta_agent.py:89-98 | the prompt opens with the fixed header followed by the agents summary; the request appears verbatim just before the fixed closing instruction |
| Meta.SummaryAfterAdd | strands-agents/agents/meta_agent.py:18-20 | adding a new delegate to a non-empty registry adds exactly one summary line, at the end |
| Meta.SelectionStep | strands-agents/agents/meta_agent.py:53-85 | the choice is a registry key; an empty registry makes no call and keeps the id; an exception keeps the id; the id moves only to an alternative |
| Meta.SelectionStepModelId | strands-agents/agents/meta_agent.py:53-85 | the id the step leaves: the current one on an empty registry or when the call raises, otherwise exactly the id the selection call leaves |
| Meta.SelectionStepIff | strands-agents/agents/meta_agent.py:53-85 | both directions: the step selects n exactly when the registry is non-empty and either the call raised and n is the first key, or n is a key without surrounding whitespace that the selection call's answer carries with only whitespace around it |
| Meta.SelectionByAnswer | strands-agents/agents/meta_agent.py:75-80 | a selection call answered on the current id with a key padded by whitespace selects that key and keeps the id |
| Meta.SpecialtyInfos | strands-agents/agents/meta_agent.py:29 | one `get_specialty_info()` per key, in registry order |
| Meta.DelegateTo | strands-agents/agents/meta_agent.py:38-39 | the delegate answers through its own invoker, its log grows by one entry, and the result is `[name] ` followed by its answer |
| Meta.MetaAgent.constructor | strands-agents/agents/meta_agent.py:10-16 | the orchestrator is named "Meta Agent", starts on the primary id, and has an empty registry and ledger |
| Meta.MetaAgent.AddAgent | strands-agents/agents/meta_agent.py:18-20 | the registry maps the delegate's name to it (last write wins); the name keeps its place or goes to the end; other entries are unchanged |
| Meta.MetaAgent.RemoveAgent | strands-agents/agents/meta_agent.py:22-25 | the name is gone from the mapping and the order; an absent name changes nothing |
| Meta.MetaAgent.ListAgents | strands-agents/agents/meta_agent.py:27-29 | each delegate's specialty info, in registry order, with the "name" of entry i being key i |
| Meta.MetaAgent.InvokeModel | strands-agents/agents/base_agent.py:23-69 | the orchestrator's response and new sticky id are what `Invoke` specifies for its old id |
| Meta.MetaAgent.SelectAgent | strands-agents/agents/meta_agent.py:53-85 | the selected delegate is the one stored under the key `SelectionStep` chooses, and the sticky id is the one the selection call leaves |
| Meta.MetaAgent.HandleMetaTask | strands-agents/agents/meta_agent.py:87-100 | the self-answer is the invoker's answer to the meta prompt with budget 1000 |
| Meta.MetaAgent.Process | strands-agents/agents/meta_agent.py:31-51 | exactly one ledger entry, whose output is the result; a selected delegate gives `[name] ` plus its answer, and only its log grows by one; otherwise the entry names "Meta Agent", the result is the self-answer, and no delegate changes; the registry is unchanged |
| Meta.MetaAgent.GetTaskHistory | strands-agents/agents/meta_agent.py:112-114 | the ledger, oldest entry first |
| Meta.MetaAgent.ClearTaskHistory | strands-agents/agents/meta_agent.py:116-118 | the ledger is empty afterwards, only the ledger may change, and the registry invariant is kept |
| Meta.MetaAgent.GetAgentStatus | strands-agents/agents/meta_agent.py:120-126 | total_agents is the registry size and equals the listing's length; the listing is exactly `list_agents()`, entry i being the delegate under key i; total_tasks is the ledger's length |
| Meta.MetaAgent.GetInfo | strands-agents/agents/base_agent.py:71-77 | exactly the keys name, description and current_model, mapping to the orchestrator's name, its description and the text of its sticky id |

## Left out

- The Bedrock transport (base_agent.py:31-49) is a parameter. It covers the request body, `invoke_model` and JSON decoding. Any exception raised there is an `Err` reply.
- BaseAgent.Invoke: a reply is `Ok(text)` only when the decoded body has a `content[0].text`, and any other decoded body is an `Err`. In the source, that subscript (base_agent.py:56) and the `print` (base_agent.py:54) run after lines 52-53 have already moved the sticky id to the attempted model. So a malformed body, or a failing `print`, on an alternative moves the id, even though :58 catches the exception and the loop continues. The model keeps the id on every `Err`, so it does not capture this case.
- BaseAgent.InvokeFailsAt: "the id is unchanged" holds when every failure happens before line 52; see the BaseAgent.Invoke line above.
- BaseAgent.InvokeFails: "the id is unchanged" holds when every failure happens before line 52; see the BaseAgent.Invoke line above.
- The backend is a function, so two attempts on the same id within one call get the same reply. A live service could answer the repeated primary id differently the second time.
- Model ids are an enumeration of the four configured ids. The agents only ever hold those, and `IdString` gives each one's text. An id from outside the configuration is not modelled.
- Region selection, client construction, `get_model_config` and its content-type headers (aws_config.py) are I/O.
- The `print` logging at base_agent.py:54 and :60 is left out.
- Meta.MetaAgent.SelectAgent: an exception escaping the selection call is the parameter `raises`, and the model then keeps the orchestrator's sticky id. Exceptions at base_agent.py:54 and :56 are caught at :58 inside the invoker (see the BaseAgent.Invoke line). Several kinds can still reach the bare `except:` at meta_agent.py:83-85, which selects the first delegate. Among them:
  - a failing `print` in the handler at base_agent.py:60;
  - an exception outside `Exception`, such as `KeyboardInterrupt`, raised during the backend call at base_agent.py:42-49, which the invoker's `except Exception` does not catch;
  - a non-string answer making `strip()` raise at meta_agent.py:77.
  The id stays unchanged in these cases only when the invoker had not yet moved it. Otherwise the source keeps the moved id, and this is not modelled. Two examples: a malformed body on an alternative moves the id at base_agent.py:52-53 before a later attempt raises `KeyboardInterrupt`; and a non-string answer from an alternative moves the id before `strip()` raises.
- The `BaseAgent` abstract class has no counterpart, because the model has no inheritance. Both classes carry their own `currentModelId` and `InvokeModel`, and both call the one loop `InvokeWithFallback`.
- Strands.StrandsAgent.GetConversationHistory and Meta.MetaAgent.GetTaskHistory return the list as a value. The Python methods return the live list, so a caller's mutation would write through; that aliasing is not modelled.
- The registry's key order is a sequence next to a map, and `Valid()` ties them together. Python keeps both in one dict.
- The Streamlit UI (app.py) and the live smoke test (test_model.py) are not part of this model.
