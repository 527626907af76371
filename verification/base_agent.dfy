/** The state and the model invocation every agent shares: the agent's name and
    description, its sticky current model id, and the call that tries that id and
    then every configured alternative in order until one answers. */
module BaseAgent {
  import opened Config

  /** What the backend gives for one attempt: the text of the first content block
      of the response, or the message of the exception the attempt raised. */
  datatype Reply = Ok(text: string) | Err(message: string)

  /** The Bedrock runtime, injected: model id, prompt and token budget to a reply. */
  type Backend = (ModelId, string, int) -> Reply

  /** The replies of one invocation, one per model id (prompt and budget fixed). */
  type Replies = ModelId -> Reply

  /** How the candidate loop ends: a success, the early error return, or running
      off the end of the list. */
  datatype Attempt = Answered(text: string, modelId: ModelId) | AllFailed(lastError: string) | Exhausted

  /** What an invocation returns, with the agent's current model id afterwards. */
  datatype Invocation = Invocation(response: string, modelId: ModelId)

  const ALL_FAILED_PREFIX: string := "Error: All models failed. Last error: "
  const NO_MODELS: string := "Error: No models available"

  /** The candidate list: the current id, then the alternatives. */
  function Candidates(current: ModelId): (c: seq<ModelId>)
    ensures |c| == |ALTERNATIVE_MODEL_IDS| + 1 && c[0] == current
    ensures c[|c| - 1] == LAST_ALTERNATIVE
    ensures c[1..] == ALTERNATIVE_MODEL_IDS
  {
    [current] + ALTERNATIVE_MODEL_IDS
  }

  /** The candidate loop as a recursion over the remaining candidates. A failure
      returns early when the failing id EQUALS `last` (the value of the final
      candidate), wherever in the list it stands. */
  function TryInOrder(candidates: seq<ModelId>, last: ModelId, replies: Replies): (a: Attempt)
    ensures a.Answered? ==> a.modelId in candidates && replies(a.modelId) == Ok(a.text)
    decreases |candidates|
  {
    if candidates == [] then Exhausted
    else match replies(candidates[0])
      case Ok(text) => Answered(text, candidates[0])
      case Err(message) =>
        if candidates[0] == last then AllFailed(message)
        else TryInOrder(candidates[1..], last, replies)
  }

  /** The first `k` candidates all failed without triggering the early return. */
  predicate FailedBefore(candidates: seq<ModelId>, last: ModelId, replies: Replies, k: nat)
    requires k <= |candidates|
  {
    forall j :: 0 <= j < k ==> replies(candidates[j]).Err? && candidates[j] != last
  }

  lemma FailedBeforeTail(candidates: seq<ModelId>, last: ModelId, replies: Replies, k: nat)
    requires candidates != [] && k < |candidates|
    ensures FailedBefore(candidates, last, replies, k + 1) <==>
            replies(candidates[0]).Err? && candidates[0] != last
            && FailedBefore(candidates[1..], last, replies, k)
  {
    if replies(candidates[0]).Err? && candidates[0] != last && FailedBefore(candidates[1..], last, replies, k) {
      forall j | 0 <= j < k + 1
        ensures replies(candidates[j]).Err? && candidates[j] != last
      {
        if j > 0 { assert candidates[j] == candidates[1..][j - 1]; }
      }
    }
  }

  /** An answer comes from some candidate `k` that answered it, every candidate
      before `k` having failed without being equal to `last`. */
  lemma {:induction false} AnsweredWitness(candidates: seq<ModelId>, last: ModelId, replies: Replies, t: string, m: ModelId)
    returns (k: nat)
    requires TryInOrder(candidates, last, replies) == Answered(t, m)
    ensures k < |candidates| && FailedBefore(candidates, last, replies, k)
            && candidates[k] == m && replies(candidates[k]) == Ok(t)
    decreases |candidates|
  {
    if replies(candidates[0]).Ok? {
      k := 0;
    } else {
      var tail := candidates[1..];
      var j := AnsweredWitness(tail, last, replies, t, m);
      FailedBeforeTail(candidates, last, replies, j);
      k := j + 1;
      assert candidates[k] == tail[j];
    }
  }

  /** Conversely, the first candidate reached that answers gives the loop's answer. */
  lemma {:induction false} WitnessAnswered(candidates: seq<ModelId>, last: ModelId, replies: Replies, t: string, m: ModelId, k: nat)
    requires k < |candidates| && FailedBefore(candidates, last, replies, k)
    requires candidates[k] == m && replies(candidates[k]) == Ok(t)
    ensures TryInOrder(candidates, last, replies) == Answered(t, m)
    decreases k
  {
    if k > 0 {
      FailedBeforeTail(candidates, last, replies, k - 1);
      assert candidates[1..][k - 1] == candidates[k];
      WitnessAnswered(candidates[1..], last, replies, t, m, k - 1);
    }
  }

  /** The loop answers with text `t` from model `m` exactly when some candidate `k`
      equal to `m` answered `t` and every candidate before it failed without being
      equal to `last`. */
  lemma {:induction false} AnsweredIff(candidates: seq<ModelId>, last: ModelId, replies: Replies, t: string, m: ModelId)
    ensures TryInOrder(candidates, last, replies) == Answered(t, m) <==>
            exists k :: 0 <= k < |candidates| && FailedBefore(candidates, last, replies, k)
                        && candidates[k] == m && replies(candidates[k]) == Ok(t)
  {
    if TryInOrder(candidates, last, replies) == Answered(t, m) {
      var k := AnsweredWitness(candidates, last, replies, t, m);
    }
    if exists k :: 0 <= k < |candidates| && FailedBefore(candidates, last, replies, k)
                   && candidates[k] == m && replies(candidates[k]) == Ok(t) {
      var k :| 0 <= k < |candidates| && FailedBefore(candidates, last, replies, k)
               && candidates[k] == m && replies(candidates[k]) == Ok(t);
      WitnessAnswered(candidates, last, replies, t, m, k);
    }
  }

  /** The loop returns the error for message `msg` exactly when some candidate `k`
      equal to `last` failed with `msg` and every candidate before it failed without
      being equal to `last`. */
  lemma {:induction false} FailedIff(candidates: seq<ModelId>, last: ModelId, replies: Replies, msg: string)
    ensures TryInOrder(candidates, last, replies) == AllFailed(msg) <==>
            exists k :: 0 <= k < |candidates| && FailedBefore(candidates, last, replies, k)
                        && candidates[k] == last && replies(candidates[k]) == Err(msg)
    decreases |candidates|
  {
    if candidates != [] {
      var tail := candidates[1..];
      FailedIff(tail, last, replies, msg);
      if replies(candidates[0]).Err? && candidates[0] != last {
        if TryInOrder(candidates, last, replies) == AllFailed(msg) {
          var k :| 0 <= k < |tail| && FailedBefore(tail, last, replies, k)
                   && tail[k] == last && replies(tail[k]) == Err(msg);
          FailedBeforeTail(candidates, last, replies, k);
          assert candidates[k + 1] == tail[k];
        }
        if exists k :: 0 <= k < |candidates| && FailedBefore(candidates, last, replies, k)
                       && candidates[k] == last && replies(candidates[k]) == Err(msg) {
          var k :| 0 <= k < |candidates| && FailedBefore(candidates, last, replies, k)
                   && candidates[k] == last && replies(candidates[k]) == Err(msg);
          assert k != 0;
          FailedBeforeTail(candidates, last, replies, k - 1);
          assert tail[k - 1] == candidates[k];
        }
      } else {
        if exists k :: 0 <= k < |candidates| && FailedBefore(candidates, last, replies, k)
                       && candidates[k] == last && replies(candidates[k]) == Err(msg) {
          var k :| 0 <= k < |candidates| && FailedBefore(candidates, last, replies, k)
                   && candidates[k] == last && replies(candidates[k]) == Err(msg);
          assert k == 0;
        }
      }
    }
  }

  /** The loop runs off the end exactly when every candidate failed and none of
      them equals `last`. */
  lemma {:induction false} ExhaustedIff(candidates: seq<ModelId>, last: ModelId, replies: Replies)
    ensures TryInOrder(candidates, last, replies) == Exhausted <==>
            FailedBefore(candidates, last, replies, |candidates|)
    decreases |candidates|
  {
    if candidates != [] {
      ExhaustedIff(candidates[1..], last, replies);
      FailedBeforeTail(candidates, last, replies, |candidates| - 1);
    }
  }

  /** When `last` is the final candidate the loop always returns from inside. */
  lemma {:induction false} NeverExhausted(candidates: seq<ModelId>, replies: Replies)
    requires candidates != []
    ensures TryInOrder(candidates, candidates[|candidates| - 1], replies) != Exhausted
  {
    ExhaustedIff(candidates, candidates[|candidates| - 1], replies);
  }

  /** The string the invocation returns for each way the loop ends: an answer
      verbatim, and for either failure an "Error: " string; the last error
      message can be read back out of the all-failed string. */
  function ResponseText(a: Attempt): (s: string)
    ensures a.Answered? ==> s == a.text
    ensures !a.Answered? ==> |s| >= 7 && s[..7] == "Error: "
    ensures a.AllFailed? ==> |ALL_FAILED_PREFIX| <= |s| && s[|ALL_FAILED_PREFIX|..] == a.lastError
  {
    match a
    case Answered(text, _) => text
    case AllFailed(message) => ALL_FAILED_PREFIX + message
    case Exhausted => NO_MODELS
  }

  /** `invoke_bedrock_model`: its response and the agent's current model id
      afterwards. Only a success moves the id, and only to one of the alternatives. */
  function Invoke(current: ModelId, backend: Backend, prompt: string, maxTokens: int): (inv: Invocation)
    ensures inv.modelId != current ==> inv.modelId in ALTERNATIVE_MODEL_IDS
    ensures inv.modelId == current || backend(inv.modelId, prompt, maxTokens) == Ok(inv.response)
    ensures backend(current, prompt, maxTokens).Ok? ==>
              inv == Invocation(backend(current, prompt, maxTokens).text, current)
  {
    var replies := (id: ModelId) => backend(id, prompt, maxTokens);
    var a := TryInOrder(Candidates(current), LAST_ALTERNATIVE, replies);
    Invocation(ResponseText(a), if a.Answered? then a.modelId else current)
  }

  /** The loop of `invoke_bedrock_model`, with the current id passed in and the
      updated one passed out. */
  method InvokeWithFallback(current: ModelId, backend: Backend, prompt: string, maxTokens: int)
    returns (response: string, modelId: ModelId)
    ensures Invocation(response, modelId) == Invoke(current, backend, prompt, maxTokens)
  {
    ghost var replies := (id: ModelId) => backend(id, prompt, maxTokens);
    var modelsToTry := [current] + ALTERNATIVE_MODEL_IDS;
    var last := modelsToTry[|modelsToTry| - 1];
    modelId := current;
    var i := 0;
    while i < |modelsToTry|
      invariant 0 <= i <= |modelsToTry| && modelId == current
      invariant TryInOrder(modelsToTry[i..], last, replies) == TryInOrder(modelsToTry, last, replies)
    {
      var candidate := modelsToTry[i];
      assert modelsToTry[i..][1..] == modelsToTry[i + 1..];
      match backend(candidate, prompt, maxTokens) {
        case Ok(text) =>
          if candidate != modelId {
            modelId := candidate;
          }
          return text, modelId;
        case Err(message) =>
          if candidate == last {
            return ALL_FAILED_PREFIX + message, modelId;
          }
      }
      i := i + 1;
    }
    response := NO_MODELS;
  }

  /** The trailing "No models available" return is dead code: the candidate list
      is never empty and its final element always stops the loop. */
  lemma NoModelsUnreachable(current: ModelId, backend: Backend, prompt: string, maxTokens: int)
    ensures TryInOrder(Candidates(current), LAST_ALTERNATIVE,
                       (id: ModelId) => backend(id, prompt, maxTokens)) != Exhausted
  {
    NeverExhausted(Candidates(current), (id: ModelId) => backend(id, prompt, maxTokens));
  }

  /** Candidates are tried in order: the invocation answers with text `t` from model
      `m` exactly when `m` is the first candidate that answers, no earlier
      candidate failing with an id equal to the last alternative. */
  lemma InvokeAnswers(current: ModelId, backend: Backend, prompt: string, maxTokens: int, t: string, m: ModelId)
    ensures var c := Candidates(current);
            TryInOrder(c, LAST_ALTERNATIVE, (id: ModelId) => backend(id, prompt, maxTokens)) == Answered(t, m) <==>
            exists k :: 0 <= k < |c| && c[k] == m && backend(m, prompt, maxTokens) == Ok(t)
                        && forall j :: 0 <= j < k ==> backend(c[j], prompt, maxTokens).Err? && c[j] != LAST_ALTERNATIVE
  {
    AnsweredIff(Candidates(current), LAST_ALTERNATIVE, (id: ModelId) => backend(id, prompt, maxTokens), t, m);
  }

  /** A failure on a candidate equal to the last alternative, every earlier
      candidate having failed without being equal to it, ends the call with that
      failure's message, and the current model id stays as it was. */
  lemma InvokeFailsAt(current: ModelId, backend: Backend, prompt: string, maxTokens: int, k: nat, msg: string)
    requires var c := Candidates(current);
             && k < |c| && c[k] == LAST_ALTERNATIVE && backend(c[k], prompt, maxTokens) == Err(msg)
             && forall j :: 0 <= j < k ==> backend(c[j], prompt, maxTokens).Err? && c[j] != LAST_ALTERNATIVE
    ensures Invoke(current, backend, prompt, maxTokens) == Invocation(ALL_FAILED_PREFIX + msg, current)
  {
    var replies := (id: ModelId) => backend(id, prompt, maxTokens);
    var c := Candidates(current);
    assert FailedBefore(c, LAST_ALTERNATIVE, replies, k);
    FailedIff(c, LAST_ALTERNATIVE, replies, msg);
  }

  /** The sticky update: when candidate `k` answers, every earlier candidate having
      failed without being equal to the last alternative, the call returns that
      answer and the current model id becomes that candidate's id. */
  lemma InvokeMovesToFirstAnswer(current: ModelId, backend: Backend, prompt: string, maxTokens: int, k: nat)
    requires var c := Candidates(current);
             && k < |c| && backend(c[k], prompt, maxTokens).Ok?
             && forall j :: 0 <= j < k ==> backend(c[j], prompt, maxTokens).Err? && c[j] != LAST_ALTERNATIVE
    ensures var c := Candidates(current);
            Invoke(current, backend, prompt, maxTokens) == Invocation(backend(c[k], prompt, maxTokens).text, c[k])
  {
    var replies := (id: ModelId) => backend(id, prompt, maxTokens);
    var c := Candidates(current);
    assert FailedBefore(c, LAST_ALTERNATIVE, replies, k);
    WitnessAnswered(c, LAST_ALTERNATIVE, replies, backend(c[k], prompt, maxTokens).text, c[k], k);
  }

  /** When every model fails, the response carries the last alternative's message
      and the current model id is unchanged. */
  lemma InvokeFails(current: ModelId, backend: Backend, prompt: string, maxTokens: int)
    requires forall id: ModelId :: backend(id, prompt, maxTokens).Err?
    ensures Invoke(current, backend, prompt, maxTokens)
            == Invocation(ALL_FAILED_PREFIX + backend(LAST_ALTERNATIVE, prompt, maxTokens).message, current)
  {
    var c := Candidates(current);
    var k := if current == LAST_ALTERNATIVE then 0 else |c| - 1;
    forall j | 0 <= j < k ensures c[j] != LAST_ALTERNATIVE {
      if j > 0 { assert c[j] == ALTERNATIVE_MODEL_IDS[j - 1]; }
    }
    InvokeFailsAt(current, backend, prompt, maxTokens, k, backend(LAST_ALTERNATIVE, prompt, maxTokens).message);
  }

  /** Once the sticky id is the last alternative, one failure of that model ends the
      call with an error: the value comparison matches at position 0 and no other
      candidate is tried, whatever it would have answered. */
  lemma EarlyExitAtLastAlternative(backend: Backend, prompt: string, maxTokens: int, msg: string)
    requires backend(LAST_ALTERNATIVE, prompt, maxTokens) == Err(msg)
    ensures Invoke(LAST_ALTERNATIVE, backend, prompt, maxTokens)
            == Invocation(ALL_FAILED_PREFIX + msg, LAST_ALTERNATIVE)
  {
  }

  /** The last alternative is absorbing: an agent whose current id is the last
      alternative keeps it after any invocation. */
  lemma LastAlternativeIsAbsorbing(backend: Backend, prompt: string, maxTokens: int)
    ensures Invoke(LAST_ALTERNATIVE, backend, prompt, maxTokens).modelId == LAST_ALTERNATIVE
  {
  }

  /** `get_info`: exactly the keys name, description and current_model. */
  function Info(name: string, description: string, currentModel: ModelId): (info: map<string, string>)
    ensures info.Keys == {"name", "description", "current_model"}
    ensures info["name"] == name && info["description"] == description
    ensures info["current_model"] == IdString(currentModel)
  {
    map["name" := name, "description" := description, "current_model" := IdString(currentModel)]
  }
}
