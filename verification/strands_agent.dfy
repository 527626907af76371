/** A specialist delegate: frames each request with its specialty and description,
    asks the model through the shared invoker, and keeps an append-only log of
    request/response pairs. */
module Strands {
  import opened Config
  import opened Wrappers
  import opened BaseAgent

  /** One entry of a delegate's conversation log. */
  datatype Exchange = Exchange(input: string, output: string)

  /** The fixed pieces of the specialist prompt template, in order. */
  const SPECIALIST_OPENING: string := "\n당신은 "
  const SPECIALIST_FIELD_SPECIALTY: string := " 전문가입니다.\n다음 요청에 대해 전문적이고 정확한 답변을 제공해주세요.\n\n전문 분야: "
  const SPECIALIST_FIELD_DESCRIPTION: string := "\n에이전트 설명: "
  const SPECIALIST_FIELD_REQUEST: string := "\n\n사용자 요청: "
  const SPECIALIST_CLOSING: string := "\n\n답변:\n"

  /** Everything of the specialist prompt that comes before the request: the
      specialty (twice) and then the description, each at a fixed place. */
  function SpecialistHeader(specialty: string, description: string): (h: string)
    ensures var s := |SPECIALIST_OPENING|;
            s + |specialty| <= |h| && h[s..s + |specialty|] == specialty
    ensures var d := |h| - |SPECIALIST_FIELD_REQUEST| - |description|;
            0 <= d && h[d..d + |description|] == description
            && |SPECIALIST_OPENING| + |specialty| <= d
  {
    var h := SPECIALIST_OPENING + specialty + SPECIALIST_FIELD_SPECIALTY + specialty
             + SPECIALIST_FIELD_DESCRIPTION + description + SPECIALIST_FIELD_REQUEST;
    assert h[|SPECIALIST_OPENING|..|SPECIALIST_OPENING| + |specialty|] == specialty;
    assert h[|h| - |SPECIALIST_FIELD_REQUEST| - |description|..|h| - |SPECIALIST_FIELD_REQUEST|] == description;
    h
  }

  /** `_create_specialized_prompt`: the header, the verbatim request, the closing. */
  function SpecializedPrompt(specialty: string, description: string, request: string): (p: string)
    ensures |p| == |SpecialistHeader(specialty, description)| + |request| + |SPECIALIST_CLOSING|
    ensures p[|SpecialistHeader(specialty, description)|..|p| - |SPECIALIST_CLOSING|] == request
  {
    var h := SpecialistHeader(specialty, description);
    var p := h + request + SPECIALIST_CLOSING;
    assert p[|h|..|p| - |SPECIALIST_CLOSING|] == request;
    p
  }

  /** Reads the request back out of a specialist prompt of this specialty and
      description; None when the text does not have the template's shape. */
  function RequestOf(specialty: string, description: string, prompt: string): Option<string>
  {
    var h := SpecialistHeader(specialty, description);
    if |h| + |SPECIALIST_CLOSING| <= |prompt| && prompt[..|h|] == h
       && prompt[|prompt| - |SPECIALIST_CLOSING|..] == SPECIALIST_CLOSING
    then Some(prompt[|h|..|prompt| - |SPECIALIST_CLOSING|])
    else None
  }

  /** The prompt embeds the request verbatim: it can be read back, and only the
      prompt built from a request gives that request back. */
  lemma RequestRoundTrip(specialty: string, description: string, request: string, prompt: string)
    ensures RequestOf(specialty, description, SpecializedPrompt(specialty, description, request)) == Some(request)
    ensures RequestOf(specialty, description, prompt) == Some(request) ==>
            prompt == SpecializedPrompt(specialty, description, request)
  {
    var h := SpecialistHeader(specialty, description);
    var p := SpecializedPrompt(specialty, description, request);
    assert p[..|h|] == h;
    assert p[|p| - |SPECIALIST_CLOSING|..] == SPECIALIST_CLOSING;
    if RequestOf(specialty, description, prompt) == Some(request) {
      assert prompt == prompt[..|h|] + prompt[|h|..|prompt| - |SPECIALIST_CLOSING|]
                       + prompt[|prompt| - |SPECIALIST_CLOSING|..];
    }
  }

  /** Two different requests to the same delegate never give the same prompt. */
  lemma SpecializedPromptInjective(specialty: string, description: string, r1: string, r2: string)
    requires SpecializedPrompt(specialty, description, r1) == SpecializedPrompt(specialty, description, r2)
    ensures r1 == r2
  {
    RequestRoundTrip(specialty, description, r1, SpecializedPrompt(specialty, description, r2));
    RequestRoundTrip(specialty, description, r2, SpecializedPrompt(specialty, description, r2));
  }

  class StrandsAgent {
    const name: string
    const description: string
    const specialty: string
    var currentModelId: ModelId
    var conversationHistory: seq<Exchange>

    constructor (name: string, description: string, specialty: string)
      ensures this.name == name && this.description == description && this.specialty == specialty
      ensures currentModelId == PRIMARY_MODEL_ID && conversationHistory == []
    {
      this.name := name;
      this.description := description;
      this.specialty := specialty;
      currentModelId := PRIMARY_MODEL_ID;
      conversationHistory := [];
    }

    /** `invoke_bedrock_model` on this agent: the response, and the sticky id
        moved to the model that answered. */
    method InvokeModel(prompt: string, maxTokens: int, backend: Backend) returns (response: string)
      modifies this`currentModelId
      ensures Invocation(response, currentModelId) == Invoke(old(currentModelId), backend, prompt, maxTokens)
    {
      var modelId;
      response, modelId := InvokeWithFallback(currentModelId, backend, prompt, maxTokens);
      if modelId != currentModelId {
        currentModelId := modelId;
      }
    }

    /** `process`: the invoker's answer (an error string included) to the
        specialist prompt with the default budget, logged as one new entry. */
    method Process(input: string, backend: Backend) returns (response: string)
      modifies this`currentModelId, this`conversationHistory
      ensures Invocation(response, currentModelId)
              == Invoke(old(currentModelId), backend, SpecializedPrompt(specialty, description, input), DEFAULT_MAX_TOKENS)
      ensures conversationHistory == old(conversationHistory) + [Exchange(input, response)]
    {
      var prompt := SpecializedPrompt(specialty, description, input);
      response := InvokeModel(prompt, DEFAULT_MAX_TOKENS, backend);
      conversationHistory := conversationHistory + [Exchange(input, response)];
    }

    /** `get_conversation_history`: the log, oldest entry first. */
    function GetConversationHistory(): (h: seq<Exchange>)
      reads this
      ensures h == conversationHistory
    {
      conversationHistory
    }

    /** `clear_history`: empties the log; the frame says nothing else changes. */
    method ClearHistory()
      modifies this`conversationHistory
      ensures conversationHistory == []
    {
      conversationHistory := [];
    }

    /** `get_info`, inherited from the base agent. */
    function GetInfo(): (info: map<string, string>)
      reads this
      ensures info.Keys == {"name", "description", "current_model"}
      ensures info["name"] == name && info["description"] == description
      ensures info["current_model"] == IdString(currentModelId)
    {
      Info(name, description, currentModelId)
    }

    /** `get_specialty_info`: `get_info()` with one more key, "specialty". */
    function GetSpecialtyInfo(): (info: map<string, string>)
      reads this
      ensures info.Keys == GetInfo().Keys + {"specialty"}
      ensures forall k :: k in GetInfo() ==> info[k] == GetInfo()[k]
      ensures info["specialty"] == specialty
    {
      GetInfo()["specialty" := specialty]
    }
  }
}
