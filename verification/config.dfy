/** Static model configuration of the agents: the primary Bedrock model id and the
    ordered list of alternatives tried after the agent's current id. Client
    construction and region selection are I/O and are not part of this model. */
module Config {

  /** The Bedrock model ids the configuration names. An agent's current id is
      only ever assigned from the primary id or the alternatives, so these four
      are all the ids an agent can hold; `IdString` gives the text of each. */
  datatype ModelId = Claude3Haiku | UsClaude3Haiku | UsClaude3Sonnet | UsClaude35Sonnet

  function IdString(m: ModelId): (r: string)
    ensures m != Claude3Haiku <==> |r| >= 3 && r[..3] == "us."
  {
    match m
    case Claude3Haiku =>
      var r := "anthropic.claude-3-haiku-20240307-v1:0";
      assert r[0] == 'a' && "us."[0] == 'u' && r[..3][0] == r[0];
      r
    case UsClaude3Haiku => CrossRegion("anthropic.claude-3-haiku-20240307-v1:0")
    case UsClaude3Sonnet => CrossRegion("anthropic.claude-3-sonnet-20240229-v1:0")
    case UsClaude35Sonnet => CrossRegion("anthropic.claude-3-5-sonnet-20240620-v1:0")
  }

  /** The cross-region inference profile of a base model id. */
  function CrossRegion(base: string): (r: string)
    ensures |r| >= 3 && r[..3] == "us."
  {
    var r := "us." + base;
    assert r[..3] == "us.";
    r
  }

  /** Distinct ids have distinct texts, so comparing ids is comparing their
      strings, as the agents do. The four texts even differ in length. */
  lemma IdStringInjective(a: ModelId, b: ModelId)
    ensures IdString(a) == IdString(b) <==> a == b
  {
    if a != b {
      assert |IdString(a)| != |IdString(b)|;
    }
  }

  /** The id every agent starts with. */
  const PRIMARY_MODEL_ID: ModelId := Claude3Haiku

  /** The alternatives, in the order they are tried. The first one repeats the
      primary id; this duplicate is kept on purpose. */
  const ALTERNATIVE_MODEL_IDS: seq<ModelId> := [Claude3Haiku, UsClaude3Haiku, UsClaude3Sonnet, UsClaude35Sonnet]

  /** The last alternative, which is the last candidate of every invocation. */
  const LAST_ALTERNATIVE: ModelId := UsClaude35Sonnet

  /** Token budget of an ordinary invocation, and of the delegate-selection call. */
  const DEFAULT_MAX_TOKENS: int := 1000
  const SELECTION_MAX_TOKENS: int := 100
}
