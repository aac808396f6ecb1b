/** The structured completion client (src/ai/client.py): one chat request
    with a fixed system/user framing, and a JSON variant that tolerates a
    markdown code fence around the payload. The chat endpoint and the JSON
    parser are oracles supplied by the caller. */
module Client {
  import opened Wrappers
  import opened Text
  import opened Json
  import opened Models

  datatype Message = Message(role: string, content: string)

  datatype CompletionRequest = CompletionRequest(
    model: string,
    messages: seq<Message>,
    temperature: real,
    maxTokens: int)

  /** The client: the configured model identifier, the chat-completion
      endpoint (its reply text, or a transport failure) and the JSON parser
      (the parsed value, or its diagnostic). */
  datatype Llm = Llm(
    model: string,
    complete: CompletionRequest -> Result<string, Error>,
    parseJson: string -> Result<Value, string>)

  const DEFAULT_MAX_TOKENS: int := 2000

  const JSON_FENCE: string := "```json"
  const FENCE: string := "```"

  /** The one request `chat` sends: the system prompt, then the user prompt. */
  function ChatRequest(model: string, systemPrompt: string, userPrompt: string, temperature: real, maxTokens: int)
    : (r: CompletionRequest)
    ensures |r.messages| == 2
    ensures r.messages[0].role == "system" && r.messages[0].content == systemPrompt
    ensures r.messages[1].role == "user" && r.messages[1].content == userPrompt
    ensures r.model == model && r.temperature == temperature && r.maxTokens == maxTokens
  {
    CompletionRequest(model,
      [Message("system", systemPrompt), Message("user", userPrompt)],
      temperature, maxTokens)
  }

  /** `chat`: one request, the reply text returned as it came. */
  function Chat(llm: Llm, systemPrompt: string, userPrompt: string, temperature: real, maxTokens: int)
    : (r: Result<string, Error>)
    ensures r == llm.complete(ChatRequest(llm.model, systemPrompt, userPrompt, temperature, maxTokens))
  {
    llm.complete(ChatRequest(llm.model, systemPrompt, userPrompt, temperature, maxTokens))
  }

  /** `content[7:]` when the content starts with "```json". */
  function DropJsonOpener(c: string): (r: string)
    ensures |r| <= |c|
  {
    if StartsWith(c, JSON_FENCE) then c[|JSON_FENCE|..] else c
  }

  /** `content[3:]` when the content starts with "```". */
  function DropOpener(c: string): (r: string)
    ensures |r| <= |c|
  {
    if StartsWith(c, FENCE) then c[|FENCE|..] else c
  }

  /** `content[:-3]` when the content ends with "```". */
  function DropCloser(c: string): (r: string)
    ensures |r| <= |c|
  {
    if EndsWith(c, FENCE) then c[..|c| - |FENCE|] else c
  }

  /** The text `chat_json` hands to the JSON parser: the stripped reply
      without a leading "```json", then without a leading "```", then without
      a trailing "```", stripped again. */
  function StripFences(response: string): (r: string)
    ensures |r| <= |response|
  {
    Strip(DropCloser(DropOpener(DropJsonOpener(Strip(response)))))
  }

  /** The parser never sees leading or trailing whitespace. */
  lemma StripFencesUnpadded(response: string)
    ensures var r := StripFences(response);
      r != "" ==> !IsWhitespace(r[0]) && !IsWhitespace(r[|r| - 1])
  {
    var unfenced := DropCloser(DropOpener(DropJsonOpener(Strip(response))));
    assert StripFences(response) == Strip(unfenced);
  }

  /** A json fence starts with a bare fence. */
  lemma JsonFenceIsFence(c: string)
    ensures StartsWith(c, JSON_FENCE) ==> StartsWith(c, FENCE)
  {
    if JSON_FENCE <= c {
      assert c[..3] == JSON_FENCE[..3];
    }
  }

  /** A reply without fence markers reaches the parser only whitespace-stripped. */
  lemma PlainPassThrough(response: string)
    requires !StartsWith(Strip(response), FENCE) && !EndsWith(Strip(response), FENCE)
    ensures StripFences(response) == Strip(response)
  {
    var c := Strip(response);
    JsonFenceIsFence(c);
    assert DropCloser(DropOpener(DropJsonOpener(c))) == c;
    StripUnpadded(c);
  }

  /** A payload wrapped as "```json\n" + p + "\n```" reaches the parser as
      the stripped payload, whatever the payload is. */
  lemma JsonFencedPayload(p: string)
    ensures StripFences("```json\n" + p + "\n```") == Strip(p)
  {
    var w := "```json\n" + p + "\n```";
    StripUnpadded(w);
    assert w[..7] == JSON_FENCE;
    var c1 := w[7..];
    assert DropJsonOpener(w) == c1;
    assert c1 == "\n" + p + "\n```";
    assert c1[0] == '\n';
    assert DropOpener(c1) == c1;
    assert c1[|c1| - 3..] == FENCE;
    var c3 := c1[..|c1| - 3];
    assert DropCloser(c1) == c3;
    assert c3 == "\n" + p + "\n";
    StripPadded("\n", p, "\n");
  }

  /** A payload wrapped in a bare fence, "```\n" + p + "\n```", likewise. */
  lemma BareFencedPayload(p: string)
    ensures StripFences("```\n" + p + "\n```") == Strip(p)
  {
    var w := "```\n" + p + "\n```";
    StripUnpadded(w);
    assert w[3] == '\n';
    assert DropJsonOpener(w) == w;
    assert w[..3] == FENCE;
    var c2 := w[3..];
    assert DropOpener(w) == c2;
    assert c2 == "\n" + p + "\n```";
    assert c2[|c2| - 3..] == FENCE;
    var c3 := c2[..|c2| - 3];
    assert DropCloser(c2) == c3;
    assert c3 == "\n" + p + "\n";
    StripPadded("\n", p, "\n");
  }

  /** Wrapping a fence-free payload in a json fence is invisible to the parser. */
  lemma FencingIsTransparent(p: string)
    requires !StartsWith(Strip(p), FENCE) && !EndsWith(Strip(p), FENCE)
    ensures StripFences("```json\n" + p + "\n```") == StripFences(p)
  {
    JsonFencedPayload(p);
    PlainPassThrough(p);
  }

  /** `chat_json`: a transport failure propagates unchanged; otherwise the
      fence-stripped reply is parsed, and a parse failure becomes
      `MalformedModelOutput` carrying the parser's diagnostic. */
  function ChatJson(llm: Llm, systemPrompt: string, userPrompt: string, temperature: real, maxTokens: int)
    : (r: Result<Value, Error>)
    ensures var reply := Chat(llm, systemPrompt, userPrompt, temperature, maxTokens);
      && (reply.Err? ==> r == Err(reply.error))
      && (reply.Ok? ==> var parsed := llm.parseJson(StripFences(reply.value));
            && (parsed.Ok? ==> r == Ok(parsed.value))
            && (parsed.Err? ==> r == Err(MalformedModelOutput(parsed.error))))
  {
    match Chat(llm, systemPrompt, userPrompt, temperature, maxTokens)
    case Err(e) => Err(e)
    case Ok(text) =>
      match llm.parseJson(StripFences(text))
      case Ok(v) => Ok(v)
      case Err(diagnostic) => Err(MalformedModelOutput(diagnostic))
  }

  /** Two endpoints whose replies to the same request differ only by a json
      fence around a fence-free payload give `chat_json` the same result. */
  lemma ChatJsonIgnoresFence(fenced: Llm, plain: Llm, systemPrompt: string, userPrompt: string,
                             temperature: real, maxTokens: int, p: string)
    requires fenced.model == plain.model && fenced.parseJson == plain.parseJson
    requires !StartsWith(Strip(p), FENCE) && !EndsWith(Strip(p), FENCE)
    requires fenced.complete(ChatRequest(fenced.model, systemPrompt, userPrompt, temperature, maxTokens))
      == Ok("```json\n" + p + "\n```")
    requires plain.complete(ChatRequest(plain.model, systemPrompt, userPrompt, temperature, maxTokens))
      == Ok(p)
    ensures ChatJson(fenced, systemPrompt, userPrompt, temperature, maxTokens)
      == ChatJson(plain, systemPrompt, userPrompt, temperature, maxTokens)
  {
    var w := "```json\n" + p + "\n```";
    FencingIsTransparent(p);
    assert Chat(fenced, systemPrompt, userPrompt, temperature, maxTokens) == Ok(w);
    assert Chat(plain, systemPrompt, userPrompt, temperature, maxTokens) == Ok(p);
    SameStrippedReply(fenced, plain, systemPrompt, userPrompt, temperature, maxTokens);
  }

  /** Replies that reach the same parser as the same text give the same result. */
  lemma SameStrippedReply(a: Llm, b: Llm, systemPrompt: string, userPrompt: string,
                          temperature: real, maxTokens: int)
    requires a.parseJson == b.parseJson
    requires Chat(a, systemPrompt, userPrompt, temperature, maxTokens).Ok?
    requires Chat(b, systemPrompt, userPrompt, temperature, maxTokens).Ok?
    requires StripFences(Chat(a, systemPrompt, userPrompt, temperature, maxTokens).value)
      == StripFences(Chat(b, systemPrompt, userPrompt, temperature, maxTokens).value)
    ensures ChatJson(a, systemPrompt, userPrompt, temperature, maxTokens)
      == ChatJson(b, systemPrompt, userPrompt, temperature, maxTokens)
  {
  }
}
