/** What the providers' own usage objects come to, count by count, as they are written. */
module UsageShapes {
  import opened Common
  import opened Usage

  /** The count under a pointer; nothing there counts as zero. */
  function Tokens(doc: UsageDoc, pointer: string): u64 {
    if pointer in doc.counts then doc.counts[pointer] else 0
  }

  function Given(doc: UsageDoc, pointer: string): Option<u64> {
    if pointer in doc.counts then Some(doc.counts[pointer]) else None
  }

  /** No count has a name from outside the list. */
  predicate Speaks(doc: UsageDoc, names: seq<string>) {
    forall p :: p in doc.counts ==> p in names
  }

  predicate NoThoughts(doc: UsageDoc) {
    "thoughtsTokenCount" !in doc.keys && "thoughts_token_count" !in doc.keys
  }

  const OPENAI: seq<string> := [
    "/prompt_tokens", "/completion_tokens", "/total_tokens",
    "/prompt_tokens_details/cached_tokens", "/prompt_tokens_details/cache_write_tokens",
    "/prompt_tokens_details/audio_tokens", "/prompt_tokens_details/image_tokens",
    "/completion_tokens_details/reasoning_tokens",
    "/completion_tokens_details/audio_tokens", "/completion_tokens_details/image_tokens"]

  const ANTHROPIC: seq<string> := [
    "/input_tokens", "/output_tokens", "/cache_read_input_tokens", "/cache_creation_input_tokens",
    "/server_tool_use/web_search_requests"]

  const GEMINI: seq<string> := [
    "/promptTokenCount", "/candidatesTokenCount", "/thoughtsTokenCount", "/cachedContentTokenCount",
    "/totalTokenCount"]

  const GEMINI_SNAKE: seq<string> := [
    "/prompt_token_count", "/candidates_token_count", "/thoughts_token_count", "/cached_content_token_count",
    "/total_token_count"]

  const RESPONSES: seq<string> := [
    "/input_tokens", "/output_tokens", "/total_tokens",
    "/input_tokens_details/cached_tokens", "/input_tokens_details/audio_tokens", "/input_tokens_details/image_tokens",
    "/output_tokens_details/reasoning_tokens",
    "/output_tokens_details/audio_tokens", "/output_tokens_details/image_tokens"]

  // ----- which name of a list a document can use

  /** Of the names the client looks for, the provider uses this one and no other. */
  predicate Only(pointers: seq<string>, names: seq<string>, name: string) {
    name in pointers && forall p :: p in pointers && p in names ==> p == name
  }

  predicate Neither(pointers: seq<string>, names: seq<string>) {
    forall p :: p in pointers ==> p !in names
  }

  lemma {:induction false} OnlyName(doc: UsageDoc, pointers: seq<string>, names: seq<string>, name: string)
    requires Speaks(doc, names) && Only(pointers, names, name)
    ensures U64AtAny(doc, pointers) == Given(doc, name)
    ensures OrZero(U64AtAny(doc, pointers)) == Tokens(doc, name)
  {
    if pointers[0] != name {
      assert pointers[0] !in names;
      assert name in pointers[1..];
      OnlyName(doc, pointers[1..], names, name);
    } else if name !in doc.counts {
      NoOther(doc, pointers[1..], names, name);
    }
  }

  lemma {:induction false} NoOther(doc: UsageDoc, pointers: seq<string>, names: seq<string>, name: string)
    requires Speaks(doc, names) && name !in doc.counts
    requires forall p :: p in pointers && p in names ==> p == name
    ensures U64AtAny(doc, pointers).None?
  {
    if pointers != [] {
      assert pointers[0] in pointers;
      NoOther(doc, pointers[1..], names, name);
    }
  }

  lemma {:induction false} NoName(doc: UsageDoc, pointers: seq<string>, names: seq<string>)
    requires Speaks(doc, names) && Neither(pointers, names)
    ensures U64AtAny(doc, pointers).None? && OrZero(U64AtAny(doc, pointers)) == 0
  {
    if pointers != [] {
      assert pointers[0] in pointers;
      NoName(doc, pointers[1..], names);
    }
  }

  // ----- each provider's counts

  lemma OpenAiInputNames()
    ensures Only(PROMPT, OPENAI, "/prompt_tokens")
    ensures Neither(INPUT, OPENAI)
    ensures Only(CACHE_WRITE, OPENAI, "/prompt_tokens_details/cache_write_tokens")
    ensures Neither(WEB_SEARCHES, OPENAI)
  {
  }

  lemma OpenAiCachedNames()
    ensures Only(CACHED, OPENAI, "/prompt_tokens_details/cached_tokens")
  {
  }

  lemma OpenAiOutputNames()
    ensures Only(OUTPUT, OPENAI, "/completion_tokens")
  {
  }

  lemma OpenAiPartNames()
    ensures Only(REASONING, OPENAI, "/completion_tokens_details/reasoning_tokens")
    ensures Only(TOTAL, OPENAI, "/total_tokens")
  {
  }

  lemma OpenAiDetailNames()
    ensures Only(AUDIO_INPUT, OPENAI, "/prompt_tokens_details/audio_tokens")
    ensures Only(IMAGE_INPUT, OPENAI, "/prompt_tokens_details/image_tokens")
    ensures Only(AUDIO_OUTPUT, OPENAI, "/completion_tokens_details/audio_tokens")
    ensures Only(IMAGE_OUTPUT, OPENAI, "/completion_tokens_details/image_tokens")
  {
  }

  lemma OpenAiCounts(doc: UsageDoc)
    requires Speaks(doc, OPENAI) && NoThoughts(doc)
    ensures ReadCounts(doc) == Counts(
              Given(doc, "/prompt_tokens"), None,
              Tokens(doc, "/prompt_tokens_details/cached_tokens"),
              Tokens(doc, "/prompt_tokens_details/cache_write_tokens"),
              Tokens(doc, "/completion_tokens"), Tokens(doc, "/completion_tokens_details/reasoning_tokens"),
              false,
              Given(doc, "/total_tokens"),
              Tokens(doc, "/prompt_tokens_details/audio_tokens"),
              Tokens(doc, "/prompt_tokens_details/image_tokens"),
              Tokens(doc, "/completion_tokens_details/audio_tokens"),
              Tokens(doc, "/completion_tokens_details/image_tokens"),
              None)
  {
    hide U64AtAny, Only, Neither, Speaks, Given, Tokens, OrZero;
    OpenAiInputNames();
    OpenAiCachedNames();
    OpenAiOutputNames();
    OpenAiPartNames();
    OpenAiDetailNames();
    OnlyName(doc, PROMPT, OPENAI, "/prompt_tokens");
    NoName(doc, INPUT, OPENAI);
    OnlyName(doc, CACHE_WRITE, OPENAI, "/prompt_tokens_details/cache_write_tokens");
    NoName(doc, WEB_SEARCHES, OPENAI);
    OnlyName(doc, CACHED, OPENAI, "/prompt_tokens_details/cached_tokens");
    OnlyName(doc, OUTPUT, OPENAI, "/completion_tokens");
    OnlyName(doc, REASONING, OPENAI, "/completion_tokens_details/reasoning_tokens");
    OnlyName(doc, TOTAL, OPENAI, "/total_tokens");
    OnlyName(doc, AUDIO_INPUT, OPENAI, "/prompt_tokens_details/audio_tokens");
    OnlyName(doc, IMAGE_INPUT, OPENAI, "/prompt_tokens_details/image_tokens");
    OnlyName(doc, AUDIO_OUTPUT, OPENAI, "/completion_tokens_details/audio_tokens");
    OnlyName(doc, IMAGE_OUTPUT, OPENAI, "/completion_tokens_details/image_tokens");
  }

  lemma AnthropicInputNames()
    ensures Neither(PROMPT, ANTHROPIC)
    ensures Only(INPUT, ANTHROPIC, "/input_tokens")
    ensures Only(CACHED, ANTHROPIC, "/cache_read_input_tokens")
    ensures Only(CACHE_WRITE, ANTHROPIC, "/cache_creation_input_tokens")
  {
  }

  lemma AnthropicOutputNames()
    ensures Only(OUTPUT, ANTHROPIC, "/output_tokens")
    ensures Neither(REASONING, ANTHROPIC)
    ensures Neither(TOTAL, ANTHROPIC)
  {
  }

  lemma AnthropicOtherNames()
    ensures Neither(AUDIO_INPUT, ANTHROPIC)
    ensures Neither(IMAGE_INPUT, ANTHROPIC)
    ensures Neither(AUDIO_OUTPUT, ANTHROPIC)
    ensures Neither(IMAGE_OUTPUT, ANTHROPIC)
    ensures Only(WEB_SEARCHES, ANTHROPIC, "/server_tool_use/web_search_requests")
  {
  }

  lemma AnthropicCounts(doc: UsageDoc)
    requires Speaks(doc, ANTHROPIC) && NoThoughts(doc)
    ensures ReadCounts(doc) == Counts(
              None, Given(doc, "/input_tokens"),
              Tokens(doc, "/cache_read_input_tokens"),
              Tokens(doc, "/cache_creation_input_tokens"),
              Tokens(doc, "/output_tokens"), 0,
              false,
              None,
              0,
              0,
              0,
              0,
              Given(doc, "/server_tool_use/web_search_requests"))
  {
    hide U64AtAny, Only, Neither, Speaks, Given, Tokens, OrZero;
    AnthropicInputNames();
    AnthropicOutputNames();
    AnthropicOtherNames();
    NoName(doc, PROMPT, ANTHROPIC);
    OnlyName(doc, INPUT, ANTHROPIC, "/input_tokens");
    OnlyName(doc, CACHED, ANTHROPIC, "/cache_read_input_tokens");
    OnlyName(doc, CACHE_WRITE, ANTHROPIC, "/cache_creation_input_tokens");
    OnlyName(doc, OUTPUT, ANTHROPIC, "/output_tokens");
    NoName(doc, REASONING, ANTHROPIC);
    NoName(doc, TOTAL, ANTHROPIC);
    NoName(doc, AUDIO_INPUT, ANTHROPIC);
    NoName(doc, IMAGE_INPUT, ANTHROPIC);
    NoName(doc, AUDIO_OUTPUT, ANTHROPIC);
    NoName(doc, IMAGE_OUTPUT, ANTHROPIC);
    OnlyName(doc, WEB_SEARCHES, ANTHROPIC, "/server_tool_use/web_search_requests");
  }

  lemma GeminiInputNames()
    ensures Only(PROMPT, GEMINI, "/promptTokenCount")
    ensures Neither(INPUT, GEMINI)
    ensures Only(CACHED, GEMINI, "/cachedContentTokenCount")
    ensures Neither(CACHE_WRITE, GEMINI)
  {
  }

  lemma GeminiOutputNames()
    ensures Only(OUTPUT, GEMINI, "/candidatesTokenCount")
    ensures Only(REASONING, GEMINI, "/thoughtsTokenCount")
    ensures Only(TOTAL, GEMINI, "/totalTokenCount")
  {
  }

  lemma GeminiOtherNames()
    ensures Neither(AUDIO_INPUT, GEMINI)
    ensures Neither(IMAGE_INPUT, GEMINI)
    ensures Neither(AUDIO_OUTPUT, GEMINI)
    ensures Neither(IMAGE_OUTPUT, GEMINI)
    ensures Neither(WEB_SEARCHES, GEMINI)
  {
  }

  lemma GeminiCounts(doc: UsageDoc)
    requires Speaks(doc, GEMINI)
    ensures ReadCounts(doc) == Counts(
              Given(doc, "/promptTokenCount"), None,
              Tokens(doc, "/cachedContentTokenCount"),
              0,
              Tokens(doc, "/candidatesTokenCount"), Tokens(doc, "/thoughtsTokenCount"),
              "thoughtsTokenCount" in doc.keys || "thoughts_token_count" in doc.keys,
              Given(doc, "/totalTokenCount"),
              0,
              0,
              0,
              0,
              None)
  {
    hide U64AtAny, Only, Neither, Speaks, Given, Tokens, OrZero;
    GeminiInputNames();
    GeminiOutputNames();
    GeminiOtherNames();
    OnlyName(doc, PROMPT, GEMINI, "/promptTokenCount");
    NoName(doc, INPUT, GEMINI);
    OnlyName(doc, CACHED, GEMINI, "/cachedContentTokenCount");
    NoName(doc, CACHE_WRITE, GEMINI);
    OnlyName(doc, OUTPUT, GEMINI, "/candidatesTokenCount");
    OnlyName(doc, REASONING, GEMINI, "/thoughtsTokenCount");
    OnlyName(doc, TOTAL, GEMINI, "/totalTokenCount");
    NoName(doc, AUDIO_INPUT, GEMINI);
    NoName(doc, IMAGE_INPUT, GEMINI);
    NoName(doc, AUDIO_OUTPUT, GEMINI);
    NoName(doc, IMAGE_OUTPUT, GEMINI);
    NoName(doc, WEB_SEARCHES, GEMINI);
  }

  lemma GeminiSnakeInputNames()
    ensures Only(PROMPT, GEMINI_SNAKE, "/prompt_token_count")
    ensures Neither(INPUT, GEMINI_SNAKE)
    ensures Only(CACHED, GEMINI_SNAKE, "/cached_content_token_count")
    ensures Neither(CACHE_WRITE, GEMINI_SNAKE)
  {
  }

  lemma GeminiSnakeOutputNames()
    ensures Only(OUTPUT, GEMINI_SNAKE, "/candidates_token_count")
    ensures Only(REASONING, GEMINI_SNAKE, "/thoughts_token_count")
    ensures Only(TOTAL, GEMINI_SNAKE, "/total_token_count")
  {
  }

  lemma GeminiSnakeOtherNames()
    ensures Neither(AUDIO_INPUT, GEMINI_SNAKE)
    ensures Neither(IMAGE_INPUT, GEMINI_SNAKE)
    ensures Neither(AUDIO_OUTPUT, GEMINI_SNAKE)
    ensures Neither(IMAGE_OUTPUT, GEMINI_SNAKE)
    ensures Neither(WEB_SEARCHES, GEMINI_SNAKE)
  {
  }

  lemma GeminiSnakeCounts(doc: UsageDoc)
    requires Speaks(doc, GEMINI_SNAKE)
    ensures ReadCounts(doc) == Counts(
              Given(doc, "/prompt_token_count"), None,
              Tokens(doc, "/cached_content_token_count"),
              0,
              Tokens(doc, "/candidates_token_count"), Tokens(doc, "/thoughts_token_count"),
              "thoughtsTokenCount" in doc.keys || "thoughts_token_count" in doc.keys,
              Given(doc, "/total_token_count"),
              0,
              0,
              0,
              0,
              None)
  {
    hide U64AtAny, Only, Neither, Speaks, Given, Tokens, OrZero;
    GeminiSnakeInputNames();
    GeminiSnakeOutputNames();
    GeminiSnakeOtherNames();
    OnlyName(doc, PROMPT, GEMINI_SNAKE, "/prompt_token_count");
    NoName(doc, INPUT, GEMINI_SNAKE);
    OnlyName(doc, CACHED, GEMINI_SNAKE, "/cached_content_token_count");
    NoName(doc, CACHE_WRITE, GEMINI_SNAKE);
    OnlyName(doc, OUTPUT, GEMINI_SNAKE, "/candidates_token_count");
    OnlyName(doc, REASONING, GEMINI_SNAKE, "/thoughts_token_count");
    OnlyName(doc, TOTAL, GEMINI_SNAKE, "/total_token_count");
    NoName(doc, AUDIO_INPUT, GEMINI_SNAKE);
    NoName(doc, IMAGE_INPUT, GEMINI_SNAKE);
    NoName(doc, AUDIO_OUTPUT, GEMINI_SNAKE);
    NoName(doc, IMAGE_OUTPUT, GEMINI_SNAKE);
    NoName(doc, WEB_SEARCHES, GEMINI_SNAKE);
  }

  lemma ResponsesInputNames()
    ensures Neither(PROMPT, RESPONSES)
    ensures Only(INPUT, RESPONSES, "/input_tokens")
    ensures Neither(CACHE_WRITE, RESPONSES)
    ensures Neither(WEB_SEARCHES, RESPONSES)
  {
  }

  lemma ResponsesCachedNames()
    ensures Only(CACHED, RESPONSES, "/input_tokens_details/cached_tokens")
  {
  }

  lemma ResponsesOutputNames()
    ensures Only(OUTPUT, RESPONSES, "/output_tokens")
  {
  }

  lemma ResponsesPartNames()
    ensures Only(REASONING, RESPONSES, "/output_tokens_details/reasoning_tokens")
    ensures Only(TOTAL, RESPONSES, "/total_tokens")
  {
  }

  lemma ResponsesDetailNames()
    ensures Only(AUDIO_INPUT, RESPONSES, "/input_tokens_details/audio_tokens")
    ensures Only(IMAGE_INPUT, RESPONSES, "/input_tokens_details/image_tokens")
    ensures Only(AUDIO_OUTPUT, RESPONSES, "/output_tokens_details/audio_tokens")
    ensures Only(IMAGE_OUTPUT, RESPONSES, "/output_tokens_details/image_tokens")
  {
  }

  lemma ResponsesCounts(doc: UsageDoc)
    requires Speaks(doc, RESPONSES) && NoThoughts(doc)
    ensures ReadCounts(doc) == Counts(
              None, Given(doc, "/input_tokens"),
              Tokens(doc, "/input_tokens_details/cached_tokens"),
              0,
              Tokens(doc, "/output_tokens"), Tokens(doc, "/output_tokens_details/reasoning_tokens"),
              false,
              Given(doc, "/total_tokens"),
              Tokens(doc, "/input_tokens_details/audio_tokens"),
              Tokens(doc, "/input_tokens_details/image_tokens"),
              Tokens(doc, "/output_tokens_details/audio_tokens"),
              Tokens(doc, "/output_tokens_details/image_tokens"),
              None)
  {
    hide U64AtAny, Only, Neither, Speaks, Given, Tokens, OrZero;
    ResponsesInputNames();
    ResponsesCachedNames();
    ResponsesOutputNames();
    ResponsesPartNames();
    ResponsesDetailNames();
    NoName(doc, PROMPT, RESPONSES);
    OnlyName(doc, INPUT, RESPONSES, "/input_tokens");
    NoName(doc, CACHE_WRITE, RESPONSES);
    NoName(doc, WEB_SEARCHES, RESPONSES);
    OnlyName(doc, CACHED, RESPONSES, "/input_tokens_details/cached_tokens");
    OnlyName(doc, OUTPUT, RESPONSES, "/output_tokens");
    OnlyName(doc, REASONING, RESPONSES, "/output_tokens_details/reasoning_tokens");
    OnlyName(doc, TOTAL, RESPONSES, "/total_tokens");
    OnlyName(doc, AUDIO_INPUT, RESPONSES, "/input_tokens_details/audio_tokens");
    OnlyName(doc, IMAGE_INPUT, RESPONSES, "/input_tokens_details/image_tokens");
    OnlyName(doc, AUDIO_OUTPUT, RESPONSES, "/output_tokens_details/audio_tokens");
    OnlyName(doc, IMAGE_OUTPUT, RESPONSES, "/output_tokens_details/image_tokens");
  }
  // ----- what each provider's usage comes to

  /** What is on every meter for tokens. */
  predicate Meters(m: map<Metric, u64>, input: nat, cached: nat, written: nat, output: nat, thoughts: nat,
                   audioIn: nat, imageIn: nat, audioOut: nat, imageOut: nat)
  {
    && At(m, InputTokens) == input && At(m, CachedInputTokens) == cached && At(m, CacheWriteInputTokens) == written
    && At(m, OutputTokens) == output && At(m, ReasoningTokens) == thoughts
    && At(m, AudioInputTokens) == audioIn && At(m, ImageInputTokens) == imageIn
    && At(m, AudioOutputTokens) == audioOut && At(m, ImageOutputTokens) == imageOut
  }

  function Total(doc: UsageDoc, pointer: string, prompt: u64, completion: u64): u64 {
    if pointer in doc.counts then doc.counts[pointer] else SatAdd(prompt, completion)
  }

  lemma NormalizedMeters(c: Counts)
    ensures var u := Normalize(c);
            && u.reported
            && Meters(u.metrics, SatSub(SatSub(UncachedInput(c), c.audioInput), c.imageInput), c.cached, c.cacheWrite,
                      SatSub(SatSub(c.visibleOutput, c.audioOutput), c.imageOutput),
                      if c.thinkingIsSeparate then c.reasoning else 0,
                      c.audioInput, c.imageInput, c.audioOutput, c.imageOutput)
            && u.usage.promptTokens == PromptTokens(c) && u.usage.completionTokens == CompletionTokens(c)
            && u.usage.totalTokens ==
               (if c.total.Some? then c.total.value else SatAdd(PromptTokens(c), CompletionTokens(c)))
            && (if c.webSearches.Some? then WebSearchRequests in u.metrics
                                            && u.metrics[WebSearchRequests] == c.webSearches.value
                else WebSearchRequests !in u.metrics)
  {
    MetersOf(c);
    WebSearchMeter(c);
    hide Metrics, UncachedInput, PromptTokens, CompletionTokens, SatSub, At;
  }

  lemma WebSearchMeter(c: Counts)
    ensures if c.webSearches.Some? then WebSearchRequests in Metrics(c)
                                        && Metrics(c)[WebSearchRequests] == c.webSearches.value
            else WebSearchRequests !in Metrics(c)
  {
    hide UncachedInput, SatSub;
  }

  /**
   * OpenAI's usage: prompt, completion and total are the counts in the document. The prompt is
   * metered as its cached, cache-written, audio and image parts and the rest, the completion as
   * its audio and image parts and the rest; reasoning is part of the completion already.
   */
  lemma OpenAiUsage(doc: UsageDoc, other: Option<UsageDoc>)
    requires Speaks(doc, OPENAI) && NoThoughts(doc) && "/prompt_tokens" in doc.counts
    ensures var u := ExtractUsage(Payload(Some(doc), other));
            var prompt, completion := Tokens(doc, "/prompt_tokens"), Tokens(doc, "/completion_tokens");
            var cached := Tokens(doc, "/prompt_tokens_details/cached_tokens");
            var written := Tokens(doc, "/prompt_tokens_details/cache_write_tokens");
            var audioIn := Tokens(doc, "/prompt_tokens_details/audio_tokens");
            var imageIn := Tokens(doc, "/prompt_tokens_details/image_tokens");
            var audioOut := Tokens(doc, "/completion_tokens_details/audio_tokens");
            var imageOut := Tokens(doc, "/completion_tokens_details/image_tokens");
            && u.reported && WebSearchRequests !in u.metrics
            && u.usage == TokenUsage(prompt, completion, Total(doc, "/total_tokens", prompt, completion))
            && (cached + written + audioIn + imageIn <= prompt && audioOut + imageOut <= completion ==>
                  && Meters(u.metrics, prompt - cached - written - audioIn - imageIn, cached, written,
                            completion - audioOut - imageOut, 0, audioIn, imageIn, audioOut, imageOut)
                  && BilledTokens(u.metrics) == prompt + completion)
  {
    OpenAiCounts(doc);
    var c := ReadCounts(doc);
    NormalizedMeters(c);
    BilledAs(Normalize(c).metrics);
    hide ReadCounts, Normalize, Meters, Speaks, Tokens, BilledTokens;
  }

  lemma BilledAs(m: map<Metric, u64>)
    ensures forall a: nat, b: nat, c: nat, d: nat, e: nat, f: nat, g: nat, h: nat, i: nat ::
              Meters(m, a, b, c, d, e, f, g, h, i) ==> BilledTokens(m) == a + b + c + d + e + f + g + h + i
  {
    hide At;
  }

  /** Anthropic's usage: the prompt is the input together with what was read from and written to the cache. */
  lemma AnthropicUsage(doc: UsageDoc, other: Option<UsageDoc>)
    requires Speaks(doc, ANTHROPIC) && NoThoughts(doc) && "/input_tokens" in doc.counts
    ensures var u := ExtractUsage(Payload(Some(doc), other));
            var input, output := Tokens(doc, "/input_tokens"), Tokens(doc, "/output_tokens");
            var cached := Tokens(doc, "/cache_read_input_tokens");
            var written := Tokens(doc, "/cache_creation_input_tokens");
            && u.reported && Meters(u.metrics, input, cached, written, output, 0, 0, 0, 0, 0)
            && BilledTokens(u.metrics) == input + cached + written + output
            && (input + cached + written <= U64_MAX ==>
                  var prompt := input + cached + written;
                  u.usage == TokenUsage(prompt, output, SatAdd(prompt, output)))
            && (WebSearchRequests in u.metrics <==> "/server_tool_use/web_search_requests" in doc.counts)
            && (WebSearchRequests in u.metrics ==>
                  u.metrics[WebSearchRequests] == Tokens(doc, "/server_tool_use/web_search_requests"))
  {
    AnthropicCounts(doc);
    var c := ReadCounts(doc);
    NormalizedMeters(c);
    BilledAs(Normalize(c).metrics);
    hide ReadCounts, Normalize, Meters, Speaks, BilledTokens;
  }

  /** Gemini's usage: cached tokens are part of the prompt, thoughts come on top of the candidates. */
  lemma GeminiUsage(doc: UsageDoc)
    requires Speaks(doc, GEMINI) && "/promptTokenCount" in doc.counts
    requires "/thoughtsTokenCount" in doc.counts ==> "thoughtsTokenCount" in doc.keys
    ensures var prompt, cached := Tokens(doc, "/promptTokenCount"), Tokens(doc, "/cachedContentTokenCount");
            var visible, thoughts := Tokens(doc, "/candidatesTokenCount"), Tokens(doc, "/thoughtsTokenCount");
            CountsThoughtsApart(ExtractUsage(Payload(None, Some(doc))), prompt, cached, visible, thoughts,
                                Given(doc, "/totalTokenCount"))
  {
    GeminiCounts(doc);
    var c := ReadCounts(doc);
    NormalizedMeters(c);
    BilledAs(Normalize(c).metrics);
    hide ReadCounts, Normalize, Meters, Speaks, BilledTokens;
  }

  predicate CountsThoughtsApart(u: ExtractedUsage, prompt: u64, cached: u64, visible: u64, thoughts: u64,
                                total: Option<u64>)
  {
    && u.reported && WebSearchRequests !in u.metrics
    && (visible + thoughts <= U64_MAX ==>
          u.usage == TokenUsage(prompt, visible + thoughts,
                                if total.Some? then total.value else SatAdd(prompt, visible + thoughts)))
    && (cached <= prompt ==>
          && Meters(u.metrics, prompt - cached, cached, 0, visible, thoughts, 0, 0, 0, 0)
          && BilledTokens(u.metrics) == prompt + visible + thoughts)
  }

  /** The same with the names in snake case. */
  lemma GeminiSnakeUsage(doc: UsageDoc)
    requires Speaks(doc, GEMINI_SNAKE) && "/prompt_token_count" in doc.counts
    requires "/thoughts_token_count" in doc.counts ==> "thoughts_token_count" in doc.keys
    ensures var prompt, cached := Tokens(doc, "/prompt_token_count"), Tokens(doc, "/cached_content_token_count");
            var visible, thoughts := Tokens(doc, "/candidates_token_count"), Tokens(doc, "/thoughts_token_count");
            CountsThoughtsApart(ExtractUsage(Payload(None, Some(doc))), prompt, cached, visible, thoughts,
                                Given(doc, "/total_token_count"))
  {
    GeminiSnakeCounts(doc);
    var c := ReadCounts(doc);
    NormalizedMeters(c);
    BilledAs(Normalize(c).metrics);
    hide ReadCounts, Normalize, Meters, Speaks, BilledTokens;
  }

  /**
   * Usage in the names of OpenAI's responses: `input_tokens` is taken as the uncached input, so
   * cached tokens come on top of it, in the prompt and on the meters alike.
   */
  lemma ResponsesUsage(doc: UsageDoc, other: Option<UsageDoc>)
    requires Speaks(doc, RESPONSES) && NoThoughts(doc) && "/input_tokens" in doc.counts
    ensures var u := ExtractUsage(Payload(Some(doc), other));
            var input, output := Tokens(doc, "/input_tokens"), Tokens(doc, "/output_tokens");
            var cached := Tokens(doc, "/input_tokens_details/cached_tokens");
            var audioIn := Tokens(doc, "/input_tokens_details/audio_tokens");
            var imageIn := Tokens(doc, "/input_tokens_details/image_tokens");
            var audioOut := Tokens(doc, "/output_tokens_details/audio_tokens");
            var imageOut := Tokens(doc, "/output_tokens_details/image_tokens");
            && u.reported && WebSearchRequests !in u.metrics
            && (input + cached <= U64_MAX ==>
                  u.usage == TokenUsage(input + cached, output, Total(doc, "/total_tokens", input + cached, output)))
            && (audioIn + imageIn <= input && audioOut + imageOut <= output ==>
                  && Meters(u.metrics, input - audioIn - imageIn, cached, 0,
                            output - audioOut - imageOut, 0, audioIn, imageIn, audioOut, imageOut)
                  && BilledTokens(u.metrics) == input + cached + output)
  {
    ResponsesCounts(doc);
    var c := ReadCounts(doc);
    NormalizedMeters(c);
    BilledAs(Normalize(c).metrics);
    hide ReadCounts, Normalize, Meters, Speaks, BilledTokens;
  }
}
