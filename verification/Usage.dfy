/** Normalizing the usage a provider reports into prompt/completion counts and billable meters. */
module Usage {
  import opened Common

  datatype Metric =
    | InputTokens | CachedInputTokens | CacheWriteInputTokens | OutputTokens | ReasoningTokens
    | AudioInputTokens | AudioOutputTokens | ImageInputTokens | ImageOutputTokens
    | WebSearchRequests | OtherMetric(name: string)

  /** A usage object: the JSON pointers that hold a `u64`, and its top-level keys. */
  datatype UsageDoc = UsageDoc(counts: map<string, u64>, keys: set<string>)

  datatype Payload = Payload(usage: Option<UsageDoc>, usageMetadata: Option<UsageDoc>)

  datatype TokenUsage = TokenUsage(promptTokens: u64, completionTokens: u64, totalTokens: u64)

  datatype ExtractedUsage = ExtractedUsage(usage: TokenUsage, reported: bool, metrics: map<Metric, u64>)

  const NO_USAGE: ExtractedUsage := ExtractedUsage(TokenUsage(0, 0, 0), false, map[])

  /** The first pointer that holds a count. */
  function U64AtAny(doc: UsageDoc, pointers: seq<string>): Option<u64> {
    if pointers == [] then None
    else if pointers[0] in doc.counts then Some(doc.counts[pointers[0]])
    else U64AtAny(doc, pointers[1..])
  }

  function OrZero(n: Option<u64>): u64 {
    match n case Some(v) => v case None => 0
  }

  /** The counts a usage object gives, whichever provider's names it uses. */
  datatype Counts = Counts(
    aggregatePrompt: Option<u64>,
    anthropicInput: Option<u64>,
    cached: u64,
    cacheWrite: u64,
    visibleOutput: u64,
    reasoning: u64,
    thinkingIsSeparate: bool,
    total: Option<u64>,
    audioInput: u64,
    imageInput: u64,
    audioOutput: u64,
    imageOutput: u64,
    webSearches: Option<u64>)

  // ----- the names the providers give to each count, as JSON pointers

  const PROMPT: seq<string> := ["/prompt_tokens", "/promptTokenCount", "/prompt_token_count"]
  const INPUT: seq<string> := ["/input_tokens"]
  const CACHED: seq<string> := [
    "/prompt_tokens_details/cached_tokens", "/input_tokens_details/cached_tokens",
    "/cache_read_input_tokens", "/cachedContentTokenCount", "/cached_content_token_count"]
  const CACHE_WRITE: seq<string> := ["/prompt_tokens_details/cache_write_tokens", "/cache_creation_input_tokens"]
  const OUTPUT: seq<string> := [
    "/completion_tokens", "/output_tokens", "/candidatesTokenCount", "/candidates_token_count", "/responseTokenCount"]
  const REASONING: seq<string> := [
    "/completion_tokens_details/reasoning_tokens", "/output_tokens_details/reasoning_tokens",
    "/thoughtsTokenCount", "/thoughts_token_count"]
  const TOTAL: seq<string> := ["/total_tokens", "/totalTokenCount", "/total_token_count"]
  const AUDIO_INPUT: seq<string> :=
    ["/prompt_tokens_details/audio_tokens", "/input_tokens_details/audio_tokens"]
  const IMAGE_INPUT: seq<string> :=
    ["/prompt_tokens_details/image_tokens", "/input_tokens_details/image_tokens"]
  const AUDIO_OUTPUT: seq<string> :=
    ["/completion_tokens_details/audio_tokens", "/output_tokens_details/audio_tokens"]
  const IMAGE_OUTPUT: seq<string> :=
    ["/completion_tokens_details/image_tokens", "/output_tokens_details/image_tokens"]
  const WEB_SEARCHES: seq<string> :=
    ["/server_tool_use/web_search_requests", "/server_tool_use_details/web_search_requests"]

  function ReadCounts(doc: UsageDoc): Counts {
    Counts(
      U64AtAny(doc, PROMPT),
      U64AtAny(doc, INPUT),
      OrZero(U64AtAny(doc, CACHED)),
      OrZero(U64AtAny(doc, CACHE_WRITE)),
      OrZero(U64AtAny(doc, OUTPUT)),
      OrZero(U64AtAny(doc, REASONING)),
      "thoughtsTokenCount" in doc.keys || "thoughts_token_count" in doc.keys,
      U64AtAny(doc, TOTAL),
      OrZero(U64AtAny(doc, AUDIO_INPUT)),
      OrZero(U64AtAny(doc, IMAGE_INPUT)),
      OrZero(U64AtAny(doc, AUDIO_OUTPUT)),
      OrZero(U64AtAny(doc, IMAGE_OUTPUT)),
      U64AtAny(doc, WEB_SEARCHES))
  }

  // ----- normalization

  function PromptTokens(c: Counts): u64 {
    match c.aggregatePrompt
    case Some(n) => n
    case None => SatAdd(SatAdd(OrZero(c.anthropicInput), c.cached), c.cacheWrite)
  }

  function CompletionTokens(c: Counts): u64 {
    if c.thinkingIsSeparate then SatAdd(c.visibleOutput, c.reasoning) else c.visibleOutput
  }

  function UncachedInput(c: Counts): u64 {
    if c.aggregatePrompt.Some? then SatSub(SatSub(PromptTokens(c), c.cached), c.cacheWrite)
    else if c.anthropicInput.Some? then c.anthropicInput.value
    else PromptTokens(c)
  }

  function InsertOptional(metrics: map<Metric, u64>, metric: Metric, quantity: Option<u64>): map<Metric, u64> {
    match quantity
    case Some(q) => metrics[metric := q]
    case None => metrics
  }

  function Positive(n: u64): Option<u64> {
    if n > 0 then Some(n) else None
  }

  /** The meters before the optional ones. */
  function BaseMetrics(c: Counts): map<Metric, u64> {
    var base := map[
      InputTokens := SatSub(SatSub(UncachedInput(c), c.audioInput), c.imageInput),
      CachedInputTokens := c.cached,
      CacheWriteInputTokens := c.cacheWrite,
      OutputTokens := SatSub(SatSub(c.visibleOutput, c.audioOutput), c.imageOutput)];
    if c.thinkingIsSeparate then base[ReasoningTokens := c.reasoning] else base
  }

  /** Meters that are only there when there is something on them. */
  function WithOptional(c: Counts, base: map<Metric, u64>): map<Metric, u64> {
    var m1 := InsertOptional(base, AudioInputTokens, Positive(c.audioInput));
    var m2 := InsertOptional(m1, ImageInputTokens, Positive(c.imageInput));
    var m3 := InsertOptional(m2, AudioOutputTokens, Positive(c.audioOutput));
    var m4 := InsertOptional(m3, ImageOutputTokens, Positive(c.imageOutput));
    InsertOptional(m4, WebSearchRequests, c.webSearches)
  }

  function Metrics(c: Counts): map<Metric, u64> {
    WithOptional(c, BaseMetrics(c))
  }

  function Normalize(c: Counts): ExtractedUsage {
    var total := if c.total.Some? then c.total.value else SatAdd(PromptTokens(c), CompletionTokens(c));
    ExtractedUsage(TokenUsage(PromptTokens(c), CompletionTokens(c), total), true, Metrics(c))
  }

  function ExtractUsage(payload: Payload): ExtractedUsage {
    if payload.usage.Some? then Normalize(ReadCounts(payload.usage.value))
    else if payload.usageMetadata.Some? then Normalize(ReadCounts(payload.usageMetadata.value))
    else NO_USAGE
  }

  // ----- every token is billed

  function At(metrics: map<Metric, u64>, metric: Metric): nat {
    if metric in metrics then metrics[metric] else 0
  }

  /** The tokens on the meters; web searches are not tokens. */
  function BilledTokens(metrics: map<Metric, u64>): nat {
    At(metrics, InputTokens) + At(metrics, CachedInputTokens) + At(metrics, CacheWriteInputTokens)
    + At(metrics, OutputTokens) + At(metrics, ReasoningTokens)
    + At(metrics, AudioInputTokens) + At(metrics, ImageInputTokens)
    + At(metrics, AudioOutputTokens) + At(metrics, ImageOutputTokens)
  }

  /** No sum of the normalization leaves the range of `u64`. */
  predicate NoSaturation(c: Counts) {
    && (c.aggregatePrompt.None? ==> OrZero(c.anthropicInput) + c.cached + c.cacheWrite <= U64_MAX)
    && (c.thinkingIsSeparate ==> c.visibleOutput + c.reasoning <= U64_MAX)
  }

  /** The input meters have room for the parts that are billed on meters of their own. */
  predicate InputPartsFit(c: Counts) {
    && (c.aggregatePrompt.Some? ==> c.cached + c.cacheWrite <= c.aggregatePrompt.value)
    && (c.aggregatePrompt.None? && c.anthropicInput.None? ==> c.cached + c.cacheWrite == 0)
    && c.audioInput + c.imageInput <= UncachedInput(c)
  }

  predicate OutputPartsFit(c: Counts) {
    c.audioOutput + c.imageOutput <= c.visibleOutput
  }

  lemma MetersOf(c: Counts)
    ensures var m := Metrics(c);
            && At(m, InputTokens) == SatSub(SatSub(UncachedInput(c), c.audioInput), c.imageInput)
            && At(m, CachedInputTokens) == c.cached && At(m, CacheWriteInputTokens) == c.cacheWrite
            && At(m, OutputTokens) == SatSub(SatSub(c.visibleOutput, c.audioOutput), c.imageOutput)
            && At(m, ReasoningTokens) == (if c.thinkingIsSeparate then c.reasoning else 0)
            && At(m, AudioInputTokens) == c.audioInput && At(m, ImageInputTokens) == c.imageInput
            && At(m, AudioOutputTokens) == c.audioOutput && At(m, ImageOutputTokens) == c.imageOutput
  {
    hide UncachedInput, InsertOptional, Positive, At, BaseMetrics;
    BaseMeters(c);
    OptionalMeters(c, BaseMetrics(c));
  }

  const OPTIONAL_METERS: set<Metric> :=
    {AudioInputTokens, ImageInputTokens, AudioOutputTokens, ImageOutputTokens, WebSearchRequests}

  lemma OptionalMeters(c: Counts, base: map<Metric, u64>)
    requires At(base, AudioInputTokens) == At(base, ImageInputTokens) == 0
    requires At(base, AudioOutputTokens) == At(base, ImageOutputTokens) == 0
    ensures var m := WithOptional(c, base);
            && At(m, AudioInputTokens) == c.audioInput && At(m, ImageInputTokens) == c.imageInput
            && At(m, AudioOutputTokens) == c.audioOutput && At(m, ImageOutputTokens) == c.imageOutput
            && (forall k :: k !in OPTIONAL_METERS ==> At(m, k) == At(base, k))
  {
    hide InsertOptional, Positive, At;
    var m1 := InsertOptional(base, AudioInputTokens, Positive(c.audioInput));
    var m2 := InsertOptional(m1, ImageInputTokens, Positive(c.imageInput));
    var m3 := InsertOptional(m2, AudioOutputTokens, Positive(c.audioOutput));
    var m4 := InsertOptional(m3, ImageOutputTokens, Positive(c.imageOutput));
    AtInserted(base, AudioInputTokens, Positive(c.audioInput));
    AtInserted(m1, ImageInputTokens, Positive(c.imageInput));
    AtInserted(m2, AudioOutputTokens, Positive(c.audioOutput));
    AtInserted(m3, ImageOutputTokens, Positive(c.imageOutput));
    AtInserted(m4, WebSearchRequests, c.webSearches);
    PositiveOrZero();
  }

  lemma PositiveOrZero()
    ensures forall n: u64 :: OrZero(Positive(n)) == n
  {
  }

  lemma AtInserted(metrics: map<Metric, u64>, metric: Metric, quantity: Option<u64>)
    ensures var m := InsertOptional(metrics, metric, quantity);
            && At(m, metric) == (if quantity.Some? then quantity.value else At(metrics, metric))
            && forall k :: k != metric ==> At(m, k) == At(metrics, k)
  {
  }

  lemma BaseMeters(c: Counts)
    ensures var m := BaseMetrics(c);
            && At(m, InputTokens) == SatSub(SatSub(UncachedInput(c), c.audioInput), c.imageInput)
            && At(m, CachedInputTokens) == c.cached && At(m, CacheWriteInputTokens) == c.cacheWrite
            && At(m, OutputTokens) == SatSub(SatSub(c.visibleOutput, c.audioOutput), c.imageOutput)
            && At(m, ReasoningTokens) == (if c.thinkingIsSeparate then c.reasoning else 0)
            && At(m, AudioInputTokens) == At(m, ImageInputTokens) == 0
            && At(m, AudioOutputTokens) == At(m, ImageOutputTokens) == 0
  {
    hide UncachedInput, SatSub;
  }

  /**
   * The meters never bill fewer tokens than prompt and completion together, and bill exactly
   * those if and only if every separately metered part fits into the count it is part of.
   */
  lemma BilledOnceIffPartsFit(c: Counts)
    requires NoSaturation(c)
    ensures var u := Normalize(c);
            && BilledTokens(u.metrics) >= u.usage.promptTokens + u.usage.completionTokens
            && (BilledTokens(u.metrics) == u.usage.promptTokens + u.usage.completionTokens <==>
                InputPartsFit(c) && OutputPartsFit(c))
  {
    hide Metrics;
    MetersOf(c);
  }

  /** The same for every payload that reports usage; without usage nothing is billed. */
  lemma ExtractedUsageIsBilledOnce(payload: Payload)
    ensures var u := ExtractUsage(payload);
            if payload.usage.None? && payload.usageMetadata.None? then
              !u.reported && BilledTokens(u.metrics) == 0 && u.usage == TokenUsage(0, 0, 0)
            else
              var c := ReadCounts(if payload.usage.Some? then payload.usage.value else payload.usageMetadata.value);
              && u.reported
              && (NoSaturation(c) ==>
                    && BilledTokens(u.metrics) >= u.usage.promptTokens + u.usage.completionTokens
                    && (BilledTokens(u.metrics) == u.usage.promptTokens + u.usage.completionTokens <==>
                        InputPartsFit(c) && OutputPartsFit(c)))
  {
    if payload.usage.Some? || payload.usageMetadata.Some? {
      var c := ReadCounts(if payload.usage.Some? then payload.usage.value else payload.usageMetadata.value);
      hide ReadCounts, Normalize, NoSaturation, InputPartsFit, OutputPartsFit, BilledTokens;
      assert ExtractUsage(payload) == Normalize(c);
      NormalizedIsReported(c);
      if NoSaturation(c) {
        BilledOnceIffPartsFit(c);
      }
    }
  }

  lemma NormalizedIsReported(c: Counts)
    ensures Normalize(c).reported
  {
  }

  /** Usage that reports cached tokens and nothing else, under one of the names for them. */
  function OnlyCached(cached: u64): Payload {
    Payload(Some(UsageDoc(map[CACHE_READ := cached], {CACHE_READ[1..]})), None)
  }

  const CACHE_READ: string := "/cache_read_input_tokens"

  lemma {:induction false} OnlyOneCount(doc: UsageDoc, pointer: string, n: u64, pointers: seq<string>)
    requires doc.counts == map[pointer := n]
    ensures U64AtAny(doc, pointers) == if pointer in pointers then Some(n) else None
  {
    if pointers != [] {
      OnlyOneCount(doc, pointer, n, pointers[1..]);
    }
  }

  lemma CacheReadIsNoOtherCount()
    ensures CACHE_READ in CACHED
    ensures CACHE_READ !in PROMPT && CACHE_READ !in INPUT && CACHE_READ !in CACHE_WRITE && CACHE_READ !in TOTAL
  {
    assert CACHED[2] == CACHE_READ;
    assert CACHE_READ[7] == 'r';
  }

  lemma CacheReadIsNoOutput()
    ensures CACHE_READ !in OUTPUT && CACHE_READ !in REASONING && CACHE_READ !in WEB_SEARCHES
  {
    assert CACHE_READ[7] == 'r';
  }

  lemma CacheReadIsNoDetail()
    ensures CACHE_READ !in AUDIO_INPUT && CACHE_READ !in IMAGE_INPUT
    ensures CACHE_READ !in AUDIO_OUTPUT && CACHE_READ !in IMAGE_OUTPUT
  {
    assert CACHE_READ[7] == 'r';
  }

  lemma CountsOfOnlyCached(cached: u64)
    ensures ReadCounts(OnlyCached(cached).usage.value) ==
            Counts(None, None, cached, 0, 0, 0, false, None, 0, 0, 0, 0, None)
  {
    hide U64AtAny;
    CacheReadIsNoOtherCount();
    CacheReadIsNoOutput();
    CacheReadIsNoDetail();
    var doc := OnlyCached(cached).usage.value;
    forall pointers: seq<string>
      ensures U64AtAny(doc, pointers) == if CACHE_READ in pointers then Some(cached) else None
    {
      OnlyOneCount(doc, CACHE_READ, cached, pointers);
    }
  }

  /** A payload that reports cached tokens but no prompt count under any name is billed twice. */
  lemma CachedWithoutPromptCountIsBilledTwice(cached: u64)
    requires cached > 0
    ensures var u := ExtractUsage(OnlyCached(cached));
            u.reported && u.usage.promptTokens == cached && BilledTokens(u.metrics) == 2 * cached
  {
    hide ReadCounts, Metrics;
    CountsOfOnlyCached(cached);
    MetersOf(Counts(None, None, cached, 0, 0, 0, false, None, 0, 0, 0, 0, None));
  }
}
