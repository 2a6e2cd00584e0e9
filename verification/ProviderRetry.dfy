/** The provider's retry loop and its accounting: one record for every physical HTTP attempt. */
module ProviderRetry {
  import opened Accounting
  import opened Common
  import opened Money
  import opened Text
  import opened Usage

  /** The part of the client's configuration that a run of attempts depends on. */
  datatype RetryConfig = RetryConfig(
    maxRetries: u32,
    retryBaseDelayMs: u64,
    providerId: string,
    model: string,
    costJsonPointers: seq<string>,
    costHeaders: seq<string>,
    reportedCostUnit: Option<string>)

  /** How a 2xx body that is JSON turns out. */
  datatype Shape = BadShape(error: string) | NoChoices | Completion(content: string)

  /**
   * A body that is JSON: its usage, the strings accounting looks at, and by JSON pointer its
   * amounts and the amounts in its objects.
   */
  datatype JsonBody = JsonBody(
    payload: Payload,
    id: Option<string>,
    model: Option<string>,
    serviceTier: Option<string>,
    amounts: map<string, Decimal>,
    costObjects: map<string, map<string, Decimal>>)

  /** What accounting takes from the response headers; amounts are by header name. */
  datatype Headers = Headers(requestId: Option<string>, amounts: map<string, Decimal>)

  /** What one attempt meets. `doc` is the body as JSON, when it is JSON. */
  datatype HttpOutcome =
    | SendFailed(error: string)
    | BodyFailed(status: nat, headers: Headers, error: string)
    | Replied(
        status: nat,
        reason: string,
        headers: Headers,
        body: string,
        doc: Result<JsonBody, string>,
        shape: Shape)

  datatype ProviderError =
    | Http(error: string)
    | HttpStatus(status: nat, body: string)
    | Decode(error: string)
    | EmptyChoices

  predicate IsSuccess(status: nat) {
    200 <= status < 300
  }

  predicate RetryableStatus(status: nat) {
    status == 429 || 500 <= status < 600
  }

  // ----- specification

  /** Failures worth another attempt: the request was not sent, or the server says to come back. */
  predicate Retryable(o: HttpOutcome) {
    match o
    case SendFailed(_) => true
    case BodyFailed(_, _, _) => false
    case Replied(status, _, _, _, _, _) => !IsSuccess(status) && RetryableStatus(status)
  }

  /** What the caller is told when an attempt is the last one. */
  function Verdict(o: HttpOutcome): Result<string, ProviderError> {
    match o
    case SendFailed(error) => Err(Http(error))
    case BodyFailed(_, _, error) => Err(Http(error))
    case Replied(status, _, _, body, doc, shape) =>
      if !IsSuccess(status) then Err(HttpStatus(status, body))
      else if doc.Err? then Err(Decode(doc.error))
      else match shape
        case BadShape(e) => Err(Decode(e))
        case NoChoices => Err(EmptyChoices)
        case Completion(content) => Ok(content)
  }

  function StatusOf(o: HttpOutcome): Option<nat> {
    if o.SendFailed? then None else Some(o.status)
  }

  /** The usage on the record: whatever a JSON body reports, of failed attempts as well. */
  function UsageOf(o: HttpOutcome): ExtractedUsage {
    if o.Replied? && o.doc.Ok? then ExtractUsage(o.doc.value.payload) else NO_USAGE
  }

  /** The id in a JSON body goes before the one in a header. */
  function RequestIdOf(o: HttpOutcome): Option<string> {
    match o
    case SendFailed(_) => None
    case BodyFailed(_, headers, _) => headers.requestId
    case Replied(_, _, headers, _, doc, _) =>
      if doc.Ok? && doc.value.id.Some? then doc.value.id else headers.requestId
  }

  /** The first of the keys that has an amount. */
  function FirstAmount(amounts: map<string, Decimal>, keys: seq<string>): Option<(string, Decimal)> {
    if keys == [] then None
    else if keys[0] in amounts then Some((keys[0], amounts[keys[0]]))
    else FirstAmount(amounts, keys[1..])
  }

  const DETAIL_POINTERS: seq<string> := ["/usage/cost_details", "/usage/response_cost", "/cost_details"]

  /** The named amounts of all these objects; a later object's go before an earlier one's. */
  function CostDetails(doc: JsonBody, pointers: seq<string>): map<string, Decimal> {
    if pointers == [] then map[]
    else
      var here := if pointers[0] in doc.costObjects then doc.costObjects[pointers[0]] else map[];
      here + CostDetails(doc, pointers[1..])
  }

  /** A cost in a JSON body goes before one in a header. */
  function CostIn(cfg: RetryConfig, doc: Result<JsonBody, string>, headers: Headers): Option<ReportedCost> {
    match (if doc.Ok? then FirstAmount(doc.value.amounts, cfg.costJsonPointers) else None)
    case Some((pointer, amount)) =>
      Some(ReportedCost(amount, cfg.reportedCostUnit, "provider_json:" + pointer,
                        CostDetails(doc.value, DETAIL_POINTERS)))
    case None =>
      match FirstAmount(headers.amounts, cfg.costHeaders)
      case Some((name, amount)) =>
        Some(ReportedCost(amount, cfg.reportedCostUnit, "provider_header:" + LowerAscii(name), map[]))
      case None => None
  }

  /** What went wrong, in the words of whoever noticed; nothing only when nothing did. */
  function ErrorOf(o: HttpOutcome): (error: Option<string>)
    ensures error.None? <==> Verdict(o).Ok?
  {
    match o
    case SendFailed(error) => Some(error)
    case BodyFailed(_, _, error) => Some(error)
    case Replied(status, reason, _, _, doc, shape) =>
      if !IsSuccess(status) then Some("provider returned HTTP " + StatusText(status, reason))
      else if doc.Err? then Some(doc.error)
      else match shape
        case BadShape(e) => Some(e)
        case NoChoices => Some("provider response has no choices")
        case Completion(_) => None
  }

  /** The record of attempt number `n`, counted from one, that was made at `now`. */
  predicate Records(cfg: RetryConfig, a: Attempt, n: nat, now: u128, o: HttpOutcome) {
    var doc := if o.Replied? && o.doc.Ok? then Some(o.doc.value) else None;
    && a.attempt == n && a.occurredAtMs == now
    && a.providerId == cfg.providerId && a.requestedModel == cfg.model
    && a.resolvedModel == (if doc.Some? then doc.value.model else None)
    && a.serviceTier == (if doc.Some? then doc.value.serviceTier else None)
    && a.requestId == RequestIdOf(o)
    && a.status == StatusOf(o)
    && a.usage == UsageOf(o)
    && a.reportedCost == (if o.Replied? then CostIn(cfg, o.doc, o.headers) else None)
    && a.error == ErrorOf(o)
  }

  /** The first attempt from `i` on that is not retried; the one after the last retry at the latest. */
  function LastAttempt(outcome: nat -> HttpOutcome, maxRetries: nat, i: nat): nat
    requires i <= maxRetries
    decreases maxRetries - i
  {
    if i == maxRetries || !Retryable(outcome(i)) then i else LastAttempt(outcome, maxRetries, i + 1)
  }

  /** The loop stops at the first outcome that is not retryable, or when retries run out. */
  lemma {:induction false} LastAttemptIsFirstFinal(outcome: nat -> HttpOutcome, maxRetries: nat, i: nat)
    requires i <= maxRetries
    ensures var n := LastAttempt(outcome, maxRetries, i);
            && i <= n <= maxRetries
            && (forall k :: i <= k < n ==> Retryable(outcome(k)))
            && (n < maxRetries ==> !Retryable(outcome(n)))
    decreases maxRetries - i
  {
    if i < maxRetries && Retryable(outcome(i)) {
      LastAttemptIsFirstFinal(outcome, maxRetries, i + 1);
    }
  }

  /** Another way to end there: nothing that is retryable ever succeeded. */
  lemma RetryableIsFailure(o: HttpOutcome)
    ensures Retryable(o) ==> Verdict(o).Err?
  {
  }

  // ----- delays

  function Pow2(n: nat): nat {
    if n == 0 then 1 else 2 * Pow2(n - 1)
  }

  /** `2u64.saturating_pow(attempt.min(10))`, then a saturating product. */
  function RawDelay(cfg: RetryConfig, attempt: nat): u64 {
    var base := if cfg.retryBaseDelayMs < 1 then 1 else cfg.retryBaseDelayMs;
    Min(base * Pow2(Min(attempt, 10)), U64_MAX)
  }

  /** The random part is some number between zero and a quarter of the delay, rounded up. */
  function BackoffWithJitter(cfg: RetryConfig, attempt: nat, random: nat): u64 {
    var raw := RawDelay(cfg, attempt);
    SatAdd(raw, random % (raw / 4 + 2))
  }

  lemma DelayBounds(cfg: RetryConfig, attempt: nat, random: nat)
    ensures var raw := RawDelay(cfg, attempt);
            1 <= raw <= BackoffWithJitter(cfg, attempt, random) <= Min(raw + raw / 4 + 1, U64_MAX)
  {
    Pow2Positive(Min(attempt, 10));
    Product(if cfg.retryBaseDelayMs < 1 then 1 else cfg.retryBaseDelayMs, Pow2(Min(attempt, 10)));
  }

  lemma {:induction false} Pow2Positive(n: nat)
    ensures Pow2(n) >= 1
  {
    if n > 0 {
      Pow2Positive(n - 1);
    }
  }

  lemma Product(a: nat, b: nat)
    requires a >= 1 && b >= 1
    ensures a * b >= 1
  {
  }

  /** The delay doubles with every retry up to the tenth, within `u64`, and then stays. */
  lemma DelayDoubles(cfg: RetryConfig, attempt: nat)
    ensures RawDelay(cfg, attempt + 1) ==
            if attempt < 10 then Min(2 * RawDelay(cfg, attempt), U64_MAX) else RawDelay(cfg, attempt)
  {
    var base := if cfg.retryBaseDelayMs < 1 then 1 else cfg.retryBaseDelayMs;
    if attempt < 10 {
      assert Pow2(attempt + 1) == 2 * Pow2(attempt);
      DoubleProduct(base, Pow2(attempt));
    }
  }

  lemma DoubleProduct(a: nat, b: nat)
    ensures a * (2 * b) == 2 * (a * b)
  {
  }

  // ----- the loop

  /** One record for every attempt, in order. */
  ghost predicate AllRecorded(cfg: RetryConfig, attempts: seq<Attempt>, clock: nat -> u128,
                              outcome: nat -> HttpOutcome) {
    forall i :: 0 <= i < |attempts| ==> Records(cfg, attempts[i], i + 1, clock(i), outcome(i))
  }

  /** Retry `i` waited its own delay. */
  ghost predicate AllDelayed(delays: seq<u64>, cfg: RetryConfig, random: nat -> nat) {
    forall i :: 0 <= i < |delays| ==> delays[i] == BackoffWithJitter(cfg, i, random(i))
  }

  /**
   * The delays of a run: none of the first eleven is shorter than the one before it, whatever
   * the random parts; from the eleventh on they stay in one window.
   */
  lemma DelaysNeverShrink(delays: seq<u64>, cfg: RetryConfig, random: nat -> nat, i: nat)
    requires AllDelayed(delays, cfg, random)
    ensures i < 10 && i + 1 < |delays| ==> delays[i] <= delays[i + 1]
    ensures 10 <= i < |delays| ==>
              var raw := RawDelay(cfg, 10); raw <= delays[i] <= Min(raw + raw / 4 + 1, U64_MAX)
  {
    hide BackoffWithJitter, RawDelay;
    DelayBounds(cfg, i, random(i));
    DelayBounds(cfg, i + 1, random(i + 1));
    DelayDoubles(cfg, i);
    if i >= 10 {
      RawDelayStays(cfg, i);
    }
  }

  lemma {:induction false} RawDelayStays(cfg: RetryConfig, i: nat)
    requires i >= 10
    ensures RawDelay(cfg, i) == RawDelay(cfg, 10)
  {
    hide RawDelay;
    if i > 10 {
      RawDelayStays(cfg, i - 1);
      DelayDoubles(cfg, i - 1);
    }
  }

  lemma NoRecords(cfg: RetryConfig, clock: nat -> u128, outcome: nat -> HttpOutcome, random: nat -> nat)
    ensures AllRecorded(cfg, [], clock, outcome) && AllDelayed([], cfg, random)
  {
  }

  lemma OneMoreRecord(cfg: RetryConfig, attempts: seq<Attempt>, a: Attempt, clock: nat -> u128,
                      outcome: nat -> HttpOutcome)
    requires AllRecorded(cfg, attempts, clock, outcome)
    requires Records(cfg, a, |attempts| + 1, clock(|attempts|), outcome(|attempts|))
    ensures AllRecorded(cfg, attempts + [a], clock, outcome)
  {
    hide Records;
  }

  lemma OneMoreDelay(delays: seq<u64>, cfg: RetryConfig, random: nat -> nat)
    requires AllDelayed(delays, cfg, random)
    ensures AllDelayed(delays + [BackoffWithJitter(cfg, |delays|, random(|delays|))], cfg, random)
  {
    hide BackoffWithJitter;
  }

  /** `accounting_attempt` without usage and cost: what is known before a body has been read. */
  function BareAttempt(cfg: RetryConfig, n: nat, now: u128, status: Option<nat>, requestId: Option<string>,
                       error: string): Attempt {
    Attempt(n, cfg.providerId, cfg.model, None, None, requestId, status, now, NO_USAGE, None, Some(error))
  }

  /**
   * Tries until an outcome is final. The attempts are numbered from one without gaps, the
   * last of them decides the result, and every retry waits its delay first.
   */
  method CompleteAccounted(cfg: RetryConfig, clock: nat -> u128, outcome: nat -> HttpOutcome, random: nat -> nat)
    returns (r: Result<string, ProviderError>, attempts: seq<Attempt>, delays: seq<u64>)
    ensures var n := LastAttempt(outcome, cfg.maxRetries, 0);
            && |attempts| == n + 1 && r == Verdict(outcome(n))
            && AllRecorded(cfg, attempts, clock, outcome)
            && |delays| == n && AllDelayed(delays, cfg, random)
  {
    hide BackoffWithJitter, ExtractUsage, PrintNat, AllRecorded, AllDelayed, CostIn, Verdict, ErrorOf, Records;
    NoRecords(cfg, clock, outcome, random);
    var retryIndex: nat := 0;
    attempts, delays := [], [];
    while true
      invariant retryIndex <= cfg.maxRetries
      invariant LastAttempt(outcome, cfg.maxRetries, 0) == LastAttempt(outcome, cfg.maxRetries, retryIndex)
      invariant |attempts| == retryIndex == |delays|
      invariant AllRecorded(cfg, attempts, clock, outcome) && AllDelayed(delays, cfg, random)
      decreases cfg.maxRetries - retryIndex
    {
      var o := outcome(retryIndex);
      var record, final := AttemptOnce(cfg, retryIndex, clock(retryIndex), o);
      OneMoreRecord(cfg, attempts, record, clock, outcome);
      attempts := attempts + [record];
      match final {
        case Some(verdict) => return verdict, attempts, delays;
        case None =>
      }
      OneMoreDelay(delays, cfg, random);
      delays := delays + [BackoffWithJitter(cfg, retryIndex, random(retryIndex))];
      retryIndex := retryIndex + 1;
    }
  }

  /** One turn of the loop: its record, and the verdict unless the attempt is to be retried. */
  method AttemptOnce(cfg: RetryConfig, retryIndex: nat, now: u128, o: HttpOutcome)
    returns (record: Attempt, final: Option<Result<string, ProviderError>>)
    ensures Records(cfg, record, retryIndex + 1, now, o)
    ensures final == if Retryable(o) && retryIndex < cfg.maxRetries then None else Some(Verdict(o))
  {
    hide ExtractUsage, PrintNat, CostIn;
    match o
    case SendFailed(error) =>
      record := BareAttempt(cfg, retryIndex + 1, now, None, None, error);
      final := if retryIndex >= cfg.maxRetries then Some(Err(Http(error))) else None;
    case BodyFailed(status, headers, error) =>
      record := BareAttempt(cfg, retryIndex + 1, now, Some(status), headers.requestId, error);
      final := Some(Err(Http(error)));
    case Replied(status, reason, headers, body, doc, shape) =>
      record := BareAttempt(cfg, retryIndex + 1, now, Some(status), headers.requestId, "");
      record := record.(error := None, reportedCost := CostIn(cfg, doc, headers));
      if doc.Ok? {
        if doc.value.id.Some? {
          record := record.(requestId := doc.value.id);
        }
        record := record.(usage := ExtractUsage(doc.value.payload), resolvedModel := doc.value.model,
                          serviceTier := doc.value.serviceTier);
      }
      if !IsSuccess(status) {
        record := record.(error := Some("provider returned HTTP " + StatusText(status, reason)));
        final := if RetryableStatus(status) && retryIndex < cfg.maxRetries then None
                 else Some(Err(HttpStatus(status, body)));
        return;
      }
      if doc.Err? {
        record := record.(error := Some(doc.error));
        final := Some(Err(Decode(doc.error)));
        return;
      }
      match shape {
        case BadShape(e) =>
          record := record.(error := Some(e));
          final := Some(Err(Decode(e)));
        case NoChoices =>
          record := record.(error := Some("provider response has no choices"));
          final := Some(Err(EmptyChoices));
        case Completion(content) =>
          final := Some(Ok(content));
      }
  }

  /**
   * What the records say, for any run of the loop: at most one more attempt than retries, all
   * but the last were retryable failures, and only the last record of a success has no error.
   */
  lemma AttemptsTellTheRun(cfg: RetryConfig, clock: nat -> u128, outcome: nat -> HttpOutcome, attempts: seq<Attempt>)
    requires |attempts| == LastAttempt(outcome, cfg.maxRetries, 0) + 1
    requires AllRecorded(cfg, attempts, clock, outcome)
    ensures 1 <= |attempts| <= cfg.maxRetries + 1
    ensures forall i :: 0 <= i < |attempts| ==> attempts[i].attempt == i + 1
    ensures forall i :: 0 <= i < |attempts| - 1 ==>
              && attempts[i].error.Some?
              && (attempts[i].status.None? || RetryableStatus(attempts[i].status.value))
    ensures var last := attempts[|attempts| - 1];
            && (last.error.None? <==> Verdict(outcome(|attempts| - 1)).Ok?)
            && (last.error.None? ==> last.status.Some? && IsSuccess(last.status.value))
            && (last.error.Some? && |attempts| <= cfg.maxRetries ==> !Retryable(outcome(|attempts| - 1)))
  {
    hide CostIn, ErrorOf, UsageOf, RequestIdOf;
    LastAttemptIsFirstFinal(outcome, cfg.maxRetries, 0);
    var n := |attempts| - 1;
    assert Records(cfg, attempts[n], n + 1, clock(n), outcome(n));
    forall i | 0 <= i < |attempts| - 1
      ensures attempts[i].error.Some?
      ensures attempts[i].status.None? || RetryableStatus(attempts[i].status.value)
    {
      RetryableIsFailure(outcome(i));
      assert Records(cfg, attempts[i], i + 1, clock(i), outcome(i)) && Retryable(outcome(i));
    }
  }

  /** A cost on a record was found under a configured key, and under no configured key before it. */
  lemma {:induction false} FirstAmountIsFirst(amounts: map<string, Decimal>, keys: seq<string>)
    ensures match FirstAmount(amounts, keys)
            case None => forall i :: 0 <= i < |keys| ==> keys[i] !in amounts
            case Some((key, amount)) =>
              exists i :: 0 <= i < |keys| && keys[i] == key && key in amounts && amounts[key] == amount
                          && forall j :: 0 <= j < i ==> keys[j] !in amounts
  {
    if keys != [] && keys[0] !in amounts {
      FirstAmountIsFirst(amounts, keys[1..]);
      var rest := keys[1..];
      assert forall i :: 1 <= i < |keys| ==> keys[i] == rest[i - 1];
      match FirstAmount(amounts, rest) {
        case None =>
        case Some((key, amount)) =>
          var i :| 0 <= i < |rest| && rest[i] == key && forall j :: 0 <= j < i ==> rest[j] !in amounts;
          assert keys[i + 1] == key;
      }
    }
  }

  // ----- the run in terms of what each attempt met

  /** The request was not sent, or the server was overloaded or failed. */
  predicate TriedAgain(o: HttpOutcome) {
    o.SendFailed? || (o.Replied? && (o.status == 429 || 500 <= o.status <= 599))
  }

  /** The caller gets the content of a 2xx reply that is a completion, else the failure by its kind. */
  lemma VerdictMeans(o: HttpOutcome)
    ensures forall content :: Verdict(o) == Ok(content) <==>
              o.Replied? && 200 <= o.status <= 299 && o.doc.Ok? && o.shape == Completion(content)
    ensures match o
            case SendFailed(error) => Verdict(o) == Err(Http(error))
            case BodyFailed(_, _, error) => Verdict(o) == Err(Http(error))
            case Replied(status, _, _, body, doc, shape) =>
              && (status < 200 || status > 299 ==> Verdict(o) == Err(HttpStatus(status, body)))
              && (200 <= status <= 299 && doc.Err? ==> Verdict(o) == Err(Decode(doc.error)))
              && (200 <= status <= 299 && doc.Ok? && shape == NoChoices ==> Verdict(o) == Err(EmptyChoices))
  {
  }

  /**
   * The attempts of a run: every one but the last was not sent, or met 429 or 5xx, and there
   * are at most as many as retries; the last one met something else, or retries had run out.
   */
  lemma RunStopsIff(outcome: nat -> HttpOutcome, maxRetries: nat, n: nat)
    ensures LastAttempt(outcome, maxRetries, 0) == n <==>
            && n <= maxRetries
            && (forall i: nat :: i < n ==> TriedAgain(outcome(i)))
            && (n == maxRetries || !TriedAgain(outcome(n)))
  {
    hide LastAttempt;
    LastAttemptIsFirstFinal(outcome, maxRetries, 0);
    var last := LastAttempt(outcome, maxRetries, 0);
    assert forall i: nat :: Retryable(outcome(i)) <==> TriedAgain(outcome(i));
    hide TriedAgain, Retryable;
    if last < n {
      assert last < maxRetries && n <= maxRetries ==> !TriedAgain(outcome(last));
    }
  }

  predicate FirstKey(amounts: map<string, Decimal>, keys: seq<string>, i: nat) {
    i < |keys| && keys[i] in amounts && forall j :: 0 <= j < i ==> keys[j] !in amounts
  }

  predicate NoKey(amounts: map<string, Decimal>, keys: seq<string>) {
    forall j :: 0 <= j < |keys| ==> keys[j] !in amounts
  }

  lemma {:induction false} FirstAmountAt(amounts: map<string, Decimal>, keys: seq<string>)
    ensures NoKey(amounts, keys) ==> FirstAmount(amounts, keys).None?
    ensures forall i: nat :: FirstKey(amounts, keys, i) ==>
              FirstAmount(amounts, keys) == Some((keys[i], amounts[keys[i]]))
  {
    if keys != [] {
      var rest := keys[1..];
      FirstAmountAt(amounts, rest);
      assert forall j :: 0 <= j < |rest| ==> rest[j] == keys[j + 1];
      forall i: nat | FirstKey(amounts, keys, i)
        ensures FirstAmount(amounts, keys) == Some((keys[i], amounts[keys[i]]))
      {
        if i > 0 {
          assert keys[0] !in amounts && FirstKey(amounts, rest, i - 1);
        }
      }
    }
  }

  /**
   * The cost on a record: the first configured pointer of the body that holds an amount, with
   * the details of the body; only without one, the first configured header that holds one.
   */
  lemma BodyCostGoesFirst(cfg: RetryConfig, doc: Result<JsonBody, string>, headers: Headers)
    ensures doc.Ok? ==> forall i: nat :: FirstKey(doc.value.amounts, cfg.costJsonPointers, i) ==>
              CostIn(cfg, doc, headers) ==
              Some(ReportedCost(doc.value.amounts[cfg.costJsonPointers[i]], cfg.reportedCostUnit,
                                "provider_json:" + cfg.costJsonPointers[i],
                                CostDetails(doc.value, DETAIL_POINTERS)))
    ensures doc.Err? || NoKey(doc.value.amounts, cfg.costJsonPointers) ==>
              && (NoKey(headers.amounts, cfg.costHeaders) ==> CostIn(cfg, doc, headers).None?)
              && forall i: nat :: FirstKey(headers.amounts, cfg.costHeaders, i) ==>
                   CostIn(cfg, doc, headers) ==
                   Some(ReportedCost(headers.amounts[cfg.costHeaders[i]], cfg.reportedCostUnit,
                                     "provider_header:" + LowerAscii(cfg.costHeaders[i]), map[]))
  {
    hide CostDetails, LowerAscii, FirstKey, NoKey, FirstAmount;
    if doc.Ok? {
      FirstAmountAt(doc.value.amounts, cfg.costJsonPointers);
    }
    FirstAmountAt(headers.amounts, cfg.costHeaders);
  }

  function Object(doc: JsonBody, pointer: string): map<string, Decimal> {
    if pointer in doc.costObjects then doc.costObjects[pointer] else map[]
  }

  /** Of the three objects that can detail a cost, the last one that has a name gives its amount. */
  lemma DetailsComeFrom(doc: JsonBody, name: string)
    ensures var (first, second, third) :=
              (Object(doc, "/usage/cost_details"), Object(doc, "/usage/response_cost"), Object(doc, "/cost_details"));
            var details := CostDetails(doc, DETAIL_POINTERS);
            if name in third then name in details && details[name] == third[name]
            else if name in second then name in details && details[name] == second[name]
            else if name in first then name in details && details[name] == first[name]
            else name !in details
  {
    var p := DETAIL_POINTERS;
    assert p[1..][0] == p[1] && p[1..][1..] == p[2..] && p[2..][0] == p[2] && p[2..][1..] == [];
    assert CostDetails(doc, []) == map[];
    assert CostDetails(doc, p[2..]) == Object(doc, p[2]) + map[];
    assert CostDetails(doc, p[1..]) == Object(doc, p[1]) + CostDetails(doc, p[2..]);
    assert CostDetails(doc, p) == Object(doc, p[0]) + CostDetails(doc, p[1..]);
  }

  /** Where the parts of a record come from: a JSON body goes before a header, and nothing comes from a failed read. */
  lemma RecordTells(cfg: RetryConfig, a: Attempt, n: nat, now: u128, o: HttpOutcome)
    requires Records(cfg, a, n, now, o)
    ensures match o
            case SendFailed(error) =>
              a.status.None? && a.requestId.None? && a.usage == NO_USAGE && a.reportedCost.None?
              && a.error == Some(error)
            case BodyFailed(status, headers, error) =>
              && a.status == Some(status) && a.requestId == headers.requestId && a.usage == NO_USAGE
              && a.reportedCost.None? && a.error == Some(error)
            case Replied(status, reason, headers, _, doc, _) =>
              && a.status == Some(status)
              && a.requestId == (if doc.Ok? && doc.value.id.Some? then doc.value.id else headers.requestId)
              && (doc.Ok? ==> && a.usage == ExtractUsage(doc.value.payload) && a.resolvedModel == doc.value.model
                              && a.serviceTier == doc.value.serviceTier)
              && (doc.Err? ==> a.usage == NO_USAGE && a.resolvedModel.None? && a.serviceTier.None?)
              && (status < 200 || status > 299 ==>
                    a.error == Some("provider returned HTTP " + StatusText(status, reason)))
  {
    hide CostIn, ExtractUsage, StatusText;
  }

  /** The delays start at the configured one, at least a millisecond, and grow to 1024 times that. */
  lemma FirstAndLongestDelay(cfg: RetryConfig)
    ensures cfg.retryBaseDelayMs > 0 ==>
              && RawDelay(cfg, 0) == cfg.retryBaseDelayMs
              && RawDelay(cfg, 10) == Min(1024 * cfg.retryBaseDelayMs, U64_MAX)
    ensures cfg.retryBaseDelayMs == 0 ==> RawDelay(cfg, 0) == 1 && RawDelay(cfg, 10) == 1024
  {
    assert Pow2(10) == 4 * Pow2(8) == 16 * Pow2(6) == 64 * Pow2(4) == 256 * Pow2(2) == 1024;
  }
}
