/** The Event-MCP dispatcher: an ordered chain of handlers that may replace or reject a payload. */
module EventDispatcher {
  import opened Common
  import opened Text
  import opened QualifiedTools

  datatype EventStage = ContextBeforeModel | ModelAfterResponse | RunBeforeOutput

  datatype FailurePolicy = Abort | Continue

  datatype HandlerConfig = HandlerConfig(id: string, target: string, timeoutMs: u64, onError: FailurePolicy)

  datatype Handler = Handler(
    id: string,
    server: string,
    tool: string,
    target: string,
    timeoutMs: u64,
    onError: FailurePolicy)

  datatype Value = Value(json: string)

  datatype EventAction = Pass | Replace | Reject

  datatype EventOutcome = EventOutcome(action: EventAction, payload: Option<Value>, reason: Option<string>)

  datatype EventError =
    | Configuration(nameError: NameError)
    | UnknownTarget(target: string)
    | InvalidPayload(reason: string)
    | PayloadTooLarge(actual: nat)
    | OutcomeTooLarge(actual: nat)
    | Timeout
    | Cancelled
    | Mcp
    | InvalidOutcome(reason: string)
    | Rejected(reason: string)

  // ----- compiling a chain

  function CompileHandler(config: HandlerConfig, available: set<string>): Result<Handler, EventError> {
    var target := Trim(config.target);
    match Parse(target)
    case Err(reason) => Err(Configuration(reason))
    case Ok(q) =>
      if target !in available then Err(UnknownTarget(target))
      else Ok(Handler(Trim(config.id), q.server, q.tool, target, config.timeoutMs, config.onError))
  }

  /** A compiled handler calls the discovered tool that its target names, and no other. */
  lemma CompiledTarget(config: HandlerConfig, available: set<string>)
    ensures var r := CompileHandler(config, available);
            r.Ok? ==>
              && r.value.target in available && r.value.target == Trim(config.target)
              && r.value.target == r.value.server + "." + r.value.tool
              && IsSegment(r.value.server) && IsSegment(r.value.tool)
              && r.value.onError == config.onError
  {
    var target := Trim(config.target);
    TrimIsTrimmed(config.target);
    TrimIsTrimmed(target);
    ParseIffTwoSegments(target);
  }

  // ----- the answer of one handler

  /** One item of an MCP result's content: its text, when it is a text item. */
  datatype ContentItem = TextItem(text: string) | OtherItem

  datatype CallResult = CallResult(isError: bool, structured: Option<Value>, content: Option<seq<ContentItem>>)

  /** What a call ends with; `size` is that of the result as JSON, unless it cannot be encoded. */
  datatype CallAnswer =
    | CallCancelled
    | CallTimedOut
    | CallFailed
    | Returned(size: Result<nat, string>, result: CallResult)

  /** The dispatch an invocation belongs to. */
  datatype Turn = Turn(event: EventStage, iteration: Option<u32>)

  const SPEC_VERSION: string := "1"

  datatype EventEnvelope = EventEnvelope(
    specVersion: string,
    eventId: string,
    event: EventStage,
    iteration: Option<u32>,
    payload: Value)

  function StageName(event: EventStage): string {
    match event
    case ContextBeforeModel => "context.before_model"
    case ModelAfterResponse => "model.after_response"
    case RunBeforeOutput => "run.before_output"
  }

  function EventId(event: EventStage, sequence: nat): string {
    StageName(event) + ":" + PrintNat(sequence)
  }

  function EnvelopeOf(t: Turn, sequence: nat, payload: Value): EventEnvelope {
    EventEnvelope(SPEC_VERSION, EventId(t.event, sequence), t.event, t.iteration, payload)
  }

  /** No two numbers give one stage the same event id. */
  lemma EventIdsDiffer(event: EventStage, m: nat, n: nat)
    requires EventId(event, m) == EventId(event, n)
    ensures m == n
  {
    PrintedDigits(m);
    PrintedDigits(n);
    var k := |StageName(event) + ":"|;
    assert EventId(event, m)[k..] == PrintNat(m) && EventId(event, n)[k..] == PrintNat(n);
  }

  /** The outside world, asked once per invocation; sizes are those of the encoded JSON. */
  datatype World = World(
    encode: EventEnvelope -> Result<nat, string>,
    rehydrate: EventEnvelope -> Option<string>,
    call: (Handler, EventEnvelope) -> CallAnswer,
    parseText: string -> Option<Value>,
    parseOutcome: Value -> Result<EventOutcome, string>,
    maxPayloadBytes: nat,
    maxOutcomeBytes: nat)

  function Texts(items: seq<ContentItem>): seq<string> {
    if items == [] then []
    else match items[0]
      case TextItem(t) => [t] + Texts(items[1..])
      case OtherItem => Texts(items[1..])
  }

  /** Structured content, or the one text item there must be. */
  function OutcomeValue(w: World, result: CallResult): Result<Value, string> {
    if result.structured.Some? then Ok(result.structured.value)
    else if result.content.None? then Err("expected structuredContent or one JSON text content item")
    else
      var texts := Texts(result.content.value);
      if texts == [] then Err("compatibility result has no text content")
      else if |texts| > 1 then Err("compatibility result must contain exactly one text item")
      else match w.parseText(texts[0])
        case None => Err("text content is not one JSON object")
        case Some(v) => Ok(v)
  }

  function ParseOutcome(w: World, result: CallResult): Result<EventOutcome, EventError> {
    if result.isError then Err(InvalidOutcome("MCP CallToolResult set isError=true"))
    else match OutcomeValue(w, result)
      case Err(reason) => Err(InvalidOutcome(reason))
      case Ok(v) =>
        match w.parseOutcome(v)
        case Err(reason) => Err(InvalidOutcome(reason))
        case Ok(outcome) => Ok(outcome)
  }

  /** A handler's outcome, and the sizes of what went to it and came back. */
  datatype Invocation = Invocation(outcome: EventOutcome, inputBytes: nat, outputBytes: nat)

  function EncodedSize(w: World, e: EventEnvelope): Result<nat, EventError> {
    match w.encode(e)
    case Err(reason) => Err(InvalidPayload("failed to encode event envelope: " + reason))
    case Ok(size) =>
      if size > w.maxPayloadBytes then Err(PayloadTooLarge(size))
      else match w.rehydrate(e)
        case Some(reason) => Err(InvalidPayload("failed to rehydrate event envelope: " + reason))
        case None => Ok(size)
  }

  function CallOutcome(w: World, h: Handler, e: EventEnvelope): Result<(EventOutcome, nat), EventError> {
    match w.call(h, e)
    case CallCancelled => Err(Cancelled)
    case CallTimedOut => Err(Timeout)
    case CallFailed => Err(Mcp)
    case Returned(size, result) =>
      match size
      case Err(reason) => Err(InvalidPayload("failed to measure MCP result: " + reason))
      case Ok(bytes) =>
        if bytes > w.maxOutcomeBytes then Err(OutcomeTooLarge(bytes))
        else match ParseOutcome(w, result)
          case Err(x) => Err(x)
          case Ok(outcome) => Ok((outcome, bytes))
  }

  function Invoke(w: World, t: Turn, h: Handler, eventId: nat, payload: Value): Result<Invocation, EventError> {
    var e := EnvelopeOf(t, eventId, payload);
    match EncodedSize(w, e)
    case Err(x) => Err(x)
    case Ok(input) =>
      match CallOutcome(w, h, e)
      case Err(x) => Err(x)
      case Ok((outcome, output)) => Ok(Invocation(outcome, input, output))
  }

  const REJECTED_BY_DEFAULT: string := "handler rejected the event"

  function ValidateOutcome(o: EventOutcome): Result<Option<Value>, EventError> {
    match o.action
    case Pass =>
      if o.payload.None? && o.reason.None? then Ok(None)
      else Err(InvalidOutcome("pass must not include payload or reason"))
    case Replace =>
      if o.reason.None? then
        if o.payload.Some? then Ok(o.payload) else Err(InvalidOutcome("replace requires payload"))
      else Err(InvalidOutcome("replace must include payload and must not include reason"))
    case Reject =>
      if o.payload.None? then
        Err(Rejected(if o.reason.Some? && Trim(o.reason.value) != "" then o.reason.value else REJECTED_BY_DEFAULT))
      else Err(InvalidOutcome("reject must not include payload"))
  }

  // ----- the chain as a fold

  /** What one handler does to the payload that flows through the chain. */
  datatype Effect = Keep | Swap(payload: Value) | Skip(e: EventError) | Stop(e: EventError)

  function EffectOf(w: World, t: Turn, h: Handler, eventId: nat, payload: Value): Effect {
    match Invoke(w, t, h, eventId, payload)
    case Err(e) => if e.Cancelled? || h.onError == Abort then Stop(e) else Skip(e)
    case Ok(i) =>
      match ValidateOutcome(i.outcome)
      case Ok(None) => Keep
      case Ok(Some(v)) => Swap(v)
      case Err(e) => if e.Rejected? || h.onError == Abort then Stop(e) else Skip(e)
  }

  function After(payload: Value, e: Effect): Value {
    match e
    case Swap(v) => v
    case _ => payload
  }

  /** The effects of the handlers that are invoked, with the event ids from `eventId` on. */
  function Effects(w: World, t: Turn, chain: seq<Handler>, eventId: nat, payload: Value): seq<Effect> {
    if chain == [] then []
    else
      var e := EffectOf(w, t, chain[0], eventId, payload);
      if e.Stop? then [e] else [e] + Effects(w, t, chain[1..], eventId + 1, After(payload, e))
  }

  /** The payload of the last handler that replaced it, else the one that came in. */
  function LastSwap(effects: seq<Effect>, payload: Value): Value {
    if effects == [] then payload
    else if effects[|effects| - 1].Swap? then effects[|effects| - 1].payload
    else LastSwap(effects[..|effects| - 1], payload)
  }

  function Verdict(effects: seq<Effect>, payload: Value): Result<Value, EventError> {
    if effects != [] && effects[|effects| - 1].Stop? then Err(effects[|effects| - 1].e)
    else Ok(LastSwap(effects, payload))
  }

  datatype Audit = Audit(
    event: EventStage,
    handler: string,
    target: string,
    ok: bool,
    action: Option<EventAction>,
    inputBytes: Option<nat>,
    outputBytes: Option<nat>,
    error: Option<EventError>)

  /** An invocation that gave no outcome: there is nothing but the error to record. */
  function FailedAudit(t: Turn, h: Handler, e: EventError): Audit {
    Audit(t.event, h.id, h.target, false, None, None, None, Some(e))
  }

  function OutcomeAudit(t: Turn, h: Handler, i: Invocation, error: Option<EventError>): Audit {
    Audit(t.event, h.id, h.target, error.None?, Some(i.outcome.action), Some(i.inputBytes), Some(i.outputBytes), error)
  }

  /** One audit record for an invocation; action and sizes are known once there is an outcome. */
  function AuditOf(w: World, t: Turn, h: Handler, eventId: nat, payload: Value): Audit {
    match Invoke(w, t, h, eventId, payload)
    case Err(e) => FailedAudit(t, h, e)
    case Ok(i) =>
      match ValidateOutcome(i.outcome)
      case Ok(_) => OutcomeAudit(t, h, i, None)
      case Err(e) => OutcomeAudit(t, h, i, Some(e))
  }

  function Audits(w: World, t: Turn, chain: seq<Handler>, eventId: nat, payload: Value): seq<Audit> {
    if chain == [] then []
    else
      var e := EffectOf(w, t, chain[0], eventId, payload);
      var a := AuditOf(w, t, chain[0], eventId, payload);
      if e.Stop? then [a] else [a] + Audits(w, t, chain[1..], eventId + 1, After(payload, e))
  }

  // ----- the dispatcher

  class EventMcpDispatcher {
    const w: World
    const chains: map<EventStage, seq<Handler>>
    const hasLogger: bool
    var nextEventId: nat
    var log: seq<Audit>

    constructor (w: World, chains: map<EventStage, seq<Handler>>, hasLogger: bool)
      ensures this.w == w && this.chains == chains && this.hasLogger == hasLogger
      ensures nextEventId == 1 && log == []
    {
      this.w, this.chains, this.hasLogger := w, chains, hasLogger;
      nextEventId, log := 1, [];
    }

    method InvokeHandler(t: Turn, h: Handler, payload: Value) returns (r: Result<Invocation, EventError>)
      modifies this`nextEventId
      ensures nextEventId == old(nextEventId) + 1
      ensures r == Invoke(w, t, h, old(nextEventId), payload)
    {
      var sequence := nextEventId;
      nextEventId := nextEventId + 1;
      var envelope := EventEnvelope(SPEC_VERSION, EventId(t.event, sequence), t.event, t.iteration, payload);
      var encoded := w.encode(envelope);
      if encoded.Err? {
        return Err(InvalidPayload("failed to encode event envelope: " + encoded.error));
      }
      var inputBytes := encoded.value;
      if inputBytes > w.maxPayloadBytes {
        return Err(PayloadTooLarge(inputBytes));
      }
      var failure := w.rehydrate(envelope);
      if failure.Some? {
        return Err(InvalidPayload("failed to rehydrate event envelope: " + failure.value));
      }
      var answer := w.call(h, envelope);
      match answer
      case CallCancelled => return Err(Cancelled);
      case CallTimedOut => return Err(Timeout);
      case CallFailed => return Err(Mcp);
      case Returned(size, result) =>
        if size.Err? {
          return Err(InvalidPayload("failed to measure MCP result: " + size.error));
        }
        if size.value > w.maxOutcomeBytes {
          return Err(OutcomeTooLarge(size.value));
        }
        var outcome := ParseOutcome(w, result);
        if outcome.Err? {
          return Err(outcome.error);
        }
        return Ok(Invocation(outcome.value, inputBytes, size.value));
    }

    method LogInvocation(a: Audit)
      modifies this`log
      ensures log == if hasLogger then old(log) + [a] else old(log)
    {
      if !hasLogger {
        return;
      }
      log := log + [a];
    }

    /** One turn of the chain: invoke, validate, write the audit record, apply the failure policy. */
    method RunHandler(t: Turn, h: Handler, payload: Value) returns (e: Effect)
      modifies this
      ensures e == EffectOf(w, t, h, old(nextEventId), payload)
      ensures nextEventId == old(nextEventId) + 1
      ensures log == if hasLogger then old(log) + [AuditOf(w, t, h, old(nextEventId), payload)] else old(log)
    {
      hide Invoke, ValidateOutcome;
      var invoked := InvokeHandler(t, h, payload);
      if invoked.Err? {
        LogInvocation(FailedAudit(t, h, invoked.error));
        return if invoked.error.Cancelled? || h.onError == Abort then Stop(invoked.error) else Skip(invoked.error);
      }
      var validated := ValidateOutcome(invoked.value.outcome);
      if validated.Err? {
        LogInvocation(OutcomeAudit(t, h, invoked.value, Some(validated.error)));
        return if validated.error.Rejected? || h.onError == Abort then Stop(validated.error) else Skip(validated.error);
      }
      LogInvocation(OutcomeAudit(t, h, invoked.value, None));
      match validated.value
      case Some(replacement) => return Swap(replacement);
      case None => return Keep;
    }

    /** Runs the chain of a stage; a stage without a chain leaves the payload alone. */
    method Dispatch(event: EventStage, payload: Value, iteration: Option<u32>) returns (r: Result<Value, EventError>)
      modifies this
      ensures var chain := if event in chains then chains[event] else [];
              var t := Turn(event, iteration);
              var effects := Effects(w, t, chain, old(nextEventId), payload);
              && r == Verdict(effects, payload)
              && nextEventId == old(nextEventId) + |effects|
              && log == old(log) + (if hasLogger then Audits(w, t, chain, old(nextEventId), payload) else [])
    {
      if event !in chains {
        assert log + [] == log;
        return Ok(payload);
      }
      r := RunChain(Turn(event, iteration), chains[event], payload);
    }

    method RunChain(t: Turn, chain: seq<Handler>, payload: Value) returns (r: Result<Value, EventError>)
      modifies this
      ensures var effects := Effects(w, t, chain, old(nextEventId), payload);
              && r == Verdict(effects, payload)
              && nextEventId == old(nextEventId) + |effects|
              && log == old(log) + (if hasLogger then Audits(w, t, chain, old(nextEventId), payload) else [])
    {
      hide EffectOf, AuditOf, Effects, Audits, Verdict;
      ghost var first := nextEventId;
      var current := payload;
      ghost var audits: seq<Audit> := [];
      ghost var effects: seq<Effect> := [];
      assert chain[0..] == chain && log + [] == log;
      VerdictNone(payload);
      assert effects + Effects(w, t, chain, first, payload) == Effects(w, t, chain, first, payload);
      assert audits + Audits(w, t, chain, first, payload) == Audits(w, t, chain, first, payload);
      for i := 0 to |chain|
        invariant nextEventId == first + i && |effects| == i
        invariant Effects(w, t, chain, first, payload) == effects + Effects(w, t, chain[i..], first + i, current)
        invariant Audits(w, t, chain, first, payload) == audits + Audits(w, t, chain[i..], first + i, current)
        invariant Verdict(effects, payload) == Ok(current)
        invariant log == if hasLogger then old(log) + audits else old(log)
      {
        assert chain[i..][0] == chain[i] && chain[i..][1..] == chain[i + 1..];
        StepEffects(w, t, chain[i..], first + i, current, effects, audits);
        ghost var a := AuditOf(w, t, chain[i], first + i, current);
        Assoc(old(log), audits, [a]);
        var e := RunHandler(t, chain[i], current);
        VerdictStep(effects, e, payload);
        audits, effects := audits + [a], effects + [e];
        match e {
          case Stop(error) => return Err(error);
          case Swap(replacement) => current := replacement;
          case _ =>
        }
      }
      assert effects + [] == effects && audits + [] == audits && old(log) + [] == old(log);
      NoEffects(w, t, chain[|chain|..], first + |chain|, current);
      return Ok(current);
    }
  }

  lemma VerdictNone(payload: Value)
    ensures Verdict([], payload) == Ok(payload)
  {
  }

  /** One more effect on a chain that has not been stopped. */
  lemma VerdictStep(effects: seq<Effect>, e: Effect, payload: Value)
    requires Verdict(effects, payload).Ok?
    ensures Verdict(effects + [e], payload) ==
            if e.Stop? then Err(e.e) else Ok(After(Verdict(effects, payload).value, e))
  {
    LastSwapStep(effects, e, payload);
  }

  lemma NoEffects(w: World, t: Turn, chain: seq<Handler>, id: nat, payload: Value)
    requires chain == []
    ensures Effects(w, t, chain, id, payload) == [] && Audits(w, t, chain, id, payload) == []
  {
  }

  lemma StepEffects(w: World, t: Turn, chain: seq<Handler>, id: nat, payload: Value,
                    effects: seq<Effect>, audits: seq<Audit>)
    requires chain != []
    ensures var e := EffectOf(w, t, chain[0], id, payload); var a := AuditOf(w, t, chain[0], id, payload);
            var rest := chain[1..]; var next := After(payload, e);
            && effects + Effects(w, t, chain, id, payload) ==
               (if e.Stop? then effects + [e] else (effects + [e]) + Effects(w, t, rest, id + 1, next))
            && audits + Audits(w, t, chain, id, payload) ==
               (if e.Stop? then audits + [a] else (audits + [a]) + Audits(w, t, rest, id + 1, next))
  {
    hide EffectOf, AuditOf;
    var e, a := EffectOf(w, t, chain[0], id, payload), AuditOf(w, t, chain[0], id, payload);
    Assoc(effects, [e], Effects(w, t, chain[1..], id + 1, After(payload, e)));
    Assoc(audits, [a], Audits(w, t, chain[1..], id + 1, After(payload, e)));
  }

  lemma LastSwapStep(effects: seq<Effect>, e: Effect, payload: Value)
    ensures LastSwap(effects + [e], payload) == After(LastSwap(effects, payload), e)
  {
    assert (effects + [e])[..|effects|] == effects;
  }

  // ----- what every dispatch guarantees

  /** Handlers run in order; only the last one invoked can have stopped the chain. */
  lemma {:induction false} OnlyLastStops(w: World, t: Turn, chain: seq<Handler>, id: nat, payload: Value)
    ensures var effects := Effects(w, t, chain, id, payload);
            && |effects| <= |chain| && |Audits(w, t, chain, id, payload)| == |effects|
            && (forall i :: 0 <= i < |effects| - 1 ==> !effects[i].Stop?)
            && (|effects| < |chain| ==> effects != [] && effects[|effects| - 1].Stop?)
  {
    hide EffectOf, AuditOf;
    if chain != [] {
      var e := EffectOf(w, t, chain[0], id, payload);
      OnlyLastStops(w, t, chain[1..], id + 1, After(payload, e));
    }
  }

  /** The payload that reaches position `i` of the chain. */
  function PayloadAt(w: World, t: Turn, chain: seq<Handler>, id: nat, payload: Value, i: nat): Value {
    LastSwap(Effects(w, t, chain, id, payload)[..Min(i, |Effects(w, t, chain, id, payload)|)], payload)
  }

  /** The i-th invoked handler got event id `id + i` and the last payload put in place before it. */
  lemma {:induction false} EffectAt(w: World, t: Turn, chain: seq<Handler>, id: nat, payload: Value, i: nat)
    requires i < |Effects(w, t, chain, id, payload)|
    ensures i < |chain|
    ensures Effects(w, t, chain, id, payload)[i] ==
            EffectOf(w, t, chain[i], id + i, PayloadAt(w, t, chain, id, payload, i))
    decreases i
  {
    hide EffectOf;
    var effects := Effects(w, t, chain, id, payload);
    var e := effects[0];
    if i == 0 {
      assert effects[..0] == [];
    } else {
      var rest := Effects(w, t, chain[1..], id + 1, After(payload, e));
      assert effects[1..] == rest;
      EffectAt(w, t, chain[1..], id + 1, After(payload, e), i - 1);
      assert effects[..i] == [e] + rest[..i - 1];
      LastSwapCons(e, rest[..i - 1], payload);
    }
  }

  /** The i-th audit record is that of the i-th handler, for the same event id and payload. */
  lemma {:induction false} AuditAt(w: World, t: Turn, chain: seq<Handler>, id: nat, payload: Value, i: nat)
    requires i < |Audits(w, t, chain, id, payload)|
    ensures i < |Effects(w, t, chain, id, payload)| && i < |chain|
    ensures Audits(w, t, chain, id, payload)[i] ==
            AuditOf(w, t, chain[i], id + i, PayloadAt(w, t, chain, id, payload, i))
    decreases i
  {
    hide EffectOf, AuditOf;
    OnlyLastStops(w, t, chain, id, payload);
    var effects := Effects(w, t, chain, id, payload);
    var e := effects[0];
    if i == 0 {
      assert effects[..0] == [];
    } else {
      var rest := Effects(w, t, chain[1..], id + 1, After(payload, e));
      assert effects[1..] == rest;
      AuditAt(w, t, chain[1..], id + 1, After(payload, e), i - 1);
      assert effects[..i] == [e] + rest[..i - 1];
      LastSwapCons(e, rest[..i - 1], payload);
    }
  }

  lemma {:induction false} LastSwapCons(e: Effect, effects: seq<Effect>, payload: Value)
    ensures LastSwap([e] + effects, payload) == LastSwap(effects, After(payload, e))
  {
    var all := [e] + effects;
    if effects == [] {
      assert all[..0] == [];
    } else {
      assert all[..|all| - 1] == [e] + effects[..|effects| - 1];
      LastSwapCons(e, effects[..|effects| - 1], payload);
    }
  }

  /** Given the handlers' answers, a chain followed by a chain is the one and then the other. */
  lemma {:induction false} ChainsCompose(w: World, t: Turn, a: seq<Handler>, b: seq<Handler>, id: nat, payload: Value)
    ensures var first := Effects(w, t, a, id, payload);
            var both := Effects(w, t, a + b, id, payload);
            match Verdict(first, payload)
            case Err(e) => both == first
            case Ok(v) =>
              var second := Effects(w, t, b, id + |a|, v);
              |first| == |a| && both == first + second && Verdict(both, payload) == Verdict(second, v)
  {
    hide EffectOf, Verdict, After, LastSwap;
    if a == [] {
      assert a + b == b;
      VerdictNone(payload);
      var none: seq<Effect> := [];
      assert none + Effects(w, t, b, id, payload) == Effects(w, t, b, id, payload);
    } else {
      assert (a + b)[1..] == a[1..] + b;
      var e := EffectOf(w, t, a[0], id, payload);
      var next := After(payload, e);
      VerdictNone(payload);
      VerdictStep([], e, payload);
      assert [] + [e] == [e];
      if !e.Stop? {
        ChainsCompose(w, t, a[1..], b, id + 1, next);
        var rest := Effects(w, t, a[1..], id + 1, next);
        VerdictCons(e, rest, payload);
        VerdictCons(e, Effects(w, t, a[1..] + b, id + 1, next), payload);
        if Verdict(rest, next).Ok? {
          Assoc([e], rest, Effects(w, t, b, id + |a|, Verdict(rest, next).value));
        }
      }
    }
  }

  /** The audit records compose in the same way. */
  lemma {:induction false} AuditsCompose(w: World, t: Turn, a: seq<Handler>, b: seq<Handler>, id: nat, payload: Value)
    ensures var first := Audits(w, t, a, id, payload);
            var both := Audits(w, t, a + b, id, payload);
            match Verdict(Effects(w, t, a, id, payload), payload)
            case Err(e) => both == first
            case Ok(v) => |first| == |a| && both == first + Audits(w, t, b, id + |a|, v)
  {
    hide EffectOf, AuditOf, Verdict, After, LastSwap;
    if a == [] {
      assert a + b == b;
      VerdictNone(payload);
      var none: seq<Audit> := [];
      assert none + Audits(w, t, b, id, payload) == Audits(w, t, b, id, payload);
    } else {
      assert (a + b)[1..] == a[1..] + b;
      var e, record := EffectOf(w, t, a[0], id, payload), AuditOf(w, t, a[0], id, payload);
      var next := After(payload, e);
      VerdictNone(payload);
      VerdictStep([], e, payload);
      assert [] + [e] == [e];
      if !e.Stop? {
        AuditsCompose(w, t, a[1..], b, id + 1, next);
        var rest := Effects(w, t, a[1..], id + 1, next);
        VerdictCons(e, rest, payload);
        if Verdict(rest, next).Ok? {
          Assoc([record], Audits(w, t, a[1..], id + 1, next), Audits(w, t, b, id + |a|, Verdict(rest, next).value));
        }
      }
    }
  }

  lemma VerdictCons(e: Effect, effects: seq<Effect>, payload: Value)
    requires !e.Stop?
    ensures Verdict([e] + effects, payload) == Verdict(effects, After(payload, e))
  {
    LastSwapCons(e, effects, payload);
  }

  lemma {:induction false} SkipOnlyWhenContinuing(w: World, t: Turn, chain: seq<Handler>, id: nat, payload: Value)
    requires forall i :: 0 <= i < |chain| ==> chain[i].onError == Continue
    ensures forall i :: 0 <= i < |Effects(w, t, chain, id, payload)| ==>
              var e := Effects(w, t, chain, id, payload)[i];
              e.Stop? ==> e.e.Rejected? || e.e.Cancelled?
  {
    if chain != [] {
      var e := EffectOf(w, t, chain[0], id, payload);
      assert chain[0].onError == Continue;
      SkipOnlyWhenContinuing(w, t, chain[1..], id + 1, After(payload, e));
    }
  }

  /** A chain whose handlers all continue on errors fails only by a rejection or a cancellation. */
  lemma ContinueChainFailsOnlyDeliberately(w: World, t: Turn, chain: seq<Handler>, id: nat, payload: Value)
    requires forall i :: 0 <= i < |chain| ==> chain[i].onError == Continue
    ensures var v := Verdict(Effects(w, t, chain, id, payload), payload);
            v.Err? ==> v.error.Rejected? || v.error.Cancelled?
  {
    hide EffectOf, Effects;
    SkipOnlyWhenContinuing(w, t, chain, id, payload);
  }
}
