/** A dispatch told by what its handlers return, without the effects it is computed with. */
module DispatchRuns {
  import opened Common
  import opened Text
  import opened QualifiedTools
  import opened EventDispatcher

  // ----- what a returned outcome asks for

  predicate Passes(o: EventOutcome) {
    o == EventOutcome(Pass, None, None)
  }

  predicate Replaces(o: EventOutcome, v: Value) {
    o == EventOutcome(Replace, Some(v), None)
  }

  predicate Rejects(o: EventOutcome) {
    o.action == Reject && o.payload.None?
  }

  /** Nothing that a handler may return: a part is missing, or one too many is there. */
  ghost predicate Malformed(o: EventOutcome) {
    !Passes(o) && !Rejects(o) && forall v :: !Replaces(o, v)
  }

  /** The reason of a rejection is the handler's own unless it gave none, or a blank one. */
  predicate RejectedFor(o: EventOutcome, reason: string) {
    if o.reason.None? || Blank(o.reason.value) then reason == "handler rejected the event"
    else o.reason == Some(reason)
  }

  function Complaint(o: EventOutcome): string {
    match o.action
    case Pass => "pass must not include payload or reason"
    case Replace =>
      if o.reason.Some? then "replace must include payload and must not include reason"
      else "replace requires payload"
    case Reject => "reject must not include payload"
  }

  /** What stops the chain: a cancellation, a rejection, or any failure of a handler that aborts. */
  ghost predicate Stops(w: World, t: Turn, h: Handler, id: nat, payload: Value, e: EventError) {
    match Invoke(w, t, h, id, payload)
    case Err(x) => e == x && (x == Cancelled || h.onError == Abort)
    case Ok(i) =>
      || (Rejects(i.outcome) && e.Rejected? && RejectedFor(i.outcome, e.reason))
      || (Malformed(i.outcome) && h.onError == Abort && e == InvalidOutcome(Complaint(i.outcome)))
  }

  predicate ReplacesWith(w: World, t: Turn, h: Handler, id: nat, payload: Value, v: Value) {
    var r := Invoke(w, t, h, id, payload);
    r.Ok? && Replaces(r.value.outcome, v)
  }

  lemma OutcomeMeans(o: EventOutcome)
    ensures ValidateOutcome(o) == Ok(None) <==> Passes(o)
    ensures forall v :: ValidateOutcome(o) == Ok(Some(v)) <==> Replaces(o, v)
    ensures forall e :: ValidateOutcome(o) == Err(e) <==>
                        || (Rejects(o) && e.Rejected? && RejectedFor(o, e.reason))
                        || (Malformed(o) && e == InvalidOutcome(Complaint(o)))
  {
    if o.reason.Some? {
      TrimmedAway(o.reason.value);
    }
    hide Trim, Blank;
    if o.action.Replace? && o.payload.Some? && o.reason.None? {
      assert Replaces(o, o.payload.value);
    }
  }

  /** The effect of a handler, read off what its invocation returned. */
  lemma EffectMeans(w: World, t: Turn, h: Handler, id: nat, payload: Value)
    ensures var effect := EffectOf(w, t, h, id, payload);
            && (forall e :: effect == Stop(e) <==> Stops(w, t, h, id, payload, e))
            && (forall v :: effect == Swap(v) <==> ReplacesWith(w, t, h, id, payload, v))
  {
    hide Invoke, ValidateOutcome, Passes, Replaces, Rejects, Malformed, RejectedFor, Complaint;
    var r := Invoke(w, t, h, id, payload);
    if r.Ok? {
      OutcomeMeans(r.value.outcome);
      NotBoth(r.value.outcome);
    }
  }

  lemma NotBoth(o: EventOutcome)
    ensures !(Rejects(o) && Malformed(o))
    ensures Rejects(o) <==> ValidateOutcome(o).Err? && ValidateOutcome(o).error.Rejected?
    ensures Malformed(o) <==> ValidateOutcome(o).Err? && ValidateOutcome(o).error.InvalidOutcome?
  {
    hide Trim;
    if o.payload.Some? {
      assert Replaces(o, o.payload.value) <==> o.action.Replace? && o.reason.None?;
    }
  }

  // ----- the run

  /** The payload that handler `i` is invoked with: the last one put in place before it. */
  function Incoming(w: World, t: Turn, chain: seq<Handler>, id: nat, payload: Value, i: nat): Value
    requires i <= |chain|
  {
    if i == 0 then payload
    else
      var before := Incoming(w, t, chain, id, payload, i - 1);
      match Invoke(w, t, chain[i - 1], id + (i - 1), before)
      case Err(_) => before
      case Ok(x) =>
        if x.outcome.action.Replace? && x.outcome.payload.Some? && x.outcome.reason.None? then x.outcome.payload.value
        else before
  }

  /** The handler at `i` replaces the payload it is invoked with by `v`. */
  predicate ReplacesAt(w: World, t: Turn, chain: seq<Handler>, id: nat, payload: Value, i: nat, v: Value) {
    i < |chain| && ReplacesWith(w, t, chain[i], id + i, Incoming(w, t, chain, id, payload, i), v)
  }

  ghost predicate StopsAt(w: World, t: Turn, chain: seq<Handler>, id: nat, payload: Value, i: nat, e: EventError) {
    i < |chain| && Stops(w, t, chain[i], id + i, Incoming(w, t, chain, id, payload, i), e)
  }

  ghost predicate GoesOn(w: World, t: Turn, chain: seq<Handler>, id: nat, payload: Value, i: nat) {
    forall e :: !StopsAt(w, t, chain, id, payload, i, e)
  }

  lemma {:induction false} IncomingIsLastSwap(w: World, t: Turn, chain: seq<Handler>, id: nat, payload: Value, i: nat)
    requires i <= |Effects(w, t, chain, id, payload)|
    ensures i <= |chain|
    ensures PayloadAt(w, t, chain, id, payload, i) == Incoming(w, t, chain, id, payload, i)
  {
    hide Effects, EffectOf, Invoke;
    OnlyLastStops(w, t, chain, id, payload);
    var effects := Effects(w, t, chain, id, payload);
    if i == 0 {
      assert effects[..0] == [];
    } else {
      IncomingIsLastSwap(w, t, chain, id, payload, i - 1);
      EffectAt(w, t, chain, id, payload, i - 1);
      var before := Incoming(w, t, chain, id, payload, i - 1);
      EffectMeans(w, t, chain[i - 1], id + (i - 1), before);
      assert effects[..i] == effects[..i - 1] + [effects[i - 1]];
      LastSwapStep(effects[..i - 1], effects[i - 1], payload);
      ReplacementComesNext(w, t, chain, id, payload, i - 1);
    }
  }

  lemma ReplacementComesNext(w: World, t: Turn, chain: seq<Handler>, id: nat, payload: Value, i: nat)
    requires i < |chain|
    ensures var before := Incoming(w, t, chain, id, payload, i); var next := Incoming(w, t, chain, id, payload, i + 1);
            && (forall v :: ReplacesAt(w, t, chain, id, payload, i, v) ==> next == v)
            && (KeepsAt(w, t, chain, id, payload, i) ==> next == before)
  {
    hide Invoke;
    var before := Incoming(w, t, chain, id, payload, i);
    var r := Invoke(w, t, chain[i], id + i, before);
    if r.Ok? && r.value.outcome.payload.Some? {
      assert ReplacesAt(w, t, chain, id, payload, i, r.value.outcome.payload.value) <==>
             r.value.outcome.action.Replace? && r.value.outcome.reason.None?;
    }
  }

  /** Which handlers are invoked: all up to the first that stops the chain. */
  lemma EffectStopsIff(w: World, t: Turn, chain: seq<Handler>, id: nat, payload: Value, i: nat)
    requires i < |Effects(w, t, chain, id, payload)|
    ensures i < |chain|
    ensures forall e :: Effects(w, t, chain, id, payload)[i] == Stop(e) <==> StopsAt(w, t, chain, id, payload, i, e)
  {
    hide Effects, EffectOf, Stops;
    IncomingIsLastSwap(w, t, chain, id, payload, i);
    EffectAt(w, t, chain, id, payload, i);
    EffectMeans(w, t, chain[i], id + i, Incoming(w, t, chain, id, payload, i));
  }

  /** Handler `i` is the first that stops the chain, with error `e`. */
  ghost predicate StopsFirst(w: World, t: Turn, chain: seq<Handler>, id: nat, payload: Value, i: nat, e: EventError) {
    && StopsAt(w, t, chain, id, payload, i, e)
    && forall j: nat :: j < i ==> GoesOn(w, t, chain, id, payload, j)
  }

  ghost predicate NoneStops(w: World, t: Turn, chain: seq<Handler>, id: nat, payload: Value) {
    forall i: nat :: i < |chain| ==> GoesOn(w, t, chain, id, payload, i)
  }

  lemma GoesOnBeforeTheLast(w: World, t: Turn, chain: seq<Handler>, id: nat, payload: Value, i: nat)
    requires i < |Effects(w, t, chain, id, payload)|
    ensures i < |chain| && (!Effects(w, t, chain, id, payload)[i].Stop? <==> GoesOn(w, t, chain, id, payload, i))
  {
    hide Effects, StopsAt;
    EffectStopsIff(w, t, chain, id, payload, i);
    var effect := Effects(w, t, chain, id, payload)[i];
    if effect.Stop? {
      assert StopsAt(w, t, chain, id, payload, i, effect.e);
    }
  }

  lemma OnlyOneStopsFirst(w: World, t: Turn, chain: seq<Handler>, id: nat, payload: Value, i: nat, e: EventError,
                          j: nat, x: EventError)
    requires StopsFirst(w, t, chain, id, payload, i, e) && StopsFirst(w, t, chain, id, payload, j, x)
    ensures i == j
  {
    hide StopsAt;
    var goOn := (GoesOn(w, t, chain, id, payload, i), GoesOn(w, t, chain, id, payload, j));
  }

  lemma StoppedRun(w: World, t: Turn, chain: seq<Handler>, id: nat, payload: Value)
    requires var effects := Effects(w, t, chain, id, payload); effects != [] && effects[|effects| - 1].Stop?
    ensures var effects := Effects(w, t, chain, id, payload);
            && StopsFirst(w, t, chain, id, payload, |effects| - 1, effects[|effects| - 1].e)
            && !NoneStops(w, t, chain, id, payload)
  {
    hide Effects, StopsAt, GoesOn, Incoming, Invoke;
    var effects := Effects(w, t, chain, id, payload);
    OnlyLastStops(w, t, chain, id, payload);
    EffectStopsIff(w, t, chain, id, payload, |effects| - 1);
    forall i: nat | i < |effects|
      ensures i < |chain| && (!effects[i].Stop? <==> GoesOn(w, t, chain, id, payload, i))
    {
      GoesOnBeforeTheLast(w, t, chain, id, payload, i);
    }
    assert !GoesOn(w, t, chain, id, payload, |effects| - 1);
  }

  lemma CompletedRun(w: World, t: Turn, chain: seq<Handler>, id: nat, payload: Value)
    requires var effects := Effects(w, t, chain, id, payload); effects == [] || !effects[|effects| - 1].Stop?
    ensures NoneStops(w, t, chain, id, payload) && |Effects(w, t, chain, id, payload)| == |chain|
    ensures LastSwap(Effects(w, t, chain, id, payload), payload) == Incoming(w, t, chain, id, payload, |chain|)
  {
    hide Effects, StopsAt, GoesOn, Incoming, Invoke, LastSwap;
    var effects := Effects(w, t, chain, id, payload);
    OnlyLastStops(w, t, chain, id, payload);
    forall i: nat | i < |chain|
      ensures GoesOn(w, t, chain, id, payload, i)
    {
      GoesOnBeforeTheLast(w, t, chain, id, payload, i);
    }
    IncomingIsLastSwap(w, t, chain, id, payload, |chain|);
    assert effects[..|effects|] == effects;
  }

  /**
   * A dispatch returns an error if and only if some handler stops the chain, and it is that of
   * the first that does, the last one invoked; otherwise every handler is invoked, and the
   * payload that they leave is returned.
   */
  lemma DispatchIff(w: World, t: Turn, chain: seq<Handler>, id: nat, payload: Value)
    ensures var effects := Effects(w, t, chain, id, payload);
            var verdict := Verdict(effects, payload);
            && (forall e :: verdict == Err(e) <==>
                  exists i: nat :: StopsFirst(w, t, chain, id, payload, i, e))
            && (forall i: nat, e :: StopsFirst(w, t, chain, id, payload, i, e) ==> |effects| == i + 1)
            && (forall v :: verdict == Ok(v) <==>
                  NoneStops(w, t, chain, id, payload) && v == Incoming(w, t, chain, id, payload, |chain|))
            && (NoneStops(w, t, chain, id, payload) ==> |effects| == |chain|)
  {
    hide Effects, StopsFirst, Incoming, NoneStops, LastSwap;
    var effects := Effects(w, t, chain, id, payload);
    if effects == [] || !effects[|effects| - 1].Stop? {
      CompletedRun(w, t, chain, id, payload);
      forall i: nat, e | StopsFirst(w, t, chain, id, payload, i, e)
        ensures false
      {
        FirstStopIsAStop(w, t, chain, id, payload, i, e);
      }
    } else {
      StoppedRun(w, t, chain, id, payload);
      var last, error := |effects| - 1, effects[|effects| - 1].e;
      assert StopsFirst(w, t, chain, id, payload, last, error);
      forall i: nat, e | StopsFirst(w, t, chain, id, payload, i, e)
        ensures i == last && e == error
      {
        OnlyOneStopsFirst(w, t, chain, id, payload, i, e, last, error);
        EffectStopsIff(w, t, chain, id, payload, i);
        StopsAtFirst(w, t, chain, id, payload, i, e);
      }
    }
  }

  lemma FirstStopIsAStop(w: World, t: Turn, chain: seq<Handler>, id: nat, payload: Value, i: nat, e: EventError)
    requires StopsFirst(w, t, chain, id, payload, i, e)
    ensures !NoneStops(w, t, chain, id, payload)
  {
    hide Incoming, Stops;
    assert i < |chain| && !GoesOn(w, t, chain, id, payload, i);
  }

  lemma StopsAtFirst(w: World, t: Turn, chain: seq<Handler>, id: nat, payload: Value, i: nat, e: EventError)
    requires StopsFirst(w, t, chain, id, payload, i, e)
    ensures StopsAt(w, t, chain, id, payload, i, e)
  {
  }

  ghost predicate KeepsAt(w: World, t: Turn, chain: seq<Handler>, id: nat, payload: Value, i: nat) {
    forall v :: !ReplacesAt(w, t, chain, id, payload, i, v)
  }

  /** What a handler replaced the payload by stays until a later handler replaces it. */
  lemma {:induction false} LastReplacementStays(w: World, t: Turn, chain: seq<Handler>, id: nat, payload: Value,
                                                i: nat, v: Value, n: nat)
    requires i < n <= |chain| && ReplacesAt(w, t, chain, id, payload, i, v)
    requires forall j: nat :: i < j < n ==> KeepsAt(w, t, chain, id, payload, j)
    ensures Incoming(w, t, chain, id, payload, n) == v
    decreases n
  {
    hide ReplacesAt, Incoming, KeepsAt, Invoke;
    ReplacementComesNext(w, t, chain, id, payload, n - 1);
    if n > i + 1 {
      LastReplacementStays(w, t, chain, id, payload, i, v, n - 1);
    }
  }

  /** As long as no handler replaces it, the payload is the one that came in. */
  lemma {:induction false} InputStays(w: World, t: Turn, chain: seq<Handler>, id: nat, payload: Value, n: nat)
    requires n <= |chain|
    requires forall j: nat :: j < n ==> KeepsAt(w, t, chain, id, payload, j)
    ensures Incoming(w, t, chain, id, payload, n) == payload
  {
    hide ReplacesAt, KeepsAt, Invoke;
    if n > 0 {
      hide Incoming;
      ReplacementComesNext(w, t, chain, id, payload, n - 1);
      InputStays(w, t, chain, id, payload, n - 1);
    }
  }

  // ----- one invocation

  /** The result carries this value: as structured content, or in its only text item. */
  ghost predicate Carries(w: World, result: CallResult, v: Value) {
    if result.structured.Some? then result.structured == Some(v)
    else result.content.Some? && exists i :: OnlyText(result.content.value, i)
                                             && w.parseText(result.content.value[i].text) == Some(v)
  }

  predicate OnlyText(items: seq<ContentItem>, i: int) {
    && 0 <= i < |items| && items[i].TextItem?
    && forall j :: 0 <= j < |items| && j != i ==> items[j].OtherItem?
  }

  lemma {:induction false} NoTexts(items: seq<ContentItem>)
    ensures Texts(items) == [] <==> forall j :: 0 <= j < |items| ==> items[j].OtherItem?
  {
    if items != [] {
      NoTexts(items[1..]);
      assert forall j :: 1 <= j < |items| ==> items[j] == items[1..][j - 1];
      assert forall j :: 0 <= j < |items| - 1 ==> items[1..][j] == items[j + 1];
    }
  }

  lemma {:induction false} OneText(items: seq<ContentItem>)
    ensures |Texts(items)| == 1 <==> exists i :: OnlyText(items, i)
    ensures forall i :: OnlyText(items, i) ==> Texts(items) == [items[i].text]
  {
    if items != [] {
      var rest := items[1..];
      NoTexts(rest);
      OneText(rest);
      assert forall j :: 1 <= j < |items| ==> items[j] == rest[j - 1];
      assert forall j :: 0 <= j < |rest| ==> rest[j] == items[j + 1];
      forall i
        ensures items[0].OtherItem? ==> (OnlyText(items, i) <==> OnlyText(rest, i - 1))
        ensures items[0].TextItem? ==> (OnlyText(items, i) <==> i == 0 && Texts(rest) == [])
      {
      }
      if i :| OnlyText(rest, i) {
        assert items[0].OtherItem? ==> OnlyText(items, i + 1);
      }
      assert items[0].TextItem? && Texts(rest) == [] ==> OnlyText(items, 0);
    }
  }

  lemma CarriedValue(w: World, result: CallResult)
    ensures forall v :: OutcomeValue(w, result) == Ok(v) <==> Carries(w, result, v)
  {
    hide Texts, OnlyText;
    if result.structured.None? && result.content.Some? {
      OneText(result.content.value);
    }
  }

  /**
   * An invocation yields an outcome if and only if the envelope encodes within its limit and
   * decodes, and the call returns a result within its limit that is no error and carries it.
   */
  lemma InvokeOkIff(w: World, t: Turn, h: Handler, id: nat, payload: Value, o: EventOutcome, input: nat, output: nat)
    ensures Invoke(w, t, h, id, payload) == Ok(Invocation(o, input, output)) <==>
            var e := EventEnvelope("1", EventId(t.event, id), t.event, t.iteration, payload);
            && w.encode(e) == Ok(input) && input <= w.maxPayloadBytes && w.rehydrate(e).None?
            && var answer := w.call(h, e);
            && answer.Returned? && answer.size == Ok(output) && output <= w.maxOutcomeBytes
            && !answer.result.isError
            && exists v :: Carries(w, answer.result, v) && w.parseOutcome(v) == Ok(o)
  {
    hide OutcomeValue, Carries, EventId;
    var e := EnvelopeOf(t, id, payload);
    if w.call(h, e).Returned? {
      var result := w.call(h, e).result;
      CarriedValue(w, result);
      if OutcomeValue(w, result).Ok? {
        assert Carries(w, result, OutcomeValue(w, result).value);
      }
    }
  }

  /** What an audit record says of an invocation: its handler, whether it went well, and if not, why. */
  lemma AuditMeans(w: World, t: Turn, h: Handler, id: nat, payload: Value)
    ensures var a := AuditOf(w, t, h, id, payload);
            && a.event == t.event && a.handler == h.id && a.target == h.target && (a.ok <==> a.error.None?)
            && match Invoke(w, t, h, id, payload)
               case Err(x) => a.error == Some(x) && a.action.None? && a.inputBytes.None? && a.outputBytes.None?
               case Ok(i) =>
                 && a.action == Some(i.outcome.action)
                 && a.inputBytes == Some(i.inputBytes) && a.outputBytes == Some(i.outputBytes)
                 && (Rejects(i.outcome) <==> a.error.Some? && a.error.value.Rejected?)
                 && (Malformed(i.outcome) <==> a.error == Some(InvalidOutcome(Complaint(i.outcome))))
                 && (Rejects(i.outcome) ==> RejectedFor(i.outcome, a.error.value.reason))
  {
    hide Invoke, ValidateOutcome, RejectedFor, Rejects, Malformed, Complaint;
    var r := Invoke(w, t, h, id, payload);
    if r.Ok? {
      OutcomeMeans(r.value.outcome);
      NotBoth(r.value.outcome);
    }
  }

  // ----- compiling

  /** A handler is compiled if and only if its target names two segments and was discovered. */
  lemma CompiledIff(config: HandlerConfig, available: set<string>)
    ensures var r := CompileHandler(config, available); var target := Trim(config.target);
            && (r.Ok? <==> Parse(target).Ok? && target in available)
            && (r == Err(UnknownTarget(target)) <==> Parse(target).Ok? && target !in available)
            && (forall e :: r == Err(Configuration(e)) <==> Parse(target) == Err(e))
            && (r.Ok? ==> r.value.id == Trim(config.id) && r.value.timeoutMs == config.timeoutMs)
  {
    hide Trim, Parse;
  }
}
