/**
 * Reading a JSON-RPC response from an SSE body: bytes are decoded and parsed as they arrive,
 * and a stream that ends without the response is resumed from the last event id.
 */
module SseRead {
  import opened Common
  import opened Text
  import opened Utf8
  import opened Utf8Stream
  import opened Sse

  // ----- JSON-RPC messages

  /** The `id` of a message, as far as the client distinguishes ids. */
  datatype JsonId = Number(n: int) | Text(s: string) | OtherId

  datatype Value = Null | Json(text: string)

  /** One JSON object, by the members the client looks at. */
  datatype Message = Message(id: Option<JsonId>, error: Option<string>, result: Option<Value>)

  /** `serde_json::from_str`: an object, or nothing when the text is not one. */
  type ParseJson = string -> Option<Message>

  datatype Error =
    | Timeout
    | Transport
    | Unauthorized
    | SessionExpired
    | OAuth
    | Protocol(error: string)

  const OVERFLOW: Error := Protocol("SSE buffer exceeded 1048576 bytes without an event boundary")

  const I64_LIMIT: int := 0x8000_0000_0000_0000

  /** `u64 as i64`. */
  function AsI64(t: u64): int {
    if t < I64_LIMIT then t else t - 2 * I64_LIMIT
  }

  predicate JsonRpcIdMatches(id: JsonId, target: u64) {
    match id
    case Number(n) => n == target || (-I64_LIMIT <= n < I64_LIMIT && n == AsI64(target))
    case Text(s) => ParseU64(s) == Some(target)
    case OtherId => false
  }

  /** Below 2^63 a number matches only the target; from there on one negative number does too. */
  lemma NumberMatchesIff(n: int, target: u64)
    ensures JsonRpcIdMatches(Number(n), target) <==>
            n == target || (target >= I64_LIMIT && n == target - 2 * I64_LIMIT)
  {
  }

  /** No message answers two requests: the ids that match it are one. */
  lemma MatchesOneTarget(id: JsonId, a: u64, b: u64)
    requires JsonRpcIdMatches(id, a) && JsonRpcIdMatches(id, b)
    ensures a == b
  {
    if id.Number? {
      NumberMatchesIff(id.n, a);
      NumberMatchesIff(id.n, b);
    }
  }

  function ExtractResult(target: u64, message: Message): Result<Value, Error> {
    if message.id.None? then Err(Protocol("JSON-RPC response missing id"))
    else if !JsonRpcIdMatches(message.id.value, target) then
      Err(Protocol("JSON-RPC response id mismatch (expected " + PrintNat(target) + ")"))
    else if message.error.Some? then Err(Protocol(message.error.value))
    else if message.result.Some? then Ok(message.result.value)
    else Ok(Null)
  }

  function ParseJsonData(parse: ParseJson, data: string): Option<Message> {
    var trimmed := Trim(data);
    if trimmed == "" then None else parse(trimmed)
  }

  /** The message of an event that answers request `target`. */
  function Answer(parse: ParseJson, target: Option<u64>, e: SseEvent): Option<Message> {
    if target.None? then None
    else match ParseJsonData(parse, e.data)
      case None => None
      case Some(message) =>
        if message.id.Some? && JsonRpcIdMatches(message.id.value, target.value) then Some(message) else None
  }

  /**
   * An event answers a request if and only if its data is an object whose id is the request's
   * number, or that number as text, or from 2^63 on the number less 2^64; and then it answers
   * no other request.
   */
  lemma AnswersIff(parse: ParseJson, target: u64, e: SseEvent)
    ensures Answer(parse, Some(target), e).Some? <==>
            && ParseJsonData(parse, e.data).Some?
            && var id := ParseJsonData(parse, e.data).value.id;
            && id.Some?
            && match id.value
               case Number(n) => n == target || (target >= I64_LIMIT && n == target - 2 * I64_LIMIT)
               case Text(s) => ParseU64(s) == Some(target)
               case OtherId => false
    ensures forall other: u64 :: Answer(parse, Some(target), e).Some? && Answer(parse, Some(other), e).Some? ==>
              other == target
  {
    hide ParseJsonData, JsonRpcIdMatches;
    if ParseJsonData(parse, e.data).Some? && ParseJsonData(parse, e.data).value.id.Some? {
      var id := ParseJsonData(parse, e.data).value.id.value;
      MatchesByKind(id, target);
      forall other: u64 | JsonRpcIdMatches(id, target) && JsonRpcIdMatches(id, other)
        ensures other == target
      {
        MatchesOneTarget(id, target, other);
      }
    }
  }

  lemma MatchesByKind(id: JsonId, target: u64)
    ensures JsonRpcIdMatches(id, target) <==>
            match id
            case Number(n) => n == target || (target >= I64_LIMIT && n == target - 2 * I64_LIMIT)
            case Text(s) => ParseU64(s) == Some(target)
            case OtherId => false
  {
    if id.Number? {
      NumberMatchesIff(id.n, target);
    }
  }

  /** `sse_event_result`: nothing for other events, else the result or the error it carries. */
  method SseEventResult(parse: ParseJson, target: Option<u64>, e: SseEvent)
    returns (r: Result<Option<Value>, Error>)
    ensures r == match Answer(parse, target, e)
                 case None => Ok(None)
                 case Some(m) => match ExtractResult(target.value, m) case Ok(v) => Ok(Some(v)) case Err(x) => Err(x)
  {
    if target.None? {
      return Ok(None);
    }
    var value := ParseJsonData(parse, e.data);
    if value.None? {
      return Ok(None);
    }
    if value.value.id.Some? {
      if JsonRpcIdMatches(value.value.id.value, target.value) {
        var result := ExtractResult(target.value, value.value);
        match result {
          case Ok(v) => return Ok(Some(v));
          case Err(x) => return Err(x);
        }
      }
    }
    return Ok(None);
  }

  // ----- the first answer among events

  /** How many events are ingested up to the first answer, and what that answer says. */
  datatype Scanned = Missing | Answered(count: nat, reply: Result<Value, Error>)

  function Scan(parse: ParseJson, target: Option<u64>, events: seq<SseEvent>): Scanned {
    if events == [] then Missing
    else match Answer(parse, target, events[0])
      case Some(m) => Answered(1, ExtractResult(target.value, m))
      case None =>
        match Scan(parse, target, events[1..])
        case Missing => Missing
        case Answered(n, reply) => Answered(n + 1, reply)
  }

  lemma {:induction false} ScanConcat(parse: ParseJson, target: Option<u64>, a: seq<SseEvent>, b: seq<SseEvent>)
    ensures Scan(parse, target, a + b) ==
            match Scan(parse, target, a)
            case Answered(n, reply) => Answered(n, reply)
            case Missing =>
              match Scan(parse, target, b)
              case Missing => Missing
              case Answered(n, reply) => Answered(|a| + n, reply)
  {
    hide Answer;
    if a == [] {
      assert a + b == b;
    } else {
      assert (a + b)[1..] == a[1..] + b;
      ScanConcat(parse, target, a[1..], b);
    }
  }

  /** The scan stops at the first answer. */
  lemma {:induction false} ScanIsFirst(parse: ParseJson, target: Option<u64>, events: seq<SseEvent>)
    ensures match Scan(parse, target, events)
            case Missing => forall i :: 0 <= i < |events| ==> Answer(parse, target, events[i]).None?
            case Answered(n, reply) =>
              && 1 <= n <= |events|
              && (forall i :: 0 <= i < n - 1 ==> Answer(parse, target, events[i]).None?)
              && Answer(parse, target, events[n - 1]).Some?
              && reply == ExtractResult(target.value, Answer(parse, target, events[n - 1]).value)
  {
    hide Answer, ExtractResult;
    if events != [] {
      ScanIsFirst(parse, target, events[1..]);
      assert forall i :: 1 <= i < |events| ==> events[i] == events[1..][i - 1];
    }
  }

  /** The id of the last event that has one. */
  function LastId(events: seq<SseEvent>): Option<string> {
    if events == [] then None
    else
      var e := events[|events| - 1];
      if e.id.Some? then e.id else LastId(events[..|events| - 1])
  }

  // ----- one stream

  datatype Ending = Closed | Broken | TimedOut

  /** What the network delivers on one stream, and how the stream ends. */
  datatype Stream = Stream(chunks: seq<bytes>, end: Ending)

  /** Decoder and parser after some chunks; `overflow` when a push was refused. */
  datatype Fed = Fed(events: seq<SseEvent>, pending: bytes, buffer: string, overflow: bool)

  function Feed(pending: bytes, buffer: string, chunks: seq<bytes>): Fed
    decreases |chunks|
  {
    if chunks == [] then Fed([], pending, buffer, false)
    else
      var text := Decoded(pending + chunks[0], false);
      var left := Unfinished(pending + chunks[0]);
      if ByteLen(buffer) + ByteLen(text) > DEFAULT_MAX_BUFFER_BYTES then Fed([], left, buffer, true)
      else
        var d := Drain(buffer + text);
        var later := Feed(left, d.rest, chunks[1..]);
        later.(events := EventsOf(d.blocks) + later.events)
  }

  function FinalEvents(buffer: string): seq<SseEvent> {
    match FinalEvent(buffer)
    case Some(e) => [e]
    case None => []
  }

  /** What flushing decoder and parser adds at the end of a stream; nothing when that push is refused. */
  function Flush(pending: bytes, buffer: string): Option<seq<SseEvent>> {
    if pending == [] then Some(FinalEvents(buffer))
    else if ByteLen(buffer) + ByteLen([REPLACEMENT]) > DEFAULT_MAX_BUFFER_BYTES then None
    else
      var d := Drain(buffer + [REPLACEMENT]);
      Some(EventsOf(d.blocks) + FinalEvents(d.rest))
  }

  // ----- resuming

  datatype ResumeAnswer = ResumeTimedOut | ResumeFailed | Status(code: nat, reason: string, insufficientScope: bool)

  function ResumeFailure(code: nat, reason: string): Error {
    Protocol("SSE resume GET failed: HTTP " + StatusText(code, reason))
  }

  /** `resume_sse_response`: reopened, not offered by the server, or an error. */
  function ResumeOutcome(a: ResumeAnswer): Result<bool, Error> {
    match a
    case ResumeTimedOut => Err(Timeout)
    case ResumeFailed => Err(Transport)
    case Status(code, reason, insufficientScope) =>
      if code == 401 || (code == 403 && insufficientScope) then Err(Unauthorized)
      else if code == 405 then Ok(false)
      else if !(200 <= code < 300) then Err(ResumeFailure(code, reason))
      else Ok(true)
  }

  /** Everything the network may do: the k-th stream, and the answer to the k-th resume request. */
  datatype Network = Network(streams: nat -> Stream, resumes: nat -> ResumeAnswer)

  type Reply = Result<(seq<SseEvent>, Option<Value>), Error>

  /** The outcome of a read, and the `Last-Event-ID` of every resume request it made. */
  datatype Outcome = Outcome(reply: Reply, resumeIds: seq<Option<string>>)

  /**
   * The whole read as a simple story: take all events of the stream; the first answer among
   * them decides; otherwise the way the stream ended decides, or the next stream does.
   */
  function Read(net: Network, parse: ParseJson, target: Option<u64>, k: nat, chunks: seq<bytes>,
                pending: bytes, buffer: string, remaining: nat,
                log: seq<SseEvent>, ids: seq<Option<string>>): Outcome
    decreases remaining
  {
    Decide(net, parse, target, k, Feed(pending, buffer, chunks), remaining, log, ids)
  }

  function Decide(net: Network, parse: ParseJson, target: Option<u64>, k: nat, fed: Fed, remaining: nat,
                  log: seq<SseEvent>, ids: seq<Option<string>>): Outcome
    decreases remaining, 1
  {
    match Scan(parse, target, fed.events)
    case Answered(n, reply) => Outcome(Conclude(log + fed.events, |log| + n, reply), ids)
    case Missing =>
      if fed.overflow then Outcome(Err(OVERFLOW), ids)
      else
        var end := net.streams(k).end;
        if end == TimedOut then Outcome(Err(Timeout), ids)
        else if end == Broken && (remaining == 0 || target.None?) then Outcome(Err(Transport), ids)
        else AtEnd(net, parse, target, k, fed.pending, fed.buffer, remaining, log + fed.events, ids)
  }

  /** The reply once the `count`-th event of the log answers. */
  function Conclude(log: seq<SseEvent>, count: nat, reply: Result<Value, Error>): Reply {
    match reply
    case Ok(v) => Ok((log[..Min(count, |log|)], Some(v)))
    case Err(x) => Err(x)
  }

  lemma ConcludeOnPrefix(log: seq<SseEvent>, more: seq<SseEvent>, count: nat, reply: Result<Value, Error>)
    requires count <= |log|
    ensures Conclude(log + more, count, reply) == Conclude(log, count, reply)
  {
    assert (log + more)[..count] == log[..count];
  }

  function AtEnd(net: Network, parse: ParseJson, target: Option<u64>, k: nat, pending: bytes, buffer: string,
                 remaining: nat, log: seq<SseEvent>, ids: seq<Option<string>>): Outcome
    decreases remaining, 0
  {
    match Flush(pending, buffer)
    case None => Outcome(Err(OVERFLOW), ids)
    case Some(tail) =>
      match Scan(parse, target, tail)
      case Answered(n, reply) => Outcome(Conclude(log + tail, |log| + n, reply), ids)
      case Missing =>
        if remaining == 0 || target.None? then Outcome(Ok((log + tail, None)), ids)
        else
          var ids' := ids + [LastId(log + tail)];
          match ResumeOutcome(net.resumes(k))
          case Err(x) => Outcome(Err(x), ids')
          case Ok(false) => Outcome(Ok((log + tail, None)), ids')
          case Ok(true) =>
            Read(net, parse, target, k + 1, net.streams(k + 1).chunks, [], "", remaining - 1, log + tail, ids')
  }

  // ----- the loop

  datatype ReadState = ReadState(events: seq<SseEvent>, lastEventId: Option<string>, result: Option<Value>)

  ghost predicate Consistent(state: ReadState) {
    state.lastEventId == LastId(state.events)
  }

  method IngestSseEvent(parse: ParseJson, target: Option<u64>, e: SseEvent, state: ReadState)
    returns (r: Result<ReadState, Error>)
    requires Consistent(state)
    ensures var events := state.events + [e];
            r == match Answer(parse, target, e)
                 case None => Ok(ReadState(events, LastId(events), state.result))
                 case Some(m) =>
                   match ExtractResult(target.value, m)
                   case Ok(v) => Ok(ReadState(events, LastId(events), Some(v)))
                   case Err(x) => Err(x)
  {
    hide Answer, ExtractResult;
    var next := state;
    if e.id.Some? {
      next := next.(lastEventId := e.id);
    }
    var value := SseEventResult(parse, target, e);
    match value {
      case Err(x) => return Err(x);
      case Ok(None) =>
      case Ok(Some(v)) => next := next.(result := Some(v));
    }
    ghost var events := state.events + [e];
    assert events[..|events| - 1] == state.events;
    return Ok(next.(events := state.events + [e]));
  }

  /** Ingests events in order and stops at the first that answers. */
  method IngestUntilAnswer(parse: ParseJson, target: Option<u64>, events: seq<SseEvent>, state: ReadState)
    returns (r: Result<ReadState, Error>)
    requires Consistent(state) && state.result.None?
    ensures var log := state.events + events;
            match Scan(parse, target, events)
            case Missing => r == Ok(ReadState(log, LastId(log), None))
            case Answered(n, Err(x)) => r == Err(x)
            case Answered(n, Ok(v)) =>
              && r.Ok? && |state.events| + n <= |log|
              && r.value.events == log[..|state.events| + n] && r.value.result == Some(v)
  {
    hide Answer, ExtractResult, LastId;
    var current := state;
    ScanIsFirst(parse, target, events);
    ScanNone(parse, target);
    assert state.events + events[..0] == state.events;
    for i := 0 to |events|
      invariant current == ReadState(state.events + events[..i], LastId(state.events + events[..i]), None)
      invariant Scan(parse, target, events[..i]).Missing?
    {
      assert events[..i + 1] == events[..i] + [events[i]];
      assert events == events[..i + 1] + events[i + 1..];
      ScanConcat(parse, target, events[..i], [events[i]]);
      ScanConcat(parse, target, events[..i + 1], events[i + 1..]);
      ScanOne(parse, target, events[i]);
      Assoc(state.events, events[..i], [events[i]]);
      var next := IngestSseEvent(parse, target, events[i], current);
      if next.Err? {
        return next;
      }
      current := next.value;
      if current.result.Some? {
        assert state.events + events[..i + 1] == (state.events + events)[..|state.events| + i + 1];
        return Ok(current);
      }
    }
    assert events[..|events|] == events;
    return Ok(current);
  }

  lemma ScanOne(parse: ParseJson, target: Option<u64>, e: SseEvent)
    ensures Scan(parse, target, [e]) ==
            match Answer(parse, target, e)
            case Some(m) => Answered(1, ExtractResult(target.value, m))
            case None => Missing
  {
    var events := [e];
    assert events[1..] == [];
  }

  /** `flush_sse_finish`: what decoder and parser still hold when a stream ends. */
  method FlushSseFinish(parser: SseParser, utf8: Utf8StreamDecoder, parse: ParseJson, target: Option<u64>,
                        state: ReadState)
    returns (r: Result<ReadState, Error>)
    requires parser.Valid() && utf8.Valid() && parser.maxBufferBytes == DEFAULT_MAX_BUFFER_BYTES
    requires Consistent(state) && state.result.None?
    modifies parser`buffer, utf8
    ensures parser.Valid() && utf8.Valid()
    ensures match Flush(old(utf8.pending), old(parser.buffer))
            case None => r == Err(OVERFLOW)
            case Some(tail) =>
              var log := state.events + tail;
              match Scan(parse, target, tail)
              case Missing => r == Ok(ReadState(log, LastId(log), None))
              case Answered(n, Err(x)) => r == Err(x)
              case Answered(n, Ok(v)) =>
                && r.Ok? && |state.events| + n <= |log|
                && r.value.events == log[..|state.events| + n] && r.value.result == Some(v)
  {
    hide Answer, ExtractResult, LastId, Drain, BlockEvent, FindEventBoundary, ByteLen, FinalEvent, Scan;
    var current := state;
    var trailing := utf8.Finish();
    ghost var pushed: seq<SseEvent> := [];
    if trailing != "" {
      var events := parser.Push(trailing);
      if events.Err? {
        return Err(OVERFLOW);
      }
      pushed := events.value;
      var next := IngestUntilAnswer(parse, target, events.value, current);
      if next.Err? || next.value.result.Some? {
        ghost var rest := FinalEvents(parser.buffer);
        ScanConcat(parse, target, pushed, rest);
        ScanIsFirst(parse, target, pushed);
        Assoc(state.events, pushed, rest);
        return next;
      }
      current := next.value;
    } else {
      ScanNone(parse, target);
      assert state.events + [] == state.events;
    }
    assert Scan(parse, target, pushed).Missing?;
    ghost var rest := FinalEvents(parser.buffer);
    ScanConcat(parse, target, pushed, rest);
    Assoc(state.events, pushed, rest);
    assert [] + rest == rest;
    var final := parser.Finish();
    match final
    case None =>
      assert pushed + [] == pushed;
      return Ok(current);
    case Some(e) =>
      ScanOne(parse, target, e);
      r := IngestSseEvent(parse, target, e, current);
      assert state.events + (pushed + [e]) == (state.events + (pushed + [e]))[..|state.events| + |pushed| + 1];
  }

  lemma ScanNone(parse: ParseJson, target: Option<u64>)
    ensures Scan(parse, target, []) == Missing
  {
  }

  /** One chunk: decoded, parsed, and its events ingested up to the first answer. */
  method TakeChunk(parser: SseParser, utf8: Utf8StreamDecoder, chunk: bytes, parse: ParseJson, target: Option<u64>,
                   state: ReadState)
    returns (r: Result<ReadState, Error>)
    requires parser.Valid() && utf8.Valid() && parser.maxBufferBytes == DEFAULT_MAX_BUFFER_BYTES
    requires Consistent(state) && state.result.None?
    modifies parser`buffer, utf8
    ensures parser.Valid() && utf8.Valid()
    ensures utf8.pending == Unfinished(old(utf8.pending) + chunk)
    ensures var text := Decoded(old(utf8.pending) + chunk, false);
            if ByteLen(old(parser.buffer)) + ByteLen(text) > DEFAULT_MAX_BUFFER_BYTES then r == Err(OVERFLOW)
            else
              var d := Drain(old(parser.buffer) + text);
              var events := EventsOf(d.blocks);
              var log := state.events + events;
              && parser.buffer == d.rest
              && match Scan(parse, target, events)
                 case Missing => r == Ok(ReadState(log, LastId(log), None))
                 case Answered(n, Err(x)) => r == Err(x)
                 case Answered(n, Ok(v)) =>
                   && r.Ok? && |state.events| + n <= |log|
                   && r.value.events == log[..|state.events| + n] && r.value.result == Some(v)
  {
    hide Answer, ExtractResult, Drain, BlockEvent, FindEventBoundary, ByteLen, FinalEvent, Scan, LastId, Decoded,
         Unfinished, FirstUnit, EventsOf;
    var text := utf8.Push(chunk);
    var events := parser.Push(text.value);
    if events.Err? {
      return Err(OVERFLOW);
    }
    r := IngestUntilAnswer(parse, target, events.value, state);
  }

  /** What the loop does after a stream ended: reply, or go on with the next stream. */
  datatype Next = Done(reply: Reply) | Resumed(state: ReadState)

  /** Flushes, and resumes when there is no answer yet and a resume is left. */
  method EndStream(net: Network, parse: ParseJson, target: Option<u64>, k: nat, remaining: nat,
                   parser: SseParser, utf8: Utf8StreamDecoder, state: ReadState, ids: seq<Option<string>>)
    returns (next: Next, ids': seq<Option<string>>)
    requires parser.Valid() && utf8.Valid() && parser.maxBufferBytes == DEFAULT_MAX_BUFFER_BYTES
    requires Consistent(state) && state.result.None?
    modifies parser`buffer, utf8
    ensures var story := AtEnd(net, parse, target, k, old(utf8.pending), old(parser.buffer), remaining,
                               state.events, ids);
            match next
            case Done(reply) => story == Outcome(reply, ids')
            case Resumed(s) =>
              && remaining > 0 && Consistent(s) && s.result.None?
              && story == Read(net, parse, target, k + 1, net.streams(k + 1).chunks, [], "", remaining - 1,
                               s.events, ids')
  {
    hide Answer, ExtractResult, Drain, BlockEvent, FindEventBoundary, ByteLen, FinalEvent, Scan, LastId, Decoded,
         Unfinished, FirstUnit, Flush, Feed, Decide, Read, EventsOf, ResumeOutcome;
    ids' := ids;
    var flushed := FlushSseFinish(parser, utf8, parse, target, state);
    if flushed.Err? {
      return Done(Err(flushed.error)), ids';
    }
    var state' := flushed.value;
    if state'.result.Some? || remaining == 0 || target.None? {
      return Done(Ok((state'.events, state'.result))), ids';
    }
    ids' := ids' + [state'.lastEventId];
    var resumed := ResumeOutcome(net.resumes(k));
    match resumed {
      case Err(x) => return Done(Err(x)), ids';
      case Ok(reopened) =>
        if !reopened {
          return Done(Ok((state'.events, state'.result))), ids';
        }
    }
    return Resumed(state'), ids';
  }

  /**
   * `read_sse_until`: one pass over whatever the network delivers, with a decoder and a
   * parser that are replaced at every resume. Its outcome is the simple story's.
   */
  method ReadSseUntil(net: Network, parse: ParseJson, target: Option<u64>, resumeOnDisconnect: bool)
    returns (r: Reply, ids: seq<Option<string>>)
    ensures Outcome(r, ids) ==
            Read(net, parse, target, 0, net.streams(0).chunks, [], "", if resumeOnDisconnect then 3 else 0, [], [])
  {
    hide Answer, ExtractResult, Drain, BlockEvent, FindEventBoundary, ByteLen, FinalEvent, Scan, LastId, Decoded,
         Unfinished, FirstUnit, Flush, Feed, Decide, Read, EventsOf, ResumeOutcome, AtEnd;
    var parser := new SseParser(DEFAULT_MAX_BUFFER_BYTES);
    var utf8 := new Utf8StreamDecoder();
    var state := ReadState([], None, None);
    NoLastId();
    var remaining: nat := if resumeOnDisconnect then 3 else 0;
    ids := [];
    var k, i: nat := 0, 0;
    var chunks := net.streams(0).chunks;
    ghost var whole := Read(net, parse, target, 0, chunks, [], "", remaining, [], []);
    assert chunks[0..] == chunks;
    while true
      invariant fresh(parser) && fresh(utf8)
      invariant parser.Valid() && utf8.Valid() && parser.maxBufferBytes == DEFAULT_MAX_BUFFER_BYTES
      invariant chunks == net.streams(k).chunks && i <= |chunks|
      invariant Consistent(state) && state.result.None?
      invariant whole == Read(net, parse, target, k, chunks[i..], utf8.pending, parser.buffer, remaining,
                              state.events, ids)
      decreases remaining, |chunks| - i
    {
      if i < |chunks| {
        ReadChunk(net, parse, target, k, chunks[i..], utf8.pending, parser.buffer, remaining, state.events, ids);
        assert chunks[i..][1..] == chunks[i + 1..] && chunks[i..][0] == chunks[i];
        var taken := TakeChunk(parser, utf8, chunks[i], parse, target, state);
        i := i + 1;
        if taken.Err? {
          return Err(taken.error), ids;
        }
        state := taken.value;
        if state.result.Some? {
          return Ok((state.events, state.result)), ids;
        }
        continue;
      }
      ReadEnd(net, parse, target, k, utf8.pending, parser.buffer, remaining, state.events, ids);
      var end := net.streams(k).end;
      if end == TimedOut {
        return Err(Timeout), ids;
      }
      if end == Broken && (remaining == 0 || target.None?) {
        return Err(Transport), ids;
      }
      var next: Next;
      next, ids := EndStream(net, parse, target, k, remaining, parser, utf8, state, ids);
      if next.Done? {
        return next.reply, ids;
      }
      state := next.state;
      remaining := remaining - 1;
      k, i := k + 1, 0;
      chunks := net.streams(k).chunks;
      assert chunks[0..] == chunks;
      parser := new SseParser(DEFAULT_MAX_BUFFER_BYTES);
      utf8 := new Utf8StreamDecoder();
    }
  }

  lemma NoLastId()
    ensures LastId([]) == None
  {
  }

  /** The simple story, told one chunk further. */
  lemma ReadChunk(net: Network, parse: ParseJson, target: Option<u64>, k: nat, chunks: seq<bytes>,
                  pending: bytes, buffer: string, remaining: nat, log: seq<SseEvent>, ids: seq<Option<string>>)
    requires chunks != []
    ensures var text := Decoded(pending + chunks[0], false);
            var story := Read(net, parse, target, k, chunks, pending, buffer, remaining, log, ids);
            && (ByteLen(buffer) + ByteLen(text) > DEFAULT_MAX_BUFFER_BYTES ==>
                  story == Outcome(Err(OVERFLOW), ids))
            && (ByteLen(buffer) + ByteLen(text) <= DEFAULT_MAX_BUFFER_BYTES ==>
                  var d := Drain(buffer + text);
                  story == AfterEvents(net, parse, target, k, EventsOf(d.blocks), chunks[1..],
                                       Unfinished(pending + chunks[0]), d.rest, remaining, log, ids))
  {
    hide Drain, ByteLen, Scan, Decoded, Unfinished, Decide, EventsOf, Conclude;
    var text := Decoded(pending + chunks[0], false);
    var left := Unfinished(pending + chunks[0]);
    if ByteLen(buffer) + ByteLen(text) > DEFAULT_MAX_BUFFER_BYTES {
      ScanNone(parse, target);
      DecideOverflow(net, parse, target, k, Fed([], left, buffer, true), remaining, log, ids);
    } else {
      var d := Drain(buffer + text);
      DecideLater(net, parse, target, k, EventsOf(d.blocks), Feed(left, d.rest, chunks[1..]), remaining, log, ids);
    }
  }

  function AfterEvents(net: Network, parse: ParseJson, target: Option<u64>, k: nat, events: seq<SseEvent>,
                       chunks: seq<bytes>, pending: bytes, buffer: string, remaining: nat,
                       log: seq<SseEvent>, ids: seq<Option<string>>): Outcome
  {
    match Scan(parse, target, events)
    case Answered(n, reply) => Outcome(Conclude(log + events, |log| + n, reply), ids)
    case Missing => Read(net, parse, target, k, chunks, pending, buffer, remaining, log + events, ids)
  }

  lemma DecideOverflow(net: Network, parse: ParseJson, target: Option<u64>, k: nat, fed: Fed, remaining: nat,
                       log: seq<SseEvent>, ids: seq<Option<string>>)
    requires fed.events == [] && fed.overflow
    ensures Decide(net, parse, target, k, fed, remaining, log, ids) ==
            Outcome(Err(OVERFLOW), ids)
  {
  }

  /** Events that do not answer only lengthen the log in front of what comes later. */
  lemma DecideLater(net: Network, parse: ParseJson, target: Option<u64>, k: nat, events: seq<SseEvent>, later: Fed,
                    remaining: nat, log: seq<SseEvent>, ids: seq<Option<string>>)
    ensures Decide(net, parse, target, k, later.(events := events + later.events), remaining, log, ids) ==
            match Scan(parse, target, events)
            case Answered(n, reply) => Outcome(Conclude(log + events, |log| + n, reply), ids)
            case Missing => Decide(net, parse, target, k, later, remaining, log + events, ids)
  {
    hide Scan, AtEnd;
    ScanConcat(parse, target, events, later.events);
    ScanIsFirst(parse, target, events);
    Assoc(log, events, later.events);
    match Scan(parse, target, events) {
      case Answered(n, reply) =>
        ConcludeOnPrefix(log + events, later.events, |log| + n, reply);
      case Missing =>
    }
  }

  lemma ReadEnd(net: Network, parse: ParseJson, target: Option<u64>, k: nat,
                pending: bytes, buffer: string, remaining: nat, log: seq<SseEvent>, ids: seq<Option<string>>)
    ensures var story := Read(net, parse, target, k, [], pending, buffer, remaining, log, ids);
            var end := net.streams(k).end;
            if end == TimedOut then story == Outcome(Err(Timeout), ids)
            else if end == Broken && (remaining == 0 || target.None?) then story == Outcome(Err(Transport), ids)
            else story == AtEnd(net, parse, target, k, pending, buffer, remaining, log, ids)
  {
    hide AtEnd;
    ScanNone(parse, target);
    assert log + [] == log;
  }
}
