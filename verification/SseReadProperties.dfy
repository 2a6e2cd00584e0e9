/** What every read of an SSE response guarantees, whatever the network does. */
module SseReadProperties {
  import opened Common
  import opened Text
  import opened Utf8
  import opened Utf8Stream
  import opened Sse
  import opened SseChunks
  import opened SseEvents
  import opened SseRoundTrip
  import opened SseRead

  /** A read from its first stream, as `ReadSseUntil` makes it. */
  function ReadFrom(net: Network, parse: ParseJson, target: Option<u64>, k: nat, remaining: nat,
                    log: seq<SseEvent>, ids: seq<Option<string>>): Outcome
  {
    Read(net, parse, target, k, net.streams(k).chunks, [], "", remaining, log, ids)
  }

  /** All events of stream `k`, if it is read to its end. */
  function StreamEvents(net: Network, k: nat): seq<SseEvent> {
    var fed := Feed([], "", net.streams(k).chunks);
    match Flush(fed.pending, fed.buffer)
    case Some(tail) => fed.events + tail
    case None => fed.events
  }

  /** All events of the first `n` streams. */
  function EventsOfStreams(net: Network, n: nat): seq<SseEvent> {
    if n == 0 then [] else EventsOfStreams(net, n - 1) + StreamEvents(net, n - 1)
  }

  // ----- one stream: what can happen before the next one is opened

  /** Either the read is over, or this stream held no answer and the next one continues it. */
  predicate OverOrContinues(net: Network, parse: ParseJson, target: Option<u64>, k: nat, remaining: nat,
                            log: seq<SseEvent>, ids: seq<Option<string>>, o: Outcome)
  {
    var events := StreamEvents(net, k);
    var resumeIds := ids + [LastId(log + events)];
    || Over(parse, target, log, events, ids, o)
    || (remaining > 0 && Scan(parse, target, events).Missing?
        && (Over(parse, target, log, events, resumeIds, o)
            || o == ReadFrom(net, parse, target, k + 1, remaining - 1, log + events, resumeIds)))
  }

  /** The read ended on this stream: with its first answer, or with all of it unanswered, or in an error. */
  predicate Over(parse: ParseJson, target: Option<u64>, log: seq<SseEvent>, events: seq<SseEvent>,
                 ids: seq<Option<string>>, o: Outcome)
  {
    && o.resumeIds == ids
    && match Scan(parse, target, events)
       case Answered(n, reply) => o.reply == Conclude(log + events, |log| + n, reply) || o.reply.Err?
       case Missing => o.reply == Ok((log + events, None)) || o.reply.Err?
  }

  lemma StreamStep(net: Network, parse: ParseJson, target: Option<u64>, k: nat, remaining: nat,
                   log: seq<SseEvent>, ids: seq<Option<string>>)
    ensures OverOrContinues(net, parse, target, k, remaining, log, ids,
                            ReadFrom(net, parse, target, k, remaining, log, ids))
  {
    var fed := Feed([], "", net.streams(k).chunks);
    hide Feed, Flush, Scan, LastId, ResumeOutcome, ExtractResult, Conclude;
    assert ReadFrom(net, parse, target, k, remaining, log, ids) ==
           Decide(net, parse, target, k, fed, remaining, log, ids);
    ScanIsFirst(parse, target, fed.events);
    EndStep(net, parse, target, k, fed.pending, fed.buffer, remaining, log + fed.events, ids);
    match Flush(fed.pending, fed.buffer) {
      case None =>
      case Some(tail) =>
        ScanConcat(parse, target, fed.events, tail);
        Assoc(log, fed.events, tail);
        match Scan(parse, target, fed.events) {
          case Answered(n, reply) => ConcludeOnPrefix(log + fed.events, tail, |log| + n, reply);
          case Missing =>
        }
    }
  }

  /** What can happen at the end of a stream once it is known that it held no answer so far. */
  lemma EndStep(net: Network, parse: ParseJson, target: Option<u64>, k: nat, pending: bytes, buffer: string,
                remaining: nat, log: seq<SseEvent>, ids: seq<Option<string>>)
    ensures Flush(pending, buffer).None? ==>
              AtEnd(net, parse, target, k, pending, buffer, remaining, log, ids)
              == Outcome(Err(OVERFLOW), ids)
    ensures Flush(pending, buffer).Some? ==>
            var o := AtEnd(net, parse, target, k, pending, buffer, remaining, log, ids);
            var tail := Flush(pending, buffer).value;
            var resumeIds := ids + [LastId(log + tail)];
            match Scan(parse, target, tail)
            case Answered(n, reply) => o == Outcome(Conclude(log + tail, |log| + n, reply), ids)
            case Missing =>
              || o == Outcome(Ok((log + tail, None)), ids)
              || (remaining > 0 && target.Some?
                  && (|| o == Outcome(Ok((log + tail, None)), resumeIds)
                      || (o.reply.Err? && o.resumeIds == resumeIds)
                      || o == ReadFrom(net, parse, target, k + 1, remaining - 1, log + tail, resumeIds)))
  {
    hide Flush, Scan, LastId, ResumeOutcome, Conclude;
  }

  // ----- all streams

  /** A read makes at most `remaining` resume requests, so `ReadSseUntil` reads at most four streams. */
  lemma {:induction false} ResumesAreBounded(net: Network, parse: ParseJson, target: Option<u64>, k: nat,
                                             remaining: nat, log: seq<SseEvent>, ids: seq<Option<string>>)
    ensures var o := ReadFrom(net, parse, target, k, remaining, log, ids);
            |o.resumeIds| <= |ids| + remaining && (target.None? ==> o.resumeIds == ids)
    decreases remaining
  {
    hide Scan, LastId, StreamEvents;
    StreamStep(net, parse, target, k, remaining, log, ids);
    if remaining > 0 {
      var events := StreamEvents(net, k);
      ResumesAreBounded(net, parse, target, k + 1, remaining - 1, log + events, ids + [LastId(log + events)]);
    }
    if target.None? {
      NoTargetNoResume(net, parse, k, remaining, log, ids);
    }
  }

  lemma NoTargetNoResume(net: Network, parse: ParseJson, k: nat, remaining: nat,
                         log: seq<SseEvent>, ids: seq<Option<string>>)
    ensures ReadFrom(net, parse, None, k, remaining, log, ids).resumeIds == ids
  {
    hide Feed, Flush, Scan, Conclude;
    var fed := Feed([], "", net.streams(k).chunks);
    assert ReadFrom(net, parse, None, k, remaining, log, ids) ==
           Decide(net, parse, None, k, fed, remaining, log, ids);
    EndStep(net, parse, None, k, fed.pending, fed.buffer, remaining, log + fed.events, ids);
  }

  // ----- the reply, told without the loop

  /** All events a read takes in as long as none answers, and the failure, if any, that ends it. */
  datatype Intake = Intake(events: seq<SseEvent>, end: Result<(), Error>)

  function Prefixed(events: seq<SseEvent>, later: Intake): Intake {
    Intake(events + later.events, later.end)
  }

  /** What the network alone lets a read take in, over all the streams it may open. */
  function Available(net: Network, resumable: bool, k: nat, remaining: nat): Intake
    decreases remaining, 2
  {
    var fed := Feed([], "", net.streams(k).chunks);
    Prefixed(fed.events, AvailableAfter(net, resumable, k, fed, remaining))
  }

  function AvailableAfter(net: Network, resumable: bool, k: nat, fed: Fed, remaining: nat): Intake
    decreases remaining, 1
  {
    var end := net.streams(k).end;
    if fed.overflow then Intake([], Err(OVERFLOW))
    else if end == TimedOut then Intake([], Err(Timeout))
    else if end == Broken && (remaining == 0 || !resumable) then Intake([], Err(Transport))
    else AvailableAtEnd(net, resumable, k, fed.pending, fed.buffer, remaining)
  }

  function AvailableAtEnd(net: Network, resumable: bool, k: nat, pending: bytes, buffer: string, remaining: nat)
    : Intake
    decreases remaining, 0
  {
    match Flush(pending, buffer)
    case None => Intake([], Err(OVERFLOW))
    case Some(tail) =>
      if remaining == 0 || !resumable then Intake(tail, Ok(()))
      else match ResumeOutcome(net.resumes(k))
        case Err(x) => Intake(tail, Err(x))
        case Ok(false) => Intake(tail, Ok(()))
        case Ok(true) => Prefixed(tail, Available(net, resumable, k + 1, remaining - 1))
  }

  /** The failures that are the network's own and no answer's. */
  ghost predicate NetworkFailure(x: Error) {
    || x == Timeout || x == Transport || x == Unauthorized || x == OVERFLOW
    || exists code: nat, reason: string :: x == ResumeFailure(code, reason)
  }

  lemma {:induction false} IntakeEndsInNetworkFailure(net: Network, resumable: bool, k: nat, remaining: nat)
    ensures var end := Available(net, resumable, k, remaining).end; end.Err? ==> NetworkFailure(end.error)
    decreases remaining, 1
  {
    hide Feed, AvailableAtEnd, NetworkFailure;
    var fed := Feed([], "", net.streams(k).chunks);
    FailuresWithoutAnswer();
    EndIsNetworkFailure(net, resumable, k, fed.pending, fed.buffer, remaining);
    assert AvailableAfter(net, resumable, k, fed, remaining).end == Available(net, resumable, k, remaining).end;
  }

  lemma {:induction false} EndIsNetworkFailure(net: Network, resumable: bool, k: nat, pending: bytes,
                                               buffer: string, remaining: nat)
    ensures var end := AvailableAtEnd(net, resumable, k, pending, buffer, remaining).end;
            end.Err? ==> NetworkFailure(end.error)
    decreases remaining, 0
  {
    hide Feed, Flush, ResumeOutcome, Available, NetworkFailure;
    FailuresWithoutAnswer();
    ResumeFailsForNetwork(net.resumes(k));
    if remaining > 0 {
      IntakeEndsInNetworkFailure(net, resumable, k + 1, remaining - 1);
    }
  }

  lemma ResumeFailsForNetwork(a: ResumeAnswer)
    ensures ResumeOutcome(a).Err? ==> NetworkFailure(ResumeOutcome(a).error)
  {
    hide ResumeFailure;
    if a.Status? {
      var failure := ResumeFailure(a.code, a.reason);
    }
  }

  lemma FailuresWithoutAnswer()
    ensures NetworkFailure(OVERFLOW) && NetworkFailure(Timeout) && NetworkFailure(Transport)
  {
  }

  /** The first answer among the events decides; only without one does the end of the intake. */
  function ReplyTo(parse: ParseJson, target: Option<u64>, log: seq<SseEvent>, all: Intake): Reply {
    match Scan(parse, target, all.events)
    case Answered(n, reply) => Conclude(log + all.events, |log| + n, reply)
    case Missing =>
      match all.end
      case Err(x) => Err(x)
      case Ok(_) => Ok((log + all.events, None))
  }

  lemma ReplyToPrefixed(parse: ParseJson, target: Option<u64>, log: seq<SseEvent>,
                        events: seq<SseEvent>, later: Intake)
    ensures ReplyTo(parse, target, log, Prefixed(events, later)) ==
            match Scan(parse, target, events)
            case Answered(n, reply) => Conclude(log + events, |log| + n, reply)
            case Missing => ReplyTo(parse, target, log + events, later)
  {
    hide Scan, Conclude;
    ScanConcat(parse, target, events, later.events);
    ScanIsFirst(parse, target, events);
    Assoc(log, events, later.events);
    match Scan(parse, target, events) {
      case Answered(n, reply) => ConcludeOnPrefix(log + events, later.events, |log| + n, reply);
      case Missing => assert |log + events| == |log| + |events|;
    }
  }

  lemma ReplyToNothing(parse: ParseJson, target: Option<u64>, log: seq<SseEvent>, end: Result<(), Error>)
    ensures ReplyTo(parse, target, log, Intake([], end)) ==
            match end case Err(x) => Err(x) case Ok(_) => Ok((log, None))
  {
    assert log + [] == log;
  }

  /** Streams, resumes and failures only decide what is available; the reply is a function of that. */
  lemma {:induction false} ReadIsReplyTo(net: Network, parse: ParseJson, target: Option<u64>, k: nat,
                                         remaining: nat, log: seq<SseEvent>, ids: seq<Option<string>>)
    ensures ReadFrom(net, parse, target, k, remaining, log, ids).reply ==
            ReplyTo(parse, target, log, Available(net, target.Some?, k, remaining))
    decreases remaining, 1
  {
    hide Feed, Flush, Scan, Conclude, ReplyTo, ResumeOutcome;
    var fed := Feed([], "", net.streams(k).chunks);
    var after := AvailableAfter(net, target.Some?, k, fed, remaining);
    assert ReadFrom(net, parse, target, k, remaining, log, ids) ==
           Decide(net, parse, target, k, fed, remaining, log, ids);
    assert Available(net, target.Some?, k, remaining) == Prefixed(fed.events, after);
    ReplyToPrefixed(parse, target, log, fed.events, after);
    ReplyToNothing(parse, target, log + fed.events, after.end);
    EndIsReplyTo(net, parse, target, k, fed.pending, fed.buffer, remaining, log + fed.events, ids);
  }

  lemma {:induction false} EndIsReplyTo(net: Network, parse: ParseJson, target: Option<u64>, k: nat,
                                        pending: bytes, buffer: string, remaining: nat,
                                        log: seq<SseEvent>, ids: seq<Option<string>>)
    ensures AtEnd(net, parse, target, k, pending, buffer, remaining, log, ids).reply ==
            ReplyTo(parse, target, log, AvailableAtEnd(net, target.Some?, k, pending, buffer, remaining))
    decreases remaining, 0
  {
    hide Feed, Flush, Scan, Conclude, ReplyTo, ResumeOutcome, LastId, Available;
    match Flush(pending, buffer) {
      case None => ReplyToNothing(parse, target, log, Err(OVERFLOW));
      case Some(tail) =>
        assert tail + [] == tail;
        var end: Result<(), Error> :=
          match ResumeOutcome(net.resumes(k)) case Err(x) => Err(x) case Ok(_) => Ok(());
        ReplyToPrefixed(parse, target, log, tail, Intake([], end));
        ReplyToNothing(parse, target, log + tail, end);
        ReplyToPrefixed(parse, target, log, tail, Intake([], Ok(())));
        ReplyToNothing(parse, target, log + tail, Ok(()));
        if remaining > 0 {
          var later := Available(net, target.Some?, k + 1, remaining - 1);
          ReplyToPrefixed(parse, target, log, tail, later);
          ReadIsReplyTo(net, parse, target, k + 1, remaining - 1, log + tail, ids + [LastId(log + tail)]);
        }
    }
  }

  /**
   * The reply is that of the first event, over all streams, whose JSON-RPC id matches: its
   * value, with the log ending at that event, or its error. Without such an event it is the
   * network's failure, or no value with all events in the log.
   */
  lemma FirstAnswerDecides(net: Network, parse: ParseJson, target: Option<u64>, k: nat,
                           remaining: nat, log: seq<SseEvent>, ids: seq<Option<string>>)
    ensures var reply := ReadFrom(net, parse, target, k, remaining, log, ids).reply;
            var all := Available(net, target.Some?, k, remaining);
            match Scan(parse, target, all.events)
            case Answered(n, Ok(v)) => n <= |all.events| && reply == Ok((log + all.events[..n], Some(v)))
            case Answered(_, Err(x)) => reply == Err(x)
            case Missing =>
              match all.end
              case Ok(_) => reply == Ok((log + all.events, None))
              case Err(x) => reply == Err(x) && NetworkFailure(x)
    ensures forall x ::
              ReadFrom(net, parse, target, k, remaining, log, ids).reply == Err(x) <==>
              || FirstAnswerFails(parse, target, Available(net, target.Some?, k, remaining).events, x)
              || (Scan(parse, target, Available(net, target.Some?, k, remaining).events).Missing?
                  && Available(net, target.Some?, k, remaining).end == Err(x))
  {
    hide Scan, Available, NetworkFailure;
    ReadIsReplyTo(net, parse, target, k, remaining, log, ids);
    IntakeEndsInNetworkFailure(net, target.Some?, k, remaining);
    var all := Available(net, target.Some?, k, remaining);
    ScanIsFirst(parse, target, all.events);
    match Scan(parse, target, all.events) {
      case Answered(n, _) => assert (log + all.events)[..|log| + n] == log + all.events[..n];
      case Missing =>
    }
  }

  predicate FirstAnswerFails(parse: ParseJson, target: Option<u64>, events: seq<SseEvent>, x: Error) {
    match Scan(parse, target, events)
    case Answered(_, Err(y)) => x == y
    case _ => false
  }

  /** Every resume request carries the latest event id seen over all streams read before it. */
  lemma {:induction false} ResumesCarryLatestId(net: Network, parse: ParseJson, target: Option<u64>, k: nat,
                                                remaining: nat, log: seq<SseEvent>, ids: seq<Option<string>>)
    requires log == EventsOfStreams(net, k) && |ids| == k
    ensures var o := ReadFrom(net, parse, target, k, remaining, log, ids);
            && ids <= o.resumeIds
            && (forall i :: k <= i < |o.resumeIds| ==> o.resumeIds[i] == LastId(EventsOfStreams(net, i + 1)))
            && (o.reply.Ok? ==> o.reply.value.0 <= EventsOfStreams(net, |o.resumeIds| + 1)
                                || o.reply.value.0 == EventsOfStreams(net, |o.resumeIds|))
    decreases remaining
  {
    hide Scan, LastId, StreamEvents, ExtractResult;
    StreamStep(net, parse, target, k, remaining, log, ids);
    var events := StreamEvents(net, k);
    var resumeIds := ids + [LastId(log + events)];
    assert EventsOfStreams(net, k + 1) == log + events;
    if remaining > 0 {
      ResumesCarryLatestId(net, parse, target, k + 1, remaining - 1, log + events, resumeIds);
    }
  }

  /** No read of a stream reports an expired session: only a POST can. */
  lemma {:induction false} ReadNeverExpires(net: Network, parse: ParseJson, target: Option<u64>, k: nat,
                                            remaining: nat, log: seq<SseEvent>, ids: seq<Option<string>>)
    ensures ReadFrom(net, parse, target, k, remaining, log, ids).reply != Err(SessionExpired)
    decreases remaining
  {
    var fed := Feed([], "", net.streams(k).chunks);
    hide Feed, Flush, Scan, LastId, ExtractResult, Answer;
    assert ReadFrom(net, parse, target, k, remaining, log, ids) ==
           Decide(net, parse, target, k, fed, remaining, log, ids);
    ScanNeverExpires(parse, target, fed.events);
    match Flush(fed.pending, fed.buffer) {
      case None =>
      case Some(tail) =>
        ScanNeverExpires(parse, target, tail);
        var log' := log + fed.events + tail;
        if remaining > 0 {
          ReadNeverExpires(net, parse, target, k + 1, remaining - 1, log', ids + [LastId(log')]);
        }
    }
    assert AtEnd(net, parse, target, k, fed.pending, fed.buffer, remaining, log + fed.events, ids).reply
           != Err(SessionExpired);
  }

  lemma ScanNeverExpires(parse: ParseJson, target: Option<u64>, events: seq<SseEvent>)
    ensures match Scan(parse, target, events)
            case Missing => true
            case Answered(_, reply) => reply != Err(SessionExpired)
  {
    hide Scan, Answer;
    ScanIsFirst(parse, target, events);
  }

  // ----- the cuts the network made do not matter

  /** Decoder and parser together, on a text cut anywhere, give the events of the whole text. */
  lemma {:induction false} FeedIsDrain(pending: bytes, buffer: string, chunks: seq<bytes>)
    requires !Feed(pending, buffer, chunks).overflow && FindEventBoundary(buffer).None?
    requires EventRegular(buffer + PushAll(pending, chunks).0)
    ensures var fed := Feed(pending, buffer, chunks); var d := Drain(buffer + PushAll(pending, chunks).0);
            fed == Fed(EventsOf(d.blocks), PushAll(pending, chunks).1, d.rest, false)
    decreases |chunks|
  {
    hide Find, Drain, EventRegular, Decoded, Unfinished, ByteLen, EventsOf, SameEvents;
    if chunks == [] {
      NoBlocksNoEvents();
      DrainStep(buffer);
      assert buffer + "" == buffer;
    } else {
      var text := Decoded(pending + chunks[0], false);
      var left := Unfinished(pending + chunks[0]);
      var later := PushAll(left, chunks[1..]).0;
      Assoc(buffer, text, later);
      EventsSplit(buffer + text, later);
      EventsUnfold(buffer + text, later);
      DrainedRestHasNoBoundary(buffer + text);
      var d := Drain(buffer + text);
      FeedIsDrain(left, d.rest, chunks[1..]);
    }
  }

  /** A well-formed text read without overflow: how it was cut is invisible when no events merge. */
  lemma FeedOfText(s: string, chunks: seq<bytes>)
    requires Flatten(chunks) == EncodeAll(s) && EventRegular(s)
    requires !Feed([], "", chunks).overflow
    ensures Feed([], "", chunks) == Fed(EventsOf(Drain(s).blocks), [], Drain(s).rest, false)
  {
    hide Find, Drain, EventRegular, Feed, EncodeAll, PushAll, StreamText;
    WellFormedStream(s, chunks);
    assert "" + s == s;
    EmptyDrain();
    FeedIsDrain([], "", chunks);
  }

  /** Two networks that deliver the same texts, cut differently, and end and resume the same way. */
  ghost predicate SameTexts(a: Network, b: Network, texts: nat -> string) {
    && a.resumes == b.resumes
    && forall k: nat ::
         && a.streams(k).end == b.streams(k).end
         && Flatten(a.streams(k).chunks) == EncodeAll(texts(k)) == Flatten(b.streams(k).chunks)
         && EventRegular(texts(k))
         && !Feed([], "", a.streams(k).chunks).overflow && !Feed([], "", b.streams(k).chunks).overflow
  }

  lemma {:induction false} CutsAreInvisible(a: Network, b: Network, texts: nat -> string, parse: ParseJson,
                                            target: Option<u64>, k: nat, remaining: nat,
                                            log: seq<SseEvent>, ids: seq<Option<string>>)
    requires SameTexts(a, b, texts)
    ensures ReadFrom(a, parse, target, k, remaining, log, ids) == ReadFrom(b, parse, target, k, remaining, log, ids)
    decreases remaining
  {
    hide Find, Drain, EventRegular, Feed, EncodeAll, Flush, Scan, ResumeOutcome, Flatten, LastId;
    FeedOfText(texts(k), a.streams(k).chunks);
    FeedOfText(texts(k), b.streams(k).chunks);
    var fed := Feed([], "", a.streams(k).chunks);
    if remaining > 0 && Flush(fed.pending, fed.buffer).Some? {
      var log' := log + fed.events + Flush(fed.pending, fed.buffer).value;
      CutsAreInvisible(a, b, texts, parse, target, k + 1, remaining - 1, log', ids + [LastId(log')]);
    }
    assert AtEnd(a, parse, target, k, fed.pending, fed.buffer, remaining, log + fed.events, ids) ==
           AtEnd(b, parse, target, k, fed.pending, fed.buffer, remaining, log + fed.events, ids);
    assert ReadFrom(a, parse, target, k, remaining, log, ids) ==
           Decide(a, parse, target, k, fed, remaining, log, ids);
    assert ReadFrom(b, parse, target, k, remaining, log, ids) ==
           Decide(b, parse, target, k, fed, remaining, log, ids);
  }

  // ----- events printed by a server

  /**
   * A server prints events, the network cuts the bytes anywhere: decoding, parsing and
   * flushing yield those events again, less one carriage return at the end of a line.
   */
  lemma PrintedStream(es: seq<SseEvent>, chunks: seq<bytes>)
    requires forall i :: 0 <= i < |es| ==> WellLined(es[i])
    requires Flatten(chunks) == EncodeAll(PrintAll(es))
    requires !Feed([], "", chunks).overflow
    ensures Feed([], "", chunks) == Fed(ChompAll(es), [], "", false)
    ensures Flush([], "") == Some([])
    ensures (forall i :: 0 <= i < |es| ==> Printable(es[i])) <==> Feed([], "", chunks).events == es
  {
    hide Find, Drain, Regular, EventRegular, Feed, EncodeAll, PrintAll, EventsOf, ChompAll, NoCrAtLineEnd, Flatten;
    ParsePrintedEvents(es);
    RegularIsEventRegular(PrintAll(es));
    FeedOfText(PrintAll(es), chunks);
    ChompAllUnchangedIff(es);
    TrimIsTrimmed("");
  }

  // ----- when no push overflows

  /** Text that fits the buffer as a whole never overflows it in pieces. */
  lemma {:induction false} SmallTextNeverOverflows(pending: bytes, buffer: string, chunks: seq<bytes>)
    requires ByteLen(buffer) + ByteLen(PushAll(pending, chunks).0) <= DEFAULT_MAX_BUFFER_BYTES
    ensures !Feed(pending, buffer, chunks).overflow
    decreases |chunks|
  {
    hide Find, Drain, Decoded, Unfinished, EncodeAll, EventsOf;
    if chunks != [] {
      var text := Decoded(pending + chunks[0], false);
      var left := Unfinished(pending + chunks[0]);
      var later := PushAll(left, chunks[1..]).0;
      EncodeAllConcat(text, later);
      EncodeAllConcat(buffer, text);
      var d := Drain(buffer + text);
      DrainedRestIsSuffix(buffer + text);
      var front: string :| buffer + text == front + d.rest;
      EncodeAllConcat(front, d.rest);
      SmallTextNeverOverflows(left, d.rest, chunks[1..]);
    }
  }

  /** A well-formed body overflows under no way of cutting it if and only if it has at most 1 MiB. */
  lemma NoCutOverflowsIffSmall(s: string)
    ensures |EncodeAll(s)| <= DEFAULT_MAX_BUFFER_BYTES <==>
            forall chunks: seq<bytes> :: Flatten(chunks) == EncodeAll(s) ==> !Feed([], "", chunks).overflow
  {
    hide EncodeAll, Feed, Flatten;
    if |EncodeAll(s)| <= DEFAULT_MAX_BUFFER_BYTES {
      forall chunks: seq<bytes> | Flatten(chunks) == EncodeAll(s)
        ensures !Feed([], "", chunks).overflow
      {
        SmallBodyNeverOverflows(s, chunks);
      }
    } else {
      WholeBodyOverflows(s);
    }
  }

  lemma WholeBodyOverflows(s: string)
    requires |EncodeAll(s)| > DEFAULT_MAX_BUFFER_BYTES
    ensures Flatten([EncodeAll(s)]) == EncodeAll(s) && Feed([], "", [EncodeAll(s)]).overflow
  {
    var body := EncodeAll(s);
    OneChunk(body);
    WellFormedStream(s, [body]);
    assert PushAll([], [body]).0 == Decoded([] + body, false) + PushAll(Unfinished([] + body), [body][1..]).0;
    hide EncodeAll, Decoded, Unfinished, Drain;
    assert [body][1..] == [];
    NothingAppended(Decoded([] + body, false));
  }

  lemma OneChunk(body: bytes)
    ensures Flatten([body]) == body
  {
    assert [body][1..] == [] && body + [] == body;
  }

  lemma SmallBodyNeverOverflows(s: string, chunks: seq<bytes>)
    requires Flatten(chunks) == EncodeAll(s) && |EncodeAll(s)| <= DEFAULT_MAX_BUFFER_BYTES
    ensures !Feed([], "", chunks).overflow
  {
    hide EncodeAll, PushAll, Feed, Flatten, StreamText;
    WellFormedStream(s, chunks);
    LossyRoundTrip("");
    NoBytes();
    SmallTextNeverOverflows([], "", chunks);
  }

  lemma NoBytes()
    ensures ByteLen("") == 0
  {
  }
}
