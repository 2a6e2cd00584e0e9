/** What a read returns, told by the messages in the events and by what the network delivers. */
module SseAnswers {
  import opened Common
  import opened Text
  import opened Utf8
  import opened Sse
  import opened SseChunks
  import opened SseEvents
  import opened SseRoundTrip
  import opened SseRead
  import opened SseReadProperties

  // ----- one message

  /** The ids that name request `target`. */
  predicate IdNames(id: JsonId, target: u64) {
    match id
    case Number(n) => n == target || (target >= I64_LIMIT && n == target - 2 * I64_LIMIT)
    case Text(s) => ParseU64(s) == Some(target)
    case OtherId => false
  }

  /** The message gives `v`: it carries no error, and `v` as its result, or no result at all. */
  predicate Gives(m: Message, v: Value) {
    m.error.None? && (m.result == Some(v) || (m.result.None? && v == Null))
  }

  lemma MessageMeans(target: u64, m: Message)
    ensures forall v :: ExtractResult(target, m) == Ok(v) <==>
                        m.id.Some? && IdNames(m.id.value, target) && Gives(m, v)
    ensures m.id.Some? && IdNames(m.id.value, target) ==>
              forall x :: ExtractResult(target, m) == Err(x) <==> m.error.Some? && x == Protocol(m.error.value)
  {
    hide ParseU64, PrintNat;
    if m.id.Some? {
      MatchesByKind(m.id.value, target);
    }
    hide JsonRpcIdMatches, IdNames;
  }

  /** The event's data is the object `m`, and `m` answers request `target`. */
  predicate Carries(parse: ParseJson, target: u64, e: SseEvent, m: Message) {
    && Trim(e.data) != "" && parse(Trim(e.data)) == Some(m)
    && m.id.Some? && IdNames(m.id.value, target)
  }

  lemma AnswerMeans(parse: ParseJson, target: u64, e: SseEvent)
    ensures forall m :: Answer(parse, Some(target), e) == Some(m) <==> Carries(parse, target, e, m)
  {
    hide Trim, ParseU64;
    var parsed := ParseJsonData(parse, e.data);
    if parsed.Some? && parsed.value.id.Some? {
      MatchesByKind(parsed.value.id.value, target);
    }
    hide JsonRpcIdMatches, IdNames;
  }

  ghost predicate CarriesNone(parse: ParseJson, target: u64, e: SseEvent) {
    forall m :: !Carries(parse, target, e, m)
  }

  /** The `n`-th event is the first that answers, with message `m`. */
  ghost predicate FirstAnswer(parse: ParseJson, target: u64, events: seq<SseEvent>, n: nat, m: Message) {
    && 1 <= n <= |events| && Carries(parse, target, events[n - 1], m)
    && forall i :: 0 <= i < n - 1 ==> CarriesNone(parse, target, events[i])
  }

  ghost predicate NoneAnswers(parse: ParseJson, target: u64, events: seq<SseEvent>) {
    forall i :: 0 <= i < |events| ==> CarriesNone(parse, target, events[i])
  }

  lemma CarriesNoneMeans(parse: ParseJson, target: u64, e: SseEvent)
    ensures CarriesNone(parse, target, e) <==> Answer(parse, Some(target), e).None?
  {
    hide Carries, Answer;
    AnswerMeans(parse, target, e);
    if Answer(parse, Some(target), e).Some? {
      assert Carries(parse, target, e, Answer(parse, Some(target), e).value);
    }
  }

  lemma ScanFinds(parse: ParseJson, target: u64, events: seq<SseEvent>, n: nat, m: Message)
    requires FirstAnswer(parse, target, events, n, m)
    ensures Scan(parse, Some(target), events) == Answered(n, ExtractResult(target, m))
  {
    hide Carries, Answer, Scan, ExtractResult, CarriesNone;
    ScanIsFirst(parse, Some(target), events);
    AnswerMeans(parse, target, events[n - 1]);
    forall i | 0 <= i < |events|
      ensures CarriesNone(parse, target, events[i]) <==> Answer(parse, Some(target), events[i]).None?
    {
      CarriesNoneMeans(parse, target, events[i]);
    }
  }

  lemma ScanMisses(parse: ParseJson, target: u64, events: seq<SseEvent>)
    requires NoneAnswers(parse, target, events)
    ensures Scan(parse, Some(target), events) == Missing
  {
    hide Answer, Scan, ExtractResult, CarriesNone;
    ScanIsFirst(parse, Some(target), events);
    forall i | 0 <= i < |events|
      ensures Answer(parse, Some(target), events[i]).None?
    {
      CarriesNoneMeans(parse, target, events[i]);
    }
  }

  // ----- the reply of a read

  /** The reply that message `m` makes of a read whose log ends with it. */
  predicate Replies(reply: Reply, log: seq<SseEvent>, m: Message) {
    match reply
    case Ok((events, v)) => events == log && v.Some? && Gives(m, v.value)
    case Err(x) => m.error.Some? && x == Protocol(m.error.value)
  }

  lemma ConcludedReply(target: u64, log: seq<SseEvent>, n: nat, m: Message)
    requires n <= |log| && m.id.Some? && IdNames(m.id.value, target)
    ensures Replies(Conclude(log, n, ExtractResult(target, m)), log[..n], m)
  {
    hide ExtractResult, IdNames, Gives;
    MessageMeans(target, m);
    match ExtractResult(target, m) {
      case Ok(v) => assert Gives(m, v);
      case Err(x) => assert m.error.Some?;
    }
  }

  lemma CarriedId(parse: ParseJson, target: u64, e: SseEvent, m: Message)
    requires Carries(parse, target, e, m)
    ensures m.id.Some? && IdNames(m.id.value, target)
  {
  }

  /**
   * Of all the events a read can take in, the first whose id matches makes the reply, out of
   * its message alone: the result it carries, or null when it has none, or its error.
   */
  lemma ReplyIsFirstAnswer(net: Network, parse: ParseJson, target: u64, k: nat, remaining: nat,
                           log: seq<SseEvent>, ids: seq<Option<string>>, n: nat, m: Message)
    requires FirstAnswer(parse, target, Available(net, true, k, remaining).events, n, m)
    ensures Replies(ReadFrom(net, parse, Some(target), k, remaining, log, ids).reply,
                    log + Available(net, true, k, remaining).events[..n], m)
  {
    hide Available, Scan, ExtractResult, Carries, CarriesNone, Replies, Conclude;
    var all := Available(net, true, k, remaining);
    ReadIsReplyTo(net, parse, Some(target), k, remaining, log, ids);
    ScanFinds(parse, target, all.events, n, m);
    CarriedId(parse, target, all.events[n - 1], m);
    ConcludedReply(target, log + all.events, |log| + n, m);
    assert (log + all.events)[..|log| + n] == log + all.events[..n];
  }

  lemma ReplyWithoutAnswer(net: Network, parse: ParseJson, target: u64, k: nat, remaining: nat,
                           log: seq<SseEvent>, ids: seq<Option<string>>)
    requires NoneAnswers(parse, target, Available(net, true, k, remaining).events)
    ensures ReadFrom(net, parse, Some(target), k, remaining, log, ids).reply ==
            match Available(net, true, k, remaining).end
            case Err(x) => Err(x)
            case Ok(_) => Ok((log + Available(net, true, k, remaining).events, None))
  {
    hide Available, Scan, NoneAnswers;
    ReadIsReplyTo(net, parse, Some(target), k, remaining, log, ids);
    ScanMisses(parse, target, Available(net, true, k, remaining).events);
  }

  // ----- what the network delivers

  /** The events of a text that a blank line ends. */
  function WholeEvents(s: string): seq<SseEvent> {
    EventsOf(Drain(s).blocks)
  }

  /** The event, if any, that the end of a stream completes. */
  function LastEvent(s: string): seq<SseEvent> {
    FinalEvents(Drain(s).rest)
  }

  /** Stream `k` brings the text `s`, cut anywhere, and no push is refused. */
  ghost predicate Brings(net: Network, k: nat, s: string) {
    && Flatten(net.streams(k).chunks) == EncodeAll(s) && EventRegular(s)
    && !Feed([], "", net.streams(k).chunks).overflow
  }

  /** Stream `k` closes or breaks off, and the server goes on with another one. */
  predicate IsResumed(net: Network, k: nat) {
    && (net.streams(k).end == Closed || net.streams(k).end == Broken)
    && net.resumes(k).Status? && 200 <= net.resumes(k).code < 300
  }

  /** The events of the first `j` texts, each read to its end. */
  function EventsBefore(texts: nat -> string, j: nat): seq<SseEvent> {
    if j == 0 then [] else EventsBefore(texts, j - 1) + (WholeEvents(texts(j - 1)) + LastEvent(texts(j - 1)))
  }

  /** The read gets to stream `j`: those before it are resumed. */
  ghost predicate GetsTo(net: Network, texts: nat -> string, j: nat) {
    && j <= 3
    && (forall i: nat :: i <= j ==> Brings(net, i, texts(i)))
    && forall i: nat :: i < j ==> IsResumed(net, i)
  }

  lemma FlushedText(rest: string)
    ensures Flush([], rest) == Some(FinalEvents(rest))
  {
  }

  /** One stream that is resumed only puts its events in front. */
  lemma ResumedStream(net: Network, k: nat, remaining: nat, s: string)
    requires Brings(net, k, s) && IsResumed(net, k) && remaining > 0
    ensures Available(net, true, k, remaining) ==
            Prefixed(WholeEvents(s) + LastEvent(s), Available(net, true, k + 1, remaining - 1))
  {
    hide Find, Drain, EventRegular, Feed, EncodeAll, Flush, Flatten, EventsOf, FinalEvents;
    FeedOfText(s, net.streams(k).chunks);
    FlushedText(Drain(s).rest);
    var fed := Feed([], "", net.streams(k).chunks);
    var later := Available(net, true, k + 1, remaining - 1);
    Assoc(WholeEvents(s), LastEvent(s), later.events);
    assert AvailableAtEnd(net, true, k, fed.pending, fed.buffer, remaining) == Prefixed(LastEvent(s), later);
  }

  lemma {:induction false} AvailableFrom(net: Network, texts: nat -> string, j: nat)
    requires GetsTo(net, texts, j)
    ensures Available(net, true, 0, 3) == Prefixed(EventsBefore(texts, j), Available(net, true, j, 3 - j))
  {
    hide Brings, IsResumed, Available, WholeEvents, LastEvent;
    if j == 0 {
      assert [] + Available(net, true, 0, 3).events == Available(net, true, 0, 3).events;
    } else {
      AvailableFrom(net, texts, j - 1);
      ResumedStream(net, j - 1, 4 - j, texts(j - 1));
      Assoc(EventsBefore(texts, j - 1), WholeEvents(texts(j - 1)) + LastEvent(texts(j - 1)),
            Available(net, true, j, 3 - j).events);
    }
  }

  /** The stream ends, and with it the read, before or after the event that its end completes. */
  datatype Halt = Halt(complete: bool, end: Result<(), Error>)

  /** How the last stream ends a read, by what the network does; nothing when it is resumed. */
  function HaltOf(net: Network, k: nat, last: bool): Option<Halt> {
    match net.streams(k).end
    case TimedOut => Some(Halt(false, Err(Timeout)))
    case Broken => if last then Some(Halt(false, Err(Transport))) else AnswerOf(net.resumes(k))
    case Closed => if last then Some(Halt(true, Ok(()))) else AnswerOf(net.resumes(k))
  }

  function AnswerOf(a: ResumeAnswer): Option<Halt> {
    match a
    case ResumeTimedOut => Some(Halt(true, Err(Timeout)))
    case ResumeFailed => Some(Halt(true, Err(Transport)))
    case Status(code, reason, scope) =>
      if 200 <= code < 300 then None
      else if code == 405 then Some(Halt(true, Ok(())))
      else if code == 401 || (code == 403 && scope) then Some(Halt(true, Err(Unauthorized)))
      else Some(Halt(true, Err(Protocol("SSE resume GET failed: HTTP " + (PrintNat(code) + " " + reason)))))
  }

  lemma LastStream(net: Network, k: nat, remaining: nat, s: string)
    requires Brings(net, k, s)
    ensures match HaltOf(net, k, remaining == 0)
            case None => IsResumed(net, k) && remaining > 0
            case Some(halt) =>
              Available(net, true, k, remaining) ==
              Intake(WholeEvents(s) + (if halt.complete then LastEvent(s) else []), halt.end)
  {
    hide Find, Drain, EventRegular, Feed, EncodeAll, Flush, Flatten, EventsOf, FinalEvents, PrintNat;
    FeedOfText(s, net.streams(k).chunks);
    FlushedText(Drain(s).rest);
    var fed := Feed([], "", net.streams(k).chunks);
    var after := AvailableAfter(net, true, k, fed, remaining);
    var tail := LastEvent(s);
    assert Available(net, true, k, remaining) == Prefixed(WholeEvents(s), after);
    if HaltOf(net, k, remaining == 0).Some? {
      var halt := HaltOf(net, k, remaining == 0).value;
      if halt.complete {
        assert AvailableAtEnd(net, true, k, [], Drain(s).rest, remaining) == Intake(tail, halt.end);
      }
      assert after == Intake(if halt.complete then tail else [], halt.end);
    }
  }

  // ----- the read, told by the texts

  /** The same for the `n`-th of these events. */
  predicate RepliesAt(reply: Reply, events: seq<SseEvent>, n: nat, m: Message) {
    n <= |events| && Replies(reply, events[..n], m)
  }

  lemma LaterEventsDoNotMatter(parse: ParseJson, target: u64, a: seq<SseEvent>, b: seq<SseEvent>, n: nat, m: Message)
    requires FirstAnswer(parse, target, a, n, m)
    ensures FirstAnswer(parse, target, a + b, n, m) && n <= |a| && (a + b)[..n] == a[..n]
  {
    hide Carries, CarriesNone;
    assert forall i :: 0 <= i < n ==> (a + b)[i] == a[i];
  }

  /** The events seen for certain once stream `j` is read: all before it, and its complete ones. */
  function Seen(texts: nat -> string, j: nat): seq<SseEvent> {
    EventsBefore(texts, j) + WholeEvents(texts(j))
  }

  lemma SeenIsAvailable(net: Network, texts: nat -> string, j: nat) returns (more: seq<SseEvent>)
    requires GetsTo(net, texts, j)
    ensures Available(net, true, 0, 3).events == Seen(texts, j) + more
    ensures HaltOf(net, j, j == 3).Some? ==>
              var halt := HaltOf(net, j, j == 3).value;
              && more == (if halt.complete then LastEvent(texts(j)) else [])
              && Available(net, true, 0, 3).end == halt.end
  {
    hide Available, HaltOf, WholeEvents, LastEvent, Brings, IsResumed, EventsBefore;
    var s := texts(j);
    AvailableFrom(net, texts, j);
    LastStream(net, j, 3 - j, s);
    match HaltOf(net, j, j == 3) {
      case None =>
        ResumedStream(net, j, 3 - j, s);
        var later := Available(net, true, j + 1, 2 - j);
        more := LastEvent(s) + later.events;
        Assoc(WholeEvents(s), LastEvent(s), later.events);
      case Some(halt) =>
        more := if halt.complete then LastEvent(s) else [];
    }
    Assoc(EventsBefore(texts, j), WholeEvents(s), more);
  }

  /**
   * A read that gets to stream `j`. An answer among the events seen by then is returned, with
   * the events up to it, however that stream goes on. If the stream ends the read, the event
   * that its end completes is looked at as well; and without any answer the way it ended is
   * what is returned: a timeout, a failure, or all events and no value.
   */
  lemma ReadIsTold(net: Network, parse: ParseJson, target: u64, texts: nat -> string, j: nat)
    requires GetsTo(net, texts, j)
    ensures forall n: nat, m :: FirstAnswer(parse, target, Seen(texts, j), n, m) ==>
              RepliesAt(ReadFrom(net, parse, Some(target), 0, 3, [], []).reply, Seen(texts, j), n, m)
    ensures HaltOf(net, j, j == 3).Some? ==>
              var halt := HaltOf(net, j, j == 3).value;
              var all := Seen(texts, j) + (if halt.complete then LastEvent(texts(j)) else []);
              var reply := ReadFrom(net, parse, Some(target), 0, 3, [], []).reply;
              && (forall n: nat, m :: FirstAnswer(parse, target, all, n, m) ==> RepliesAt(reply, all, n, m))
              && (NoneAnswers(parse, target, all) ==>
                    reply == match halt.end case Ok(_) => Ok((all, None)) case Err(x) => Err(x))
  {
    hide Available, HaltOf, LastEvent, Brings, IsResumed, Seen, RepliesAt, FirstAnswer, NoneAnswers, ReadFrom, GetsTo;
    var more := SeenIsAvailable(net, texts, j);
    var seen := Seen(texts, j);
    var all := seen + more;
    forall n: nat, m | FirstAnswer(parse, target, all, n, m)
      ensures RepliesAt(ReadFrom(net, parse, Some(target), 0, 3, [], []).reply, all, n, m)
    {
      AnswerAtHand(net, parse, target, n, m);
    }
    forall n: nat, m | FirstAnswer(parse, target, seen, n, m)
      ensures RepliesAt(ReadFrom(net, parse, Some(target), 0, 3, [], []).reply, seen, n, m)
    {
      LaterEventsDoNotMatter(parse, target, seen, more, n, m);
      AnswerAtHand(net, parse, target, n, m);
      OnlyThePart(ReadFrom(net, parse, Some(target), 0, 3, [], []).reply, seen, more, n, m);
    }
    if NoneAnswers(parse, target, all) {
      ReplyWithoutAnswer(net, parse, target, 0, 3, [], []);
      assert [] + all == all;
    }
  }

  lemma OnlyThePart(reply: Reply, a: seq<SseEvent>, b: seq<SseEvent>, n: nat, m: Message)
    requires n <= |a|
    ensures RepliesAt(reply, a + b, n, m) <==> RepliesAt(reply, a, n, m)
  {
    assert (a + b)[..n] == a[..n];
  }

  lemma AnswerAtHand(net: Network, parse: ParseJson, target: u64, n: nat, m: Message)
    requires FirstAnswer(parse, target, Available(net, true, 0, 3).events, n, m)
    ensures RepliesAt(ReadFrom(net, parse, Some(target), 0, 3, [], []).reply, Available(net, true, 0, 3).events, n, m)
  {
    hide Available, Replies, ReadFrom, Carries, CarriesNone;
    ReplyIsFirstAnswer(net, parse, target, 0, 3, [], [], n, m);
    var events := Available(net, true, 0, 3).events;
    assert [] + events[..n] == events[..n];
  }

  // ----- events printed by a server

  /** Stream `k` brings the print of these events, cut anywhere. */
  ghost predicate BringsPrint(net: Network, k: nat, es: seq<SseEvent>) {
    && (forall i :: 0 <= i < |es| ==> Printable(es[i]))
    && Flatten(net.streams(k).chunks) == EncodeAll(PrintAll(es))
    && !Feed([], "", net.streams(k).chunks).overflow
  }

  /** The events on the first `j` streams. */
  function Sent(ess: nat -> seq<SseEvent>, j: nat): seq<SseEvent> {
    if j == 0 then [] else Sent(ess, j - 1) + ess(j - 1)
  }

  lemma PrintedText(net: Network, k: nat, es: seq<SseEvent>)
    requires BringsPrint(net, k, es)
    ensures Brings(net, k, PrintAll(es))
    ensures WholeEvents(PrintAll(es)) == es && LastEvent(PrintAll(es)) == []
  {
    hide Find, Drain, Regular, EventRegular, Feed, EncodeAll, PrintAll, EventsOf, ChompAll, NoCrAtLineEnd, Flatten;
    ParsePrintedEvents(es);
    RegularIsEventRegular(PrintAll(es));
    ChompAllUnchangedIff(es);
    TrimIsTrimmed("");
  }

  lemma {:induction false} SentIsSeen(net: Network, texts: nat -> string, ess: nat -> seq<SseEvent>, j: nat)
    requires forall i: nat :: i < j ==> BringsPrint(net, i, ess(i))
    requires forall i: nat :: i < j ==> texts(i) == PrintAll(ess(i))
    ensures EventsBefore(texts, j) == Sent(ess, j)
  {
    hide BringsPrint, Brings, WholeEvents, LastEvent, PrintAll;
    if j > 0 {
      SentIsSeen(net, texts, ess, j - 1);
      PrintedText(net, j - 1, ess(j - 1));
      assert ess(j - 1) + [] == ess(j - 1);
    }
  }

  /**
   * A server prints events on up to four streams, the network cuts the bytes anywhere, and all
   * streams but the last are dropped and resumed: the first event that answers is returned.
   */
  lemma PrintedAnswerIsRead(net: Network, parse: ParseJson, target: u64, ess: nat -> seq<SseEvent>, j: nat,
                            n: nat, m: Message)
    requires j <= 3
    requires forall i: nat :: i <= j ==> BringsPrint(net, i, ess(i))
    requires forall i: nat :: i < j ==> IsResumed(net, i)
    requires FirstAnswer(parse, target, Sent(ess, j + 1), n, m)
    ensures RepliesAt(ReadFrom(net, parse, Some(target), 0, 3, [], []).reply, Sent(ess, j + 1), n, m)
  {
    hide BringsPrint, Brings, IsResumed, FirstAnswer, RepliesAt, ReadFrom, PrintAll, WholeEvents, LastEvent, HaltOf;
    var texts: nat -> string := (i: nat) => PrintAll(ess(i));
    forall i: nat | i <= j
      ensures Brings(net, i, texts(i))
    {
      PrintedText(net, i, ess(i));
    }
    SentIsSeen(net, texts, ess, j);
    PrintedText(net, j, ess(j));
    assert Seen(texts, j) == Sent(ess, j + 1);
    ReadIsTold(net, parse, target, texts, j);
  }

  // ----- the ids of resumes

  /** The `i`-th event is the last that has an id. */
  predicate LastNamed(events: seq<SseEvent>, i: nat) {
    i < |events| && events[i].id.Some? && forall j :: i < j < |events| ==> events[j].id.None?
  }

  lemma {:induction false} LastIdAt(events: seq<SseEvent>, i: nat)
    requires LastNamed(events, i)
    ensures LastId(events) == events[i].id
  {
    if i < |events| - 1 {
      LastIdAt(events[..|events| - 1], i);
    }
  }

  lemma {:induction false} StreamsBringTexts(net: Network, texts: nat -> string, n: nat)
    requires forall i: nat :: i < n ==> Brings(net, i, texts(i))
    ensures EventsOfStreams(net, n) == EventsBefore(texts, n)
  {
    if n > 0 {
      StreamsBringTexts(net, texts, n - 1);
      hide Find, Drain, EventRegular, Feed, EncodeAll, Flush, Flatten, EventsOf, FinalEvents, EventsOfStreams,
           EventsBefore;
      FeedOfText(texts(n - 1), net.streams(n - 1).chunks);
      FlushedText(Drain(texts(n - 1)).rest);
      OneMoreStream(net, texts, n);
    }
  }

  lemma OneMoreStream(net: Network, texts: nat -> string, n: nat)
    requires n > 0
    ensures EventsOfStreams(net, n) == EventsOfStreams(net, n - 1) + StreamEvents(net, n - 1)
    ensures EventsBefore(texts, n) ==
            EventsBefore(texts, n - 1) + (WholeEvents(texts(n - 1)) + LastEvent(texts(n - 1)))
  {
    hide StreamEvents, WholeEvents, LastEvent;
  }

  /** Each resume is asked for from the last id among all events of the texts before it. */
  lemma ResumeIdsAreTold(net: Network, parse: ParseJson, target: Option<u64>, texts: nat -> string, i: nat, n: nat)
    requires forall k: nat :: k <= i ==> Brings(net, k, texts(k))
    requires i < |ReadFrom(net, parse, target, 0, 3, [], []).resumeIds|
    requires LastNamed(EventsBefore(texts, i + 1), n)
    ensures i < 3
    ensures n < |EventsBefore(texts, i + 1)|
    ensures ReadFrom(net, parse, target, 0, 3, [], []).resumeIds[i] == EventsBefore(texts, i + 1)[n].id
  {
    hide ReadFrom, Brings, LastNamed, EventsOfStreams, EventsBefore, LastId;
    NoStreams(net);
    ResumesAreBounded(net, parse, target, 0, 3, [], []);
    ResumesCarryLatestId(net, parse, target, 0, 3, [], []);
    StreamsBringTexts(net, texts, i + 1);
    LastIdAt(EventsBefore(texts, i + 1), n);
    NamedIsThere(EventsBefore(texts, i + 1), n);
  }

  lemma NamedIsThere(events: seq<SseEvent>, n: nat)
    requires LastNamed(events, n)
    ensures n < |events|
  {
  }

  lemma NoStreams(net: Network)
    ensures EventsOfStreams(net, 0) == []
  {
  }
}
