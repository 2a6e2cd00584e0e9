/** What a request and a notification return, told by what the server answers. */
module ClientAnswers {
  import opened Common
  import opened Text
  import opened Utf8
  import opened Sse
  import opened SseRead
  import opened SseAnswers
  import opened HttpClient
  import opened SessionRecovery

  /** What is returned is what message `m` says: its result, null when it has none, or its error. */
  predicate Answers(r: Result<Value, Error>, m: Message) {
    match r
    case Ok(v) => Gives(m, v)
    case Err(x) => m.error.Some? && x == Protocol(m.error.value)
  }

  // ----- the three forms of a body

  ghost predicate IsStream(contentType: string) {
    exists i: nat :: OccursAt(LowerAscii(contentType), "event-stream", i)
  }

  predicate StartsLikeSse(text: string) {
    exists prefix :: prefix in ["event:", "data:", "id:", ":"] && prefix <= text
  }

  lemma StreamNamed(contentType: string)
    ensures NamesEventStream(LowerAscii(contentType)) <==> IsStream(contentType)
  {
    hide OccursAt, LowerAscii;
    var s := LowerAscii(contentType);
    FindIsFirst(s, "text/event-stream");
    FindIsFirst(s, "event-stream");
    if Find(s, "text/event-stream").Some? {
      ShorterName(s, Find(s, "text/event-stream").value);
    }
  }

  lemma ShorterName(s: string, i: nat)
    requires OccursAt(s, "text/event-stream", i)
    ensures OccursAt(s, "event-stream", i + 5)
  {
    var name := "text/event-stream";
    assert s[i..i + |name|] == name;
    assert s[i + 5..i + 17] == s[i..i + 17][5..] == name[5..];
    assert name[5..] == "event-stream";
  }

  /** A body named as a stream is read as one: its first answer is returned, however it is cut and resumed. */
  lemma StreamBody(w: World, id: u64, body: Body, texts: nat -> string, j: nat, n: nat, m: Message)
    requires IsStream(body.contentType) && GetsTo(body.net, texts, j)
    requires FirstAnswer(w.parse, id, Seen(texts, j), n, m)
    ensures Answers(BodyResult(w, id, body), m)
  {
    hide GetsTo, FirstAnswer, Seen, Read, LowerAscii, HaltOf, IsStream, NoneAnswers;
    StreamNamed(body.contentType);
    hide NamesEventStream;
    ReadIsTold(body.net, w.parse, id, texts, j);
  }

  /** Without an answer the end of the stream is an error of its own. */
  lemma StreamBodyWithoutAnswer(w: World, id: u64, body: Body, texts: nat -> string, j: nat, halt: Halt)
    requires IsStream(body.contentType) && GetsTo(body.net, texts, j) && HaltOf(body.net, j, j == 3) == Some(halt)
    requires NoneAnswers(w.parse, id, Seen(texts, j) + if halt.complete then LastEvent(texts(j)) else [])
    ensures BodyResult(w, id, body) ==
            match halt.end
            case Ok(_) => Err(Protocol("SSE stream ended without JSON-RPC response for id " + PrintNat(id)))
            case Err(x) => Err(x)
  {
    hide GetsTo, FirstAnswer, Seen, Read, LowerAscii, HaltOf, IsStream, NoneAnswers, LastEvent, PrintNat, RepliesAt;
    StreamNamed(body.contentType);
    hide NamesEventStream;
    ReadIsTold(body.net, w.parse, id, texts, j);
  }

  /** A body that is not named as a stream but starts like one is parsed as a whole. */
  lemma SseLikeBody(w: World, id: u64, body: Body, s: string, n: nat, m: Message)
    requires !IsStream(body.contentType) && body.data == Some(EncodeAll(s))
    requires StartsLikeSse(s) && |EncodeAll(s)| <= 1024 * 1024
    requires FirstAnswer(w.parse, id, WholeEvents(s) + LastEvent(s), n, m)
    ensures Answers(BodyResult(w, id, body), m)
  {
    hide LowerAscii, IsStream, Lossy, EncodeAll, Scan, Drain, EventsOf, FinalEvents, Find, ExtractResult, Carries,
         CarriesNone;
    StreamNamed(body.contentType);
    LossyRoundTrip(s);
    hide NamesEventStream;
    ScanFinds(w.parse, id, WholeEvents(s) + LastEvent(s), n, m);
    CarriedId(w.parse, id, (WholeEvents(s) + LastEvent(s))[n - 1], m);
    ExtractedAnswers(id, m);
  }

  lemma ExtractedAnswers(id: u64, m: Message)
    requires m.id.Some? && IdNames(m.id.value, id)
    ensures Answers(ExtractResult(id, m), m)
  {
    hide ExtractResult, IdNames, Gives;
    MessageMeans(id, m);
    match ExtractResult(id, m) {
      case Ok(v) => assert Gives(m, v);
      case Err(x) => assert m.error.Some?;
    }
  }

  lemma SseLikeBodyWithoutAnswer(w: World, id: u64, body: Body, s: string)
    requires !IsStream(body.contentType) && body.data == Some(EncodeAll(s)) && StartsLikeSse(s)
    requires |EncodeAll(s)| > 1024 * 1024 || NoneAnswers(w.parse, id, WholeEvents(s) + LastEvent(s))
    ensures BodyResult(w, id, body).Err?
  {
    hide LowerAscii, IsStream, Lossy, EncodeAll, Scan, Drain, EventsOf, FinalEvents, Find, NoneAnswers, PrintNat;
    StreamNamed(body.contentType);
    LossyRoundTrip(s);
    hide NamesEventStream;
    if NoneAnswers(w.parse, id, WholeEvents(s) + LastEvent(s)) {
      ScanMisses(w.parse, id, WholeEvents(s) + LastEvent(s));
    }
  }

  /** Any other body is one JSON message, and has to answer the request itself. */
  lemma JsonBody(w: World, id: u64, body: Body)
    requires !IsStream(body.contentType) && body.data.Some? && !StartsLikeSse(Lossy(body.data.value))
    ensures forall v :: BodyResult(w, id, body) == Ok(v) <==>
              && w.decode(body.data.value).Ok?
              && var m := w.decode(body.data.value).value;
                 m.id.Some? && IdNames(m.id.value, id) && Gives(m, v)
  {
    hide LowerAscii, IsStream, Lossy, Find, ExtractResult, IdNames, Gives, UndecodableBody;
    StreamNamed(body.contentType);
    hide NamesEventStream;
    NotLikeSse(Lossy(body.data.value));
    if w.decode(body.data.value).Ok? {
      MessageMeans(id, w.decode(body.data.value).value);
    }
  }

  lemma NotLikeSse(text: string)
    ensures LooksLikeSse(text) <==> StartsLikeSse(text)
  {
    var prefixes := ["event:", "data:", "id:", ":"];
    assert prefixes[0] in prefixes && prefixes[1] in prefixes && prefixes[2] in prefixes && prefixes[3] in prefixes;
  }

  // ----- what a request returns

  /** A 2xx answer whose body answers ends the request: one POST, and that is returned. */
  lemma AnswerIsReturned(w: World, c: Client, name: string, m: Message)
    requires var a := w.posts(|c.posts|); a.Response? && 200 <= a.status < 300
    requires Answers(BodyResult(w, c.nextId, w.posts(|c.posts|).body), m)
    ensures Answers(RequestSpec(w, c, name).1, m) && |RequestSpec(w, c, name).0.posts| == |c.posts| + 1
  {
    hide BodyResult, InitializeSpec;
  }

  /**
   * From the server's print to the caller: events printed on up to four streams and cut anywhere,
   * of which the first that answers carries `m`. The request returns what `m` says.
   */
  lemma PrintedAnswerIsReturned(w: World, c: Client, name: string, ess: nat -> seq<SseEvent>, j: nat, n: nat,
                                m: Message)
    requires var a := w.posts(|c.posts|); a.Response? && 200 <= a.status < 300 && IsStream(a.body.contentType)
    requires j <= 3
    requires forall i: nat :: i <= j ==> BringsPrint(w.posts(|c.posts|).body.net, i, ess(i))
    requires forall i: nat :: i < j ==> IsResumed(w.posts(|c.posts|).body.net, i)
    requires FirstAnswer(w.parse, c.nextId, Sent(ess, j + 1), n, m)
    ensures Answers(RequestSpec(w, c, name).1, m)
  {
    hide BringsPrint, IsResumed, FirstAnswer, Sent, IsStream, Read, LowerAscii;
    var body := w.posts(|c.posts|).body;
    StreamNamed(body.contentType);
    hide NamesEventStream;
    PrintedAnswerIsRead(body.net, w.parse, c.nextId, ess, j, n, m);
    assert Answers(BodyResult(w, c.nextId, body), m);
    AnswerIsReturned(w, c, name, m);
  }

  /**
   * A POST that gets no value: a timeout, a failure to send, a refused token, an expired session,
   * or another status that is not 2xx, named in the error.
   */
  lemma FailedPost(w: World, c: Client, name: string)
    ensures var r := RequestOnceSpec(w, c, name).1;
            match w.posts(|c.posts|)
            case NoAnswer(timedOut) => r == Err(if timedOut then Timeout else Transport)
            case Response(status, reason, _, scope, text, _) =>
              && (status == 401 || (status == 403 && scope) ==> r == Err(Unauthorized))
              && (status == 404 && c.sessionId.Some? ==> r == Err(SessionExpired))
              && (status == 404 && c.sessionId.None? ==>
                    r == Err(Protocol("HTTP " + StatusText(404, reason) + ": " + text)))
              && (status != 401 && !(status == 403 && scope) && status != 404 && (status < 200 || status >= 300) ==>
                    r == Err(Protocol("HTTP " + StatusText(status, reason) + ": " + text)))
  {
    hide BodyResult, StatusText;
    var status := if w.posts(|c.posts|).Response? then w.posts(|c.posts|).status else 0;
    assert "" + "HTTP " == "HTTP ";
    if w.posts(|c.posts|).Response? {
      NoPrefix(status, w.posts(|c.posts|).reason, w.posts(|c.posts|).text);
    }
  }

  lemma NoPrefix(status: nat, reason: string, text: string)
    ensures HttpError("", status, reason, text) == Protocol("HTTP " + StatusText(status, reason) + ": " + text)
  {
    hide StatusText;
    assert "" + "HTTP " == "HTTP ";
  }

  /** A refused token: tried once more if and only if a new one can be had; otherwise no more POST is sent. */
  lemma RefusedTokenIsRetriedOnce(w: World, c: Client, name: string)
    requires RequestOnceSpec(w, c, name).1 == Err(Unauthorized)
    ensures var (d, r) := RequestSpec(w, c, name); var k := |c.posts|;
            && (|d.posts| == k + 2 <==> w.hasOAuth && w.recoveries(c.recoveries))
            && (|d.posts| == k + 2 ==> d.posts[k + 1].method_ == name)
            && (|d.posts| != k + 2 ==> |d.posts| == k + 1 && r == Err(if w.hasOAuth then OAuth else Unauthorized))
            && d.recoveries == c.recoveries + (if w.hasOAuth then 1 else 0)
  {
    hide BodyResult, HttpError;
  }

  /** A notification succeeds if and only if the server answers with 2xx. */
  lemma NotificationSucceedsIff(w: World, c: Client, name: string)
    ensures var (d, r) := NotifySpec(w, c, name); var a := w.posts(|c.posts|);
            && (r.Ok? <==> a.Response? && 200 <= a.status < 300)
            && (a.NoAnswer? ==> r == Err(if a.timedOut then Timeout else Transport))
            && |d.posts| == |c.posts| + 1 && d.posts[|c.posts|].method_ == name && d.posts[|c.posts|].id.None?
  {
    hide HttpError;
  }

  /** The last POST was the notification that ends a handshake, and the server took it. */
  predicate EndedHandshake(w: World, d: Client) {
    && d.posts != []
    && var last := |d.posts| - 1;
    && d.posts[last].method_ == "notifications/initialized" && d.posts[last].id.None?
    && w.posts(last).Response? && 200 <= w.posts(last).status < 300
  }

  lemma CompletedHandshake(w: World, c: Client, result: Value)
    requires CompleteInitializeSpec(w, c, result).1.Ok?
    ensures EndedHandshake(w, CompleteInitializeSpec(w, c, result).0)
  {
    hide HttpError;
  }

  lemma InitializedOnce(w: World, c: Client)
    requires InitializeOnceSpec(w, c).1.Ok?
    ensures EndedHandshake(w, InitializeOnceSpec(w, c).0)
  {
    hide RequestOnceSpec, CompleteInitializeSpec, EndedHandshake;
    var (asked, r) := RequestOnceSpec(w, c, "initialize");
    CompletedHandshake(w, asked, r.value);
  }

  /** A client is connected only once the server has taken the notification that ends the handshake. */
  lemma ConnectedAfterHandshake(w: World, c: Client)
    requires InitializeSpec(w, c).1.Ok?
    ensures EndedHandshake(w, InitializeSpec(w, c).0)
  {
    hide RequestOnceSpec, CompleteInitializeSpec, InitializeOnceSpec, LegacyUrl, SuggestsLegacy, EndedHandshake;
    var (asked, r) := RequestOnceSpec(w, c, "initialize");
    if r.Ok? {
      CompletedHandshake(w, asked, r.value);
    } else if r.error.Unauthorized? {
      InitializedOnce(w, HandleUnauthorizedSpec(w, asked).0);
    } else {
      var url := LegacyUrl(w, w.gets(asked.gets)).value;
      InitializedOnce(w, asked.(gets := asked.gets + 1, legacyMessageUrl := Some(url)));
    }
  }

  // ----- the older transport

  /** These statuses, and a 404 without a session, make the client try the older transport. */
  lemma RefusedInitializeFallsBack(w: World, c: Client)
    requires var a := w.posts(|c.posts|); a.Response? && a.status in {400, 404, 405} && c.sessionId.None?
    ensures var (d, r) := InitializeSpec(w, c); var k := |c.posts|; var url := LegacyUrl(w, w.gets(c.gets));
            && d.gets == c.gets + 1
            && (url.Err? ==> |d.posts| == k + 1 && r == Err(url.error) && d.legacyMessageUrl == c.legacyMessageUrl)
            && (url.Ok? ==> |d.posts| > k + 1 && d.legacyMessageUrl == Some(url.value)
                            && d.posts[k + 1].method_ == "initialize" && d.posts[k + 1].legacy)
  {
    hide BodyResult, LegacyUrl, StatusText, Contains, AcceptedVersion, Ids, IdsFrom, Advance, CompleteInitializeSpec;
    var a := w.posts(|c.posts|);
    FailedPost(w, c, "initialize");
    StatusSuggestsLegacy(a.status, a.reason, a.text);
    var asked := RequestOnceSpec(w, c, "initialize").0;
    if LegacyUrl(w, w.gets(c.gets)).Ok? {
      var moved := asked.(gets := asked.gets + 1, legacyMessageUrl := Some(LegacyUrl(w, w.gets(c.gets)).value));
      InitializeOnceExchange(w, moved);
      SecondInitialize(w, moved);
    }
  }

  lemma SecondInitialize(w: World, c: Client)
    ensures var d := InitializeOnceSpec(w, c).0;
            && |d.posts| > |c.posts| && d.posts[|c.posts|].method_ == "initialize"
            && d.posts[|c.posts|].legacy == c.legacyMessageUrl.Some?
            && d.gets == c.gets && d.legacyMessageUrl == c.legacyMessageUrl
  {
    hide RequestOnceSpec, CompleteInitializeSpec;
    OneMorePost(w, c, "initialize");
    var (asked, r) := RequestOnceSpec(w, c, "initialize");
    if r.Ok? {
      CompletingOnlyAdds(w, asked, r.value);
    }
  }

  lemma OneMorePost(w: World, c: Client, name: string)
    ensures var d := RequestOnceSpec(w, c, name).0;
            && |d.posts| == |c.posts| + 1 && d.posts[|c.posts|].method_ == name
            && d.posts[|c.posts|].legacy == c.legacyMessageUrl.Some?
            && d.gets == c.gets && d.legacyMessageUrl == c.legacyMessageUrl
  {
    hide BodyResult, HttpError;
  }

  lemma CompletingOnlyAdds(w: World, c: Client, result: Value)
    ensures var d := CompleteInitializeSpec(w, c, result).0;
            c.posts <= d.posts && d.gets == c.gets && d.legacyMessageUrl == c.legacyMessageUrl
  {
    hide HttpError, AcceptedVersion;
  }

  lemma StatusSuggestsLegacy(status: nat, reason: string, text: string)
    requires status in {400, 404, 405}
    ensures SuggestsLegacy(Protocol("HTTP " + StatusText(status, reason) + ": " + text))
  {
    var error := "HTTP " + StatusText(status, reason) + ": " + text;
    var digits := PrintNat(status);
    ThreeDigits(status);
    assert |digits| == 3;
    assert error[5..8] == digits;
    assert OccursAt(error, digits, 5);
    FindIsFirst(error, digits);
  }

  lemma ThreeDigits(status: nat)
    requires status in {400, 404, 405}
    ensures PrintNat(status) == if status == 400 then "400" else if status == 404 then "404" else "405"
  {
    assert PrintNat(40) == PrintNat(4) + "0" == "40";
    assert PrintNat(status) == PrintNat(status / 10) + [Digit(status % 10)];
  }

  /** The event names the endpoint, in whatever case. */
  predicate NamesEndpoint(e: SseEvent) {
    e.event.Some? && LowerAscii(e.event.value) == "endpoint"
  }

  /** The URL is that of the first event that names the endpoint. */
  lemma {:induction false} EndpointIsFirst(events: seq<SseEvent>, i: nat)
    ensures i < |events| && NamesEndpoint(events[i]) && (forall j :: 0 <= j < i ==> !NamesEndpoint(events[j])) ==>
              EndpointData(events) == Some(events[i].data)
    ensures (forall j :: 0 <= j < |events| ==> !NamesEndpoint(events[j])) ==> EndpointData(events).None?
    decreases |events|
  {
    hide LowerAscii;
    if events != [] {
      var rest := events[1..];
      EndpointIsFirst(rest, SatSub(i, 1));
      assert forall j :: 0 <= j < |rest| ==> rest[j] == events[j + 1];
    }
  }

  // ----- a session that expires twice

  const TWICE: World := World(
    (n: nat) =>
      if n == 0 || n == 3 then Response(404, "Not Found", None, false, "", EMPTY_BODY)
      else if n == 1 then Response(200, "OK", Some("second"), false, "", EMPTY_BODY)
      else Response(202, "Accepted", None, false, "", EMPTY_BODY),
    (n: nat) => LegacyFailed,
    (n: nat) => true,
    false,
    data => None,
    bytes => Ok(Message(Some(Number(2)), None, None)),
    value => None,
    url => None)

  /** A 404 to the retry is reported, but the session id it was for stays and goes with the next POST. */
  lemma SecondExpiryIsKept()
    ensures var (d, r) := RequestSpec(TWICE, HELD, "tools/list");
            && r == Err(SessionExpired) && |d.posts| == 4 && d.posts[3].session == Some("second")
            && d.sessionId == Some("second")
            && NotifySpec(TWICE, d, "ping").0.posts[4].session == Some("second")
  {
    var w := TWICE;
    assert Lossy([]) == "" && !LooksLikeSse("");
    EmptyBodyIsNoStream();
    assert BodyResult(w, 2, EMPTY_BODY) == Ok(Null);
    hide BodyResult, LegacyUrl, StatusText;
    var (asked, r) := RequestOnceSpec(w, HELD, "tools/list");
    assert r == Err(SessionExpired);
    var (again, i) := RequestOnceSpec(w, asked.(sessionId := None), "initialize");
    assert i == Ok(Null);
    var ready := CompleteInitializeSpec(w, again, Null).0;
    assert InitializeSpec(w, asked.(sessionId := None)) == (ready, Ok(()));
  }
}
