/**
 * The Streamable HTTP client: one JSON-RPC request with its recovery from an expired
 * session, from a refused token, and from a server that only speaks the older transport.
 */
module HttpClient {
  import opened Common
  import opened Text
  import opened Utf8
  import opened Sse
  import opened SseRead

  const MCP_PROTOCOL_VERSION: string := "2025-11-25"

  predicate AcceptedVersion(v: string) {
    v == MCP_PROTOCOL_VERSION || v == "2025-03-26" || v == "2025-06-18"
  }

  // ----- what the server may answer

  /** A body can be read as a stream or as a whole; `data` is `None` when reading the whole fails. */
  datatype Body = Body(contentType: string, net: Network, data: Option<bytes>)

  datatype HttpAnswer =
    | NoAnswer(timedOut: bool)
    | Response(
        status: nat,
        reason: string,
        session: Option<string>,
        insufficientScope: bool,
        text: string,
        body: Body)

  datatype LegacyAnswer = LegacyFailed | LegacyResponse(status: nat, reason: string, net: Network)

  /** Every answer the outside world gives: to the n-th POST, legacy GET and token recovery. */
  datatype World = World(
    posts: nat -> HttpAnswer,
    gets: nat -> LegacyAnswer,
    recoveries: nat -> bool,
    hasOAuth: bool,
    parse: ParseJson,
    decode: bytes -> Result<Message, string>,
    protocolVersion: Value -> Option<string>,
    joinUrl: string -> Option<string>)

  /** One POST as it leaves the client; notifications have no id. */
  datatype Post = Post(method_: string, id: Option<u64>, session: Option<string>, version: Option<string>, legacy: bool)

  /** The client's fields, and how much of the world it has used. */
  datatype Client = Client(
    sessionId: Option<string>,
    protocolVersion: string,
    nextId: u64,
    legacyMessageUrl: Option<string>,
    posts: seq<Post>,
    gets: nat,
    recoveries: nat)

  predicate IsSuccess(status: nat) {
    200 <= status < 300
  }

  predicate LooksLikeSse(text: string) {
    "event:" <= text || "data:" <= text || "id:" <= text || ":" <= text
  }

  predicate Contains(text: string, pattern: string) {
    Find(text, pattern).Some?
  }

  predicate NamesEventStream(contentType: string) {
    Contains(contentType, "text/event-stream") || Contains(contentType, "event-stream")
  }

  // ----- specification of one body

  function StreamResult(w: World, id: u64, net: Network): Result<Value, Error> {
    match Read(net, w.parse, Some(id), 0, net.streams(0).chunks, [], "", 3, [], []).reply
    case Err(x) => Err(x)
    case Ok((_, Some(v))) => Ok(v)
    case Ok((_, None)) => Err(Protocol("SSE stream ended without JSON-RPC response for id " + PrintNat(id)))
  }

  function NoAnswerInBody(id: u64, contentType: string): Error {
    Protocol("SSE-like body without JSON-RPC response for id " + PrintNat(id) + " (content-type: " + contentType + ")")
  }

  function UndecodableBody(contentType: string, text: string): Error {
    Protocol("failed to decode JSON-RPC body (content-type: " + contentType + "): " + text)
  }

  function SseLikeResult(w: World, id: u64, contentType: string, text: string): Result<Value, Error> {
    if ByteLen(text) > DEFAULT_MAX_BUFFER_BYTES then Err(OVERFLOW)
    else
      var d := Drain(text);
      match Scan(w.parse, Some(id), EventsOf(d.blocks) + FinalEvents(d.rest))
      case Answered(_, reply) => reply
      case Missing => Err(NoAnswerInBody(id, contentType))
  }

  function BodyResult(w: World, id: u64, body: Body): Result<Value, Error> {
    var contentType := LowerAscii(body.contentType);
    if NamesEventStream(contentType) then StreamResult(w, id, body.net)
    else match body.data
      case None => Err(Transport)
      case Some(data) =>
        if LooksLikeSse(Lossy(data)) then SseLikeResult(w, id, contentType, Lossy(data))
        else match w.decode(data)
          case Err(text) => Err(UndecodableBody(contentType, text))
          case Ok(message) => ExtractResult(id, message)
  }

  // ----- specification of each exchange

  type Step<T> = (Client, Result<T, Error>)

  function Send(c: Client, name: string, id: Option<u64>): Client {
    var version :=
      if c.sessionId.Some? || c.legacyMessageUrl.Some? || name != "initialize" then Some(c.protocolVersion) else None;
    c.(posts := c.posts + [Post(name, id, c.sessionId, version, c.legacyMessageUrl.Some?)])
  }

  function HttpError(prefix: string, status: nat, reason: string, text: string): Error {
    Protocol(prefix + "HTTP " + StatusText(status, reason) + ": " + text)
  }

  /** The next id of an `AtomicU64`, which wraps. */
  function NextId(id: u64): u64 {
    if id == U64_MAX then 0 else id + 1
  }

  function RequestOnceSpec(w: World, c: Client, name: string): Step<Value> {
    var id := c.nextId;
    var sent := Send(c.(nextId := NextId(id)), name, Some(id));
    match w.posts(|c.posts|)
    case NoAnswer(timedOut) => (sent, Err(if timedOut then Timeout else Transport))
    case Response(status, reason, session, insufficientScope, text, body) =>
      if status == 401 || (status == 403 && insufficientScope) then (sent, Err(Unauthorized))
      else if status == 404 && c.sessionId.Some? then (sent, Err(SessionExpired))
      else if !IsSuccess(status) then (sent, Err(HttpError("", status, reason, text)))
      else (if session.Some? then sent.(sessionId := session) else sent, BodyResult(w, id, body))
  }

  function NotifySpec(w: World, c: Client, name: string): Step<()> {
    var sent := Send(c, name, None);
    match w.posts(|c.posts|)
    case NoAnswer(timedOut) => (sent, Err(if timedOut then Timeout else Transport))
    case Response(status, reason, _, _, text, _) =>
      if IsSuccess(status) then (sent, Ok(()))
      else (sent, Err(HttpError("notification `" + name + "` failed: ", status, reason, text)))
  }

  /** A version the server names is taken over only when it is one of the three accepted ones. */
  function ApplyInitializeResultSpec(w: World, c: Client, result: Value): Step<()> {
    match w.protocolVersion(result)
    case None => (c, Ok(()))
    case Some(v) =>
      if AcceptedVersion(v) then (c.(protocolVersion := v), Ok(()))
      else (c, Err(Protocol("unsupported MCP protocol version from server: " + v)))
  }

  function HandleUnauthorizedSpec(w: World, c: Client): Step<()> {
    if !w.hasOAuth then (c, Err(Unauthorized))
    else (c.(recoveries := c.recoveries + 1), if w.recoveries(c.recoveries) then Ok(()) else Err(OAuth))
  }

  /** After a successful `initialize` response: take over the version, then notify. */
  function CompleteInitializeSpec(w: World, c: Client, result: Value): Step<()> {
    var (applied, r) := ApplyInitializeResultSpec(w, c, result);
    if r.Err? then (applied, r) else NotifySpec(w, applied, "notifications/initialized")
  }

  function InitializeOnceSpec(w: World, c: Client): Step<()> {
    var (asked, r) := RequestOnceSpec(w, c, "initialize");
    match r
    case Err(x) => (asked, Err(x))
    case Ok(result) => CompleteInitializeSpec(w, asked, result)
  }

  /** The data of the first event named `endpoint`, whatever its case. */
  function EndpointData(events: seq<SseEvent>): Option<string> {
    if events == [] then None
    else if events[0].event.Some? && LowerAscii(events[0].event.value) == "endpoint" then Some(events[0].data)
    else EndpointData(events[1..])
  }

  function LegacyUrl(w: World, answer: LegacyAnswer): Result<string, Error> {
    match answer
    case LegacyFailed => Err(Transport)
    case LegacyResponse(status, reason, net) =>
      if !IsSuccess(status) then Err(Protocol("legacy HTTP+SSE GET failed: HTTP " + StatusText(status, reason)))
      else match Read(net, w.parse, None, 0, net.streams(0).chunks, [], "", 0, [], []).reply
        case Err(x) => Err(x)
        case Ok((events, _)) =>
          match EndpointData(events)
          case None => Err(Protocol("legacy HTTP+SSE stream missing endpoint event"))
          case Some(data) =>
            match w.joinUrl(Trim(data))
            case None => Err(Protocol("invalid legacy endpoint URL"))
            case Some(url) => Ok(url)
  }

  function TryLegacyHttpSseSpec(w: World, c: Client): Step<()> {
    var asked := c.(gets := c.gets + 1);
    match LegacyUrl(w, w.gets(c.gets))
    case Err(x) => (asked, Err(x))
    case Ok(url) => InitializeOnceSpec(w, asked.(legacyMessageUrl := Some(url)))
  }

  predicate SuggestsLegacy(x: Error) {
    x.Protocol? && (Contains(x.error, "400") || Contains(x.error, "404") || Contains(x.error, "405"))
  }

  function InitializeSpec(w: World, c: Client): Step<()> {
    var (asked, r) := RequestOnceSpec(w, c, "initialize");
    match r
    case Ok(result) => CompleteInitializeSpec(w, asked, result)
    case Err(x) =>
      if x.Unauthorized? then
        var (recovered, h) := HandleUnauthorizedSpec(w, asked);
        if h.Err? then (recovered, h) else InitializeOnceSpec(w, recovered)
      else if SuggestsLegacy(x) then TryLegacyHttpSseSpec(w, asked)
      else (asked, Err(x))
  }

  function RequestSpec(w: World, c: Client, name: string): Step<Value> {
    var (asked, r) := RequestOnceSpec(w, c, name);
    if r == Err(SessionExpired) then
      var (ready, i) := InitializeSpec(w, asked.(sessionId := None));
      if i.Err? then (ready, Err(i.error)) else RequestOnceSpec(w, ready, name)
    else if r == Err(Unauthorized) then
      var (recovered, h) := HandleUnauthorizedSpec(w, asked);
      if h.Err? then (recovered, Err(h.error)) else RequestOnceSpec(w, recovered, name)
    else (asked, r)
  }

  // ----- the client

  class McpHttpClient {
    const w: World
    var sessionId: Option<string>
    var protocolVersion: string
    var nextId: u64
    var legacyMessageUrl: Option<string>
    var posts: seq<Post>
    var gets: nat
    var recoveries: nat

    constructor (w: World)
      ensures this.w == w && State() == Client(None, MCP_PROTOCOL_VERSION, 1, None, [], 0, 0)
    {
      this.w := w;
      sessionId, protocolVersion, nextId, legacyMessageUrl := None, MCP_PROTOCOL_VERSION, 1, None;
      posts, gets, recoveries := [], 0, 0;
    }

    ghost function State(): Client
      reads this
    {
      Client(sessionId, protocolVersion, nextId, legacyMessageUrl, posts, gets, recoveries)
    }

    method PostJson(name: string, id: Option<u64>) returns (answer: HttpAnswer)
      modifies this
      ensures State() == Send(old(State()), name, id)
      ensures answer == w.posts(|old(posts)|)
    {
      var version := None;
      if sessionId.Some? || legacyMessageUrl.Some? {
        version := Some(protocolVersion);
      } else if name != "initialize" {
        version := Some(protocolVersion);
      }
      answer := w.posts(|posts|);
      posts := posts + [Post(name, id, sessionId, version, legacyMessageUrl.Some?)];
    }

    method ReadBody(id: u64, body: Body) returns (r: Result<Value, Error>)
      ensures r == BodyResult(w, id, body)
    {
      hide Read, Drain, BlockEvent, ByteLen, Scan, FindEventBoundary, ExtractResult, Answer, FinalEvent, Lossy,
           Contains;
      var contentType := LowerAscii(body.contentType);
      if NamesEventStream(contentType) {
        var reply, _ := ReadSseUntil(body.net, w.parse, Some(id), true);
        match reply {
          case Err(x) => return Err(x);
          case Ok((_, Some(v))) => return Ok(v);
          case Ok((_, None)) =>
            return Err(Protocol("SSE stream ended without JSON-RPC response for id " + PrintNat(id)));
        }
      }
      if body.data.None? {
        return Err(Transport);
      }
      var text := Lossy(body.data.value);
      if LooksLikeSse(text) {
        r := ReadSseLike(id, contentType, text);
        return;
      }
      var message := w.decode(body.data.value);
      match message {
        case Err(x) => return Err(UndecodableBody(contentType, x));
        case Ok(m) => return ExtractResult(id, m);
      }
    }

    method FirstReply(id: u64, events: seq<SseEvent>) returns (r: Result<Option<Value>, Error>)
      ensures r == match Scan(w.parse, Some(id), events)
                   case Missing => Ok(None)
                   case Answered(_, Ok(v)) => Ok(Some(v))
                   case Answered(_, Err(x)) => Err(x)
    {
      hide Scan, ExtractResult, Answer;
      ScanNone(w.parse, Some(id));
      assert events[..0] == [];
      for i := 0 to |events|
        invariant Scan(w.parse, Some(id), events[..i]).Missing?
      {
        ScanNext(w.parse, Some(id), events, i);
        r := SseEventResult(w.parse, Some(id), events[i]);
        if r != Ok(None) {
          return;
        }
      }
      assert events[..|events|] == events;
      return Ok(None);
    }

    method ReadSseLike(id: u64, contentType: string, text: string) returns (r: Result<Value, Error>)
      ensures r == SseLikeResult(w, id, contentType, text)
    {
      hide Read, Drain, BlockEvent, ByteLen, Scan, FindEventBoundary, ExtractResult, Answer, FinalEvent, EventsOf;
      var parser := new SseParser(DEFAULT_MAX_BUFFER_BYTES);
      assert "" + text == text;
      NoBytes();
      var events := parser.Push(text);
      if events.Err? {
        return Err(OVERFLOW);
      }
      ghost var rest := FinalEvents(parser.buffer);
      ScanConcat(w.parse, Some(id), events.value, rest);
      ScanNone(w.parse, Some(id));
      var value := FirstReply(id, events.value);
      if value == Ok(None) {
        var final := parser.Finish();
        if final.Some? {
          value := SseEventResult(w.parse, Some(id), final.value);
          ScanOne(w.parse, Some(id), final.value);
        }
      }
      match value
      case Err(x) => return Err(x);
      case Ok(Some(v)) => return Ok(v);
      case Ok(None) =>
        return Err(NoAnswerInBody(id, contentType));
    }

    method RequestOnce(name: string) returns (r: Result<Value, Error>)
      modifies this
      ensures (State(), r) == RequestOnceSpec(w, old(State()), name)
    {
      hide BodyResult, HttpError;
      var id := nextId;
      nextId := NextId(nextId);
      var held := sessionId.Some?;
      var answer := PostJson(name, Some(id));
      match answer
      case NoAnswer(timedOut) =>
        return Err(if timedOut then Timeout else Transport);
      case Response(status, reason, session, insufficientScope, text, body) =>
        if status == 401 {
          return Err(Unauthorized);
        }
        if status == 403 {
          if insufficientScope {
            return Err(Unauthorized);
          }
          return Err(HttpError("", status, reason, text));
        }
        if status == 404 && sessionId.Some? {
          return Err(SessionExpired);
        }
        if !IsSuccess(status) {
          return Err(HttpError("", status, reason, text));
        }
        if session.Some? {
          sessionId := session;
        }
        r := ReadBody(id, body);
    }

    method Notify(name: string) returns (r: Result<(), Error>)
      modifies this
      ensures (State(), r) == NotifySpec(w, old(State()), name)
    {
      var answer := PostJson(name, None);
      match answer
      case NoAnswer(timedOut) =>
        return Err(if timedOut then Timeout else Transport);
      case Response(status, reason, _, _, text, _) =>
        if IsSuccess(status) {
          return Ok(());
        }
        return Err(HttpError("notification `" + name + "` failed: ", status, reason, text));
    }

    method ApplyInitializeResult(result: Value) returns (r: Result<(), Error>)
      modifies this`protocolVersion
      ensures (State(), r) == ApplyInitializeResultSpec(w, old(State()), result)
    {
      var version := w.protocolVersion(result);
      if version.Some? {
        if version.value != MCP_PROTOCOL_VERSION && version.value != "2025-03-26" && version.value != "2025-06-18" {
          return Err(Protocol("unsupported MCP protocol version from server: " + version.value));
        }
        protocolVersion := version.value;
      }
      return Ok(());
    }

    method HandleUnauthorized() returns (r: Result<(), Error>)
      modifies this`recoveries
      ensures (State(), r) == HandleUnauthorizedSpec(w, old(State()))
    {
      if !w.hasOAuth {
        return Err(Unauthorized);
      }
      var recovered := w.recoveries(recoveries);
      recoveries := recoveries + 1;
      return if recovered then Ok(()) else Err(OAuth);
    }

    method InitializeOnce() returns (r: Result<(), Error>)
      modifies this
      ensures (State(), r) == InitializeOnceSpec(w, old(State()))
    {
      hide RequestOnceSpec, ApplyInitializeResultSpec, NotifySpec;
      var result := RequestOnce("initialize");
      if result.Err? {
        return Err(result.error);
      }
      r := ApplyInitializeResult(result.value);
      if r.Ok? {
        r := Notify("notifications/initialized");
      }
    }

    method TryLegacyHttpSse() returns (r: Result<(), Error>)
      modifies this
      ensures (State(), r) == TryLegacyHttpSseSpec(w, old(State()))
    {
      hide InitializeOnceSpec, Read, Trim;
      var answer := w.gets(gets);
      gets := gets + 1;
      match answer
      case LegacyFailed => return Err(Transport);
      case LegacyResponse(status, reason, net) =>
        if !IsSuccess(status) {
          return Err(Protocol("legacy HTTP+SSE GET failed: HTTP " + StatusText(status, reason)));
        }
        var reply, _ := ReadSseUntil(net, w.parse, None, false);
        if reply.Err? {
          return Err(reply.error);
        }
        var data := EndpointData(reply.value.0);
        if data.None? {
          return Err(Protocol("legacy HTTP+SSE stream missing endpoint event"));
        }
        var url := w.joinUrl(Trim(data.value));
        if url.None? {
          return Err(Protocol("invalid legacy endpoint URL"));
        }
        legacyMessageUrl := url;
        r := InitializeOnce();
    }

    method Initialize() returns (r: Result<(), Error>)
      modifies this
      ensures (State(), r) == InitializeSpec(w, old(State()))
    {
      hide RequestOnceSpec, ApplyInitializeResultSpec, NotifySpec, TryLegacyHttpSseSpec, InitializeOnceSpec,
           HandleUnauthorizedSpec, Contains;
      var result := RequestOnce("initialize");
      if result.Ok? {
        r := ApplyInitializeResult(result.value);
        if r.Ok? {
          r := Notify("notifications/initialized");
        }
      } else if result.error.Unauthorized? {
        r := HandleUnauthorized();
        if r.Ok? {
          r := InitializeOnce();
        }
      } else if SuggestsLegacy(result.error) {
        r := TryLegacyHttpSse();
      } else {
        r := Err(result.error);
      }
    }

    method Request(name: string) returns (r: Result<Value, Error>)
      modifies this
      ensures (State(), r) == RequestSpec(w, old(State()), name)
    {
      hide RequestOnceSpec, InitializeSpec, HandleUnauthorizedSpec;
      r := RequestOnce(name);
      if r == Err(SessionExpired) {
        sessionId := None;
        var ready := Initialize();
        if ready.Err? {
          return Err(ready.error);
        }
        r := RequestOnce(name);
      } else if r == Err(Unauthorized) {
        var recovered := HandleUnauthorized();
        if recovered.Err? {
          return Err(recovered.error);
        }
        r := RequestOnce(name);
      }
    }
  }

  lemma NoBytes()
    ensures ByteLen("") == 0
  {
  }

  lemma ScanNext(parse: ParseJson, target: Option<u64>, events: seq<SseEvent>, i: nat)
    requires i < |events| && Scan(parse, target, events[..i]).Missing?
    ensures match Answer(parse, target, events[i])
            case None => Scan(parse, target, events[..i + 1]).Missing?
            case Some(m) => Scan(parse, target, events) == Answered(i + 1, ExtractResult(target.value, m))
  {
    hide Answer, ExtractResult;
    assert events[..i + 1] == events[..i] + [events[i]] && events == events[..i + 1] + events[i + 1..];
    ScanConcat(parse, target, events[..i], [events[i]]);
    ScanConcat(parse, target, events[..i + 1], events[i + 1..]);
    ScanOne(parse, target, events[i]);
  }
}
