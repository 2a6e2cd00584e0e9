/** What one `request` may do at most, whatever the server answers. */
module SessionRecovery {
  import opened Common
  import opened Text
  import opened Utf8
  import opened Sse
  import opened SseRead
  import opened SseReadProperties
  import opened HttpClient

  /** The JSON-RPC ids among some POSTs, in order. */
  function Ids(posts: seq<Post>): seq<u64> {
    if posts == [] then []
    else if posts[0].id.Some? then [posts[0].id.value] + Ids(posts[1..])
    else Ids(posts[1..])
  }

  /** `n` ids handed out one after the other from `id` on. */
  function IdsFrom(id: u64, n: nat): seq<u64>
    decreases n
  {
    if n == 0 then [] else [id] + IdsFrom(NextId(id), n - 1)
  }

  function Advance(id: u64, n: nat): u64
    decreases n
  {
    if n == 0 then id else Advance(NextId(id), n - 1)
  }

  lemma {:induction false} IdsConcat(a: seq<Post>, b: seq<Post>)
    ensures Ids(a + b) == Ids(a) + Ids(b)
  {
    if a == [] {
      assert a + b == b;
    } else {
      assert (a + b)[1..] == a[1..] + b;
      IdsConcat(a[1..], b);
    }
  }

  lemma {:induction false} IdsFromConcat(id: u64, m: nat, n: nat)
    ensures IdsFrom(id, m + n) == IdsFrom(id, m) + IdsFrom(Advance(id, m), n)
    ensures Advance(id, m + n) == Advance(Advance(id, m), n)
    ensures |IdsFrom(id, m)| == m
    decreases m
  {
    if m > 0 {
      IdsFromConcat(NextId(id), m - 1, n);
    }
  }

  /** Up to the wrap-around, ids handed out in order are the successive numbers. */
  lemma {:induction false} IdsIncrease(id: u64, n: nat)
    requires id + n <= U64_MAX
    ensures |IdsFrom(id, n)| == n && forall i :: 0 <= i < n ==> IdsFrom(id, n)[i] == id + i
    ensures Advance(id, n) == id + n
    decreases n
  {
    if n > 0 {
      IdsIncrease(id + 1, n - 1);
    }
  }

  /** From `c` to `d` at most `posts` POSTs went out, with at most `ids` ids, all drawn in order. */
  predicate Exchange(c: Client, d: Client, posts: nat, ids: nat) {
    && c.posts <= d.posts
    && var sent := d.posts[|c.posts|..];
    && |sent| <= posts && |Ids(sent)| <= ids
    && Ids(sent) == IdsFrom(c.nextId, |Ids(sent)|)
    && d.nextId == Advance(c.nextId, |Ids(sent)|)
    && (AcceptedVersion(c.protocolVersion) ==> AcceptedVersion(d.protocolVersion))
  }

  lemma ExchangeTrans(c: Client, d: Client, e: Client, p: nat, i: nat, q: nat, j: nat)
    requires Exchange(c, d, p, i) && Exchange(d, e, q, j)
    ensures Exchange(c, e, p + q, i + j)
  {
    var (a, b) := (d.posts[|c.posts|..], e.posts[|d.posts|..]);
    assert e.posts[|c.posts|..] == a + b;
    IdsConcat(a, b);
    IdsFromConcat(c.nextId, |Ids(a)|, |Ids(b)|);
  }

  lemma NoExchange(c: Client, d: Client)
    requires d.posts == c.posts && d.nextId == c.nextId
    requires AcceptedVersion(c.protocolVersion) ==> AcceptedVersion(d.protocolVersion)
    ensures Exchange(c, d, 0, 0)
  {
    assert d.posts[|c.posts|..] == [];
  }

  lemma SendExchange(c: Client, name: string, id: Option<u64>)
    requires id.Some? ==> id.value == c.nextId
    ensures var d := Send(c, name, id);
            Exchange(c, if id.Some? then d.(nextId := NextId(c.nextId)) else d, 1, if id.Some? then 1 else 0)
  {
    hide AcceptedVersion;
    var d := Send(c, name, id);
    var sent := d.posts[|c.posts|..];
    assert |sent| == 1 && sent[1..] == [] && sent[0].id == id;
    assert Ids(sent) == if id.Some? then [id.value] else [];
    assert IdsFrom(c.nextId, 1) == [c.nextId] + IdsFrom(NextId(c.nextId), 0);
    assert Advance(c.nextId, 1) == NextId(c.nextId);
  }

  lemma RequestOnceExchange(w: World, c: Client, name: string)
    ensures Exchange(c, RequestOnceSpec(w, c, name).0, 1, 1)
  {
    hide AcceptedVersion, BodyResult, Ids, IdsFrom, Advance;
    SendExchange(c, name, Some(c.nextId));
  }

  lemma CompleteExchange(w: World, c: Client, result: Value)
    ensures Exchange(c, CompleteInitializeSpec(w, c, result).0, 1, 0)
  {
    hide AcceptedVersion, Ids, IdsFrom, Advance;
    var (applied, r) := ApplyInitializeResultSpec(w, c, result);
    NoExchange(c, applied);
    if r.Ok? {
      SendExchange(applied, "notifications/initialized", None);
      ExchangeTrans(c, applied, NotifySpec(w, applied, "notifications/initialized").0, 0, 0, 1, 0);
    }
  }

  lemma InitializeOnceExchange(w: World, c: Client)
    ensures Exchange(c, InitializeOnceSpec(w, c).0, 2, 1)
  {
    hide AcceptedVersion, Ids, IdsFrom, Advance, RequestOnceSpec, CompleteInitializeSpec;
    RequestOnceExchange(w, c, "initialize");
    var (asked, r) := RequestOnceSpec(w, c, "initialize");
    if r.Ok? {
      CompleteExchange(w, asked, r.value);
      ExchangeTrans(c, asked, CompleteInitializeSpec(w, asked, r.value).0, 1, 1, 1, 0);
    }
  }

  lemma InitializeExchange(w: World, c: Client)
    ensures Exchange(c, InitializeSpec(w, c).0, 3, 2)
  {
    hide AcceptedVersion, Ids, IdsFrom, Advance, RequestOnceSpec, CompleteInitializeSpec, InitializeOnceSpec,
         Contains, LegacyUrl;
    RequestOnceExchange(w, c, "initialize");
    var (asked, r) := RequestOnceSpec(w, c, "initialize");
    var done := InitializeSpec(w, c).0;
    if r.Ok? {
      CompleteExchange(w, asked, r.value);
      ExchangeTrans(c, asked, done, 1, 1, 1, 0);
    } else if r.error.Unauthorized? {
      var (recovered, h) := HandleUnauthorizedSpec(w, asked);
      NoExchange(asked, recovered);
      InitializeOnceExchange(w, recovered);
      ExchangeTrans(c, asked, recovered, 1, 1, 0, 0);
      if h.Ok? {
        ExchangeTrans(c, recovered, done, 1, 1, 2, 1);
      }
    } else if SuggestsLegacy(r.error) {
      LegacyExchange(w, asked);
      ExchangeTrans(c, asked, done, 1, 1, 2, 1);
    }
  }

  lemma LegacyExchange(w: World, c: Client)
    ensures Exchange(c, TryLegacyHttpSseSpec(w, c).0, 2, 1)
  {
    hide AcceptedVersion, Ids, IdsFrom, Advance, InitializeOnceSpec, LegacyUrl;
    var asked := c.(gets := c.gets + 1);
    match LegacyUrl(w, w.gets(c.gets)) {
      case Err(_) => NoExchange(c, asked);
      case Ok(url) =>
        var moved := asked.(legacyMessageUrl := Some(url));
        NoExchange(c, moved);
        InitializeOnceExchange(w, moved);
        ExchangeTrans(c, moved, InitializeOnceSpec(w, moved).0, 0, 0, 2, 1);
    }
  }

  /**
   * Whatever the server answers, one request sends at most five POSTs with at most four
   * JSON-RPC ids, each id the next of the counter, and keeps to the accepted versions.
   */
  lemma RequestIsBounded(w: World, c: Client, name: string)
    ensures Exchange(c, RequestSpec(w, c, name).0, 5, 4)
  {
    hide AcceptedVersion, Ids, IdsFrom, Advance, RequestOnceSpec, InitializeSpec;
    RequestOnceExchange(w, c, name);
    var (asked, r) := RequestOnceSpec(w, c, name);
    var done := RequestSpec(w, c, name).0;
    if r == Err(SessionExpired) {
      var expired := asked.(sessionId := None);
      NoExchange(asked, expired);
      ExchangeTrans(c, asked, expired, 1, 1, 0, 0);
      InitializeExchange(w, expired);
      var (ready, i) := InitializeSpec(w, expired);
      ExchangeTrans(c, expired, ready, 1, 1, 3, 2);
      if i.Ok? {
        RequestOnceExchange(w, ready, name);
        ExchangeTrans(c, ready, done, 4, 3, 1, 1);
      }
    } else if r == Err(Unauthorized) {
      var (recovered, h) := HandleUnauthorizedSpec(w, asked);
      NoExchange(asked, recovered);
      ExchangeTrans(c, asked, recovered, 1, 1, 0, 0);
      if h.Ok? {
        RequestOnceExchange(w, recovered, name);
        ExchangeTrans(c, recovered, done, 1, 1, 1, 1);
      }
    }
  }

  /** Short of the wrap-around, the ids of one request are fresh and strictly increasing. */
  lemma RequestIdsIncrease(w: World, c: Client, name: string)
    requires c.nextId + 4 <= U64_MAX
    ensures var d := RequestSpec(w, c, name).0;
            && c.posts <= d.posts
            && var ids := Ids(d.posts[|c.posts|..]);
            && (forall i :: 0 <= i < |ids| ==> ids[i] == c.nextId + i) && d.nextId == c.nextId + |ids|
  {
    hide RequestSpec, Ids, IdsFrom, Advance, AcceptedVersion;
    RequestIsBounded(w, c, name);
    IdsIncrease(c.nextId, |Ids(RequestSpec(w, c, name).0.posts[|c.posts|..])|);
  }

  // ----- ids over a client's whole life

  /** What a caller may ask of a client. */
  datatype Call = Connect | Ask(name: string) | Tell(name: string)

  function Called(w: World, c: Client, call: Call): Client {
    match call
    case Connect => InitializeSpec(w, c).0
    case Ask(name) => RequestSpec(w, c, name).0
    case Tell(name) => NotifySpec(w, c, name).0
  }

  function RunCalls(w: World, c: Client, calls: seq<Call>): Client
    decreases |calls|
  {
    if calls == [] then c else RunCalls(w, Called(w, c, calls[0]), calls[1..])
  }

  /** All ids sent so far are different, in increasing order, and below the next one. */
  predicate IdsAreFresh(c: Client) {
    && (forall i, j :: 0 <= i < j < |Ids(c.posts)| ==> Ids(c.posts)[i] < Ids(c.posts)[j])
    && forall i :: 0 <= i < |Ids(c.posts)| ==> Ids(c.posts)[i] < c.nextId
  }

  lemma CallIsExchange(w: World, c: Client, call: Call)
    ensures Exchange(c, Called(w, c, call), 5, 4)
  {
    hide RequestSpec, InitializeSpec, NotifySpec, AcceptedVersion, Ids, IdsFrom, Advance;
    match call {
      case Connect => InitializeExchange(w, c);
      case Ask(name) => RequestIsBounded(w, c, name);
      case Tell(name) => NotifyExchange(w, c, name);
    }
  }

  lemma NotifyExchange(w: World, c: Client, name: string)
    ensures Exchange(c, NotifySpec(w, c, name).0, 1, 0)
  {
    hide AcceptedVersion, Ids, IdsFrom, Advance, HttpError;
    SendExchange(c, name, None);
  }

  lemma ExchangeKeepsFresh(c: Client, d: Client)
    requires Exchange(c, d, 5, 4) && IdsAreFresh(c) && c.nextId + 4 <= U64_MAX
    ensures IdsAreFresh(d) && Ids(c.posts) <= Ids(d.posts)
    ensures c.nextId <= d.nextId <= c.nextId + 4
  {
    hide AcceptedVersion, Ids, IdsFrom, Advance;
    var sent := d.posts[|c.posts|..];
    TakeDrop(d.posts, |c.posts|);
    assert d.posts[..|c.posts|] == c.posts;
    IdsConcat(c.posts, sent);
    assert Ids(d.posts) == Ids(c.posts) + Ids(sent);
    IdsIncrease(c.nextId, |Ids(sent)|);
  }

  /**
   * Over any sequence of connects, requests and notifications, whatever the server answers:
   * every id sent is greater than all ids sent before it, up to the wrap-around.
   */
  lemma {:induction false} IdsStayFresh(w: World, c: Client, calls: seq<Call>)
    requires IdsAreFresh(c) && c.nextId + 4 * |calls| <= U64_MAX
    ensures IdsAreFresh(RunCalls(w, c, calls)) && Ids(c.posts) <= Ids(RunCalls(w, c, calls).posts)
    decreases |calls|
  {
    hide Called, Exchange, IdsAreFresh, Ids;
    if calls != [] {
      var d := Called(w, c, calls[0]);
      CallIsExchange(w, c, calls[0]);
      ExchangeKeepsFresh(c, d);
      IdsStayFresh(w, d, calls[1..]);
    }
  }

  // ----- both bounds are reached

  const EMPTY_BODY: Body := Body("", Network((k: nat) => Stream([], Closed), (k: nat) => ResumeFailed), Some([]))

  const WORST: World := World(
    (n: nat) =>
      if n == 0 then Response(404, "Not Found", None, false, "", EMPTY_BODY)
      else if n == 1 then Response(401, "Unauthorized", None, false, "", EMPTY_BODY)
      else Response(200, "OK", None, false, "", EMPTY_BODY),
    (n: nat) => LegacyFailed,
    (n: nat) => true,
    true,
    data => None,
    bytes => Ok(Message(Some(Number(3)), None, None)),
    value => None,
    url => None)

  const HELD: Client := Client(Some("session"), MCP_PROTOCOL_VERSION, 1, None, [], 0, 0)

  lemma BoundsAreReached()
    ensures var d := RequestSpec(WORST, HELD, "tools/list").0;
            |d.posts| == 5 && Ids(d.posts) == [1, 2, 3, 4]
  {
    var w := WORST;
    assert Lossy([]) == "" && !LooksLikeSse("");
    EmptyBodyIsNoStream();
    assert BodyResult(w, 3, EMPTY_BODY) == Ok(Null);
    hide BodyResult, Ids, LegacyUrl;
    var (asked, r) := RequestOnceSpec(w, HELD, "tools/list");
    assert r == Err(SessionExpired);
    var (first, i) := RequestOnceSpec(w, asked.(sessionId := None), "initialize");
    assert i == Err(Unauthorized);
    var recovered := HandleUnauthorizedSpec(w, first).0;
    var (second, j) := RequestOnceSpec(w, recovered, "initialize");
    assert j == Ok(Null);
    var ready := CompleteInitializeSpec(w, second, Null).0;
    assert InitializeSpec(w, asked.(sessionId := None)) == (ready, Ok(()));
    var posts := RequestOnceSpec(w, ready, "tools/list").0.posts;
    assert |posts| == 5;
    assert posts[0].id == Some(1) && posts[1].id == Some(2) && posts[2].id == Some(3);
    assert posts[3].id == None && posts[4].id == Some(4);
    FiveIds(posts);
  }

  lemma EmptyBodyIsNoStream()
    ensures !NamesEventStream(LowerAscii(""))
  {
  }

  lemma FiveIds(posts: seq<Post>)
    requires |posts| == 5
    requires posts[0].id == Some(1) && posts[1].id == Some(2) && posts[2].id == Some(3)
    requires posts[3].id == None && posts[4].id == Some(4)
    ensures Ids(posts) == [1, 2, 3, 4]
  {
    assert Ids(posts[5..]) == [];
    assert posts[4..][1..] == posts[5..] && posts[3..][1..] == posts[4..];
    assert posts[2..][1..] == posts[3..] && posts[1..][1..] == posts[2..];
    assert Ids(posts[4..]) == [4] && Ids(posts[3..]) == [4] && Ids(posts[2..]) == [3, 4];
  }

  // ----- the legacy fallback

  lemma {:induction false} NoTargetNoAnswer(parse: ParseJson, events: seq<SseEvent>)
    ensures Scan(parse, None, events).Missing?
  {
    if events != [] {
      NoTargetNoAnswer(parse, events[1..]);
    }
  }

  /** What the only stream of a legacy GET gives when nothing goes wrong. */
  function LegacyEvents(net: Network): Option<seq<SseEvent>> {
    var all := Available(net, false, 0, 0);
    if all.end.Ok? then Some(all.events) else None
  }

  /**
   * The fallback finds a message URL if and only if the server answers with success and sends a
   * stream that it also closes, without overflow, and that holds an endpoint event whose data
   * joins to a URL. An endpoint event on a stream that stays open or breaks is never used.
   */
  lemma LegacyWorksIff(w: World, a: LegacyAnswer)
    ensures LegacyUrl(w, a).Ok? <==>
            && a.LegacyResponse? && IsSuccess(a.status)
            && LegacyEvents(a.net).Some?
            && EndpointData(LegacyEvents(a.net).value).Some?
            && w.joinUrl(Trim(EndpointData(LegacyEvents(a.net).value).value)).Some?
    ensures LegacyUrl(w, a).Ok? ==> a.net.streams(0).end == Closed
  {
    hide Read, Available, Trim, EndpointData, Scan;
    if a.LegacyResponse? {
      var all := Available(a.net, false, 0, 0);
      ReadIsReplyTo(a.net, w.parse, None, 0, 0, [], []);
      NoTargetNoAnswer(w.parse, all.events);
      assert [] + all.events == all.events;
      OneStreamMustClose(a.net);
    }
  }

  /** A stream that is not resumed has to be closed for its events to count. */
  lemma OneStreamMustClose(net: Network)
    ensures LegacyEvents(net).Some? ==> net.streams(0).end == Closed
  {
    hide Feed, Flush;
    var fed := Feed([], "", net.streams(0).chunks);
    assert Available(net, false, 0, 0).end == AvailableAfter(net, false, 0, fed, 0).end;
  }

  // ----- expired sessions

  lemma BodyNeverExpires(w: World, id: u64, body: Body)
    ensures BodyResult(w, id, body) != Err(SessionExpired)
  {
    hide Read, Scan, Drain, Lossy, EventsOf, FinalEvent, ByteLen;
    ReadNeverExpires(body.net, w.parse, Some(id), 0, 3, [], []);
    if body.data.Some? {
      var d := Drain(Lossy(body.data.value));
      ScanNeverExpires(w.parse, Some(id), EventsOf(d.blocks) + FinalEvents(d.rest));
    }
  }

  /** A request is told that its session expired exactly when the POST met a 404 with a session held. */
  lemma ExpiredIff(w: World, c: Client, name: string)
    ensures RequestOnceSpec(w, c, name).1 == Err(SessionExpired) <==>
            var a := w.posts(|c.posts|); a.Response? && a.status == 404 && c.sessionId.Some?
  {
    hide BodyResult;
    if w.posts(|c.posts|).Response? {
      BodyNeverExpires(w, c.nextId, w.posts(|c.posts|).body);
    }
  }

  /** No answer to these POSTs carries a session id. */
  ghost predicate NoSessionOffered(w: World) {
    forall n: nat :: w.posts(n).Response? ==> w.posts(n).session.None?
  }

  lemma StaysWithoutSession(w: World, c: Client, name: string)
    requires NoSessionOffered(w) && c.sessionId.None?
    ensures RequestOnceSpec(w, c, name).0.sessionId.None?
    ensures RequestOnceSpec(w, c, name).1 != Err(SessionExpired)
  {
    hide BodyResult;
    ExpiredIff(w, c, name);
  }

  /** With no session held and none offered, a request never reports an expired session. */
  lemma NoSessionNoExpiry(w: World, c: Client, name: string)
    requires NoSessionOffered(w) && c.sessionId.None?
    ensures RequestSpec(w, c, name).1 != Err(SessionExpired)
    ensures RequestSpec(w, c, name).0.sessionId.None?
  {
    hide RequestOnceSpec, NoSessionOffered;
    StaysWithoutSession(w, c, name);
    var (asked, r) := RequestOnceSpec(w, c, name);
    if r == Err(Unauthorized) {
      StaysWithoutSession(w, HandleUnauthorizedSpec(w, asked).0, name);
    }
  }

  /** An expired session is dropped before the client initializes again. */
  lemma ExpiryReinitializesWithoutSession(w: World, c: Client, name: string)
    requires RequestOnceSpec(w, c, name).1 == Err(SessionExpired)
    ensures var d := RequestSpec(w, c, name).0;
            var k := |c.posts|;
            && k + 1 < |d.posts|
            && d.posts[k].session == c.sessionId && d.posts[k].method_ == name
            && d.posts[k + 1].method_ == "initialize" && d.posts[k + 1].session.None?
  {
    hide AcceptedVersion, Ids, IdsFrom, Advance, BodyResult, InitializeSpec;
    var asked := RequestOnceSpec(w, c, name).0;
    var expired := asked.(sessionId := None);
    InitializeStarts(w, expired);
    var (ready, i) := InitializeSpec(w, expired);
    if i.Ok? {
      RequestOnceExchange(w, ready, name);
    }
  }

  lemma InitializeStarts(w: World, c: Client)
    ensures var d := InitializeSpec(w, c).0;
            |d.posts| > |c.posts| && c.posts <= d.posts
            && d.posts[|c.posts|].method_ == "initialize" && d.posts[|c.posts|].session == c.sessionId
  {
    hide AcceptedVersion, Ids, IdsFrom, Advance, BodyResult, CompleteInitializeSpec, InitializeOnceSpec,
         Contains, LegacyUrl, TryLegacyHttpSseSpec;
    var (asked, r) := RequestOnceSpec(w, c, "initialize");
    if r.Ok? {
      CompleteExchange(w, asked, r.value);
    } else if r.error.Unauthorized? {
      InitializeOnceExchange(w, HandleUnauthorizedSpec(w, asked).0);
    } else if SuggestsLegacy(r.error) {
      LegacyExchange(w, asked);
    }
  }

  /** The last POST asked for `name`, and its answer's body is read as `r`. */
  predicate IsLastAnswer(w: World, d: Client, name: string, r: Result<Value, Error>) {
    && d.posts != []
    && var last := d.posts[|d.posts| - 1]; var a := w.posts(|d.posts| - 1);
    && last.method_ == name && last.id.Some?
    && a.Response? && IsSuccess(a.status) && BodyResult(w, last.id.value, a.body) == r
  }

  lemma OnceIsLastAnswer(w: World, c: Client, name: string)
    requires RequestOnceSpec(w, c, name).1.Ok?
    ensures IsLastAnswer(w, RequestOnceSpec(w, c, name).0, name, RequestOnceSpec(w, c, name).1)
  {
    hide BodyResult;
  }

  /** A value comes from the answer to the last POST, which is a POST of the method asked for. */
  lemma ValueIsLastAnswer(w: World, c: Client, name: string)
    requires RequestSpec(w, c, name).1.Ok?
    ensures IsLastAnswer(w, RequestSpec(w, c, name).0, name, RequestSpec(w, c, name).1)
  {
    hide BodyResult, RequestOnceSpec, InitializeSpec, IsLastAnswer;
    var (asked, r) := RequestOnceSpec(w, c, name);
    if r == Err(SessionExpired) {
      OnceIsLastAnswer(w, InitializeSpec(w, asked.(sessionId := None)).0, name);
    } else if r == Err(Unauthorized) {
      OnceIsLastAnswer(w, HandleUnauthorizedSpec(w, asked).0, name);
    } else {
      OnceIsLastAnswer(w, c, name);
    }
  }
}
