/**
 * The session id and the protocol version on every POST of a client, over its whole life, told
 * by the POSTs before it and the answers they met.
 */
module ClientHeaders {
  import opened Common
  import opened SseRead
  import opened HttpClient
  import opened SessionRecovery

  const FRESH: Client := Client(None, "2025-11-25", 1, None, [], 0, 0)

  predicate IsOk(a: HttpAnswer) {
    a.Response? && 200 <= a.status < 300
  }

  // ----- which POSTs are a request's own

  /** The POSTs that open a request: the first of every `Ask`. */
  function Openings(w: World, c: Client, calls: seq<Call>): set<nat>
    decreases |calls|
  {
    if calls == [] then {}
    else (if calls[0].Ask? then {|c.posts|} else {}) + Openings(w, Called(w, c, calls[0]), calls[1..])
  }

  /** The first and the last POST of every `Ask`: their answers are the caller's. */
  function OwnPosts(w: World, c: Client, calls: seq<Call>): set<nat>
    decreases |calls|
  {
    if calls == [] then {}
    else
      var d := Called(w, c, calls[0]);
      (if calls[0].Ask? then {|c.posts|, SatSub(|d.posts|, 1)} else {}) + OwnPosts(w, d, calls[1..])
  }

  // ----- the session id

  /** The session id that the answer to POST `i` offers: a 2xx answer to a POST with an id. */
  function Offer(w: World, posts: seq<Post>, i: nat): Option<string> {
    if i < |posts| && posts[i].id.Some? && IsOk(w.posts(i)) then w.posts(i).session else None
  }

  /** A 404 to the POST that opened a request. */
  predicate Forgets(w: World, openings: set<nat>, i: nat) {
    i in openings && w.posts(i).Response? && w.posts(i).status == 404
  }

  function SessionAt(w: World, posts: seq<Post>, openings: set<nat>, i: nat): Option<string> {
    if i == 0 then None
    else if Offer(w, posts, i - 1).Some? then Offer(w, posts, i - 1)
    else if Forgets(w, openings, i - 1) then None
    else SessionAt(w, posts, openings, i - 1)
  }

  /** `s` was offered at `j`, and nothing since then offered another id or made the client forget. */
  predicate HeldSince(w: World, posts: seq<Post>, openings: set<nat>, i: nat, j: nat, s: string) {
    && j < i && Offer(w, posts, j) == Some(s)
    && forall k: nat :: j < k < i ==> Offer(w, posts, k).None? && !Forgets(w, openings, k)
  }

  lemma HeldNext(w: World, posts: seq<Post>, openings: set<nat>, i: nat, j: nat, s: string)
    ensures HeldSince(w, posts, openings, i + 1, j, s) <==>
            if j == i then Offer(w, posts, i) == Some(s)
            else Offer(w, posts, i).None? && !Forgets(w, openings, i) && HeldSince(w, posts, openings, i, j, s)
  {
    hide Offer, Forgets;
  }

  /** Holding a session id means that it was offered and that nothing has replaced or ended it since. */
  lemma {:induction false} SessionAtIff(w: World, posts: seq<Post>, openings: set<nat>, i: nat, s: string)
    ensures SessionAt(w, posts, openings, i) == Some(s) <==>
            exists j: nat :: HeldSince(w, posts, openings, i, j, s)
  {
    hide Offer, Forgets, HeldSince;
    if i == 0 {
      NothingHeldYet(w, posts, openings, s);
    } else {
      SessionNext(w, posts, openings, i - 1);
      SessionAtIff(w, posts, openings, i - 1, s);
      forall j: nat
        ensures HeldSince(w, posts, openings, i, j, s) <==>
                if j == i - 1 then Offer(w, posts, i - 1) == Some(s)
                else Offer(w, posts, i - 1).None? && !Forgets(w, openings, i - 1)
                     && HeldSince(w, posts, openings, i - 1, j, s)
      {
        HeldNext(w, posts, openings, i - 1, j, s);
      }
      hide SessionAt;
      if SessionAt(w, posts, openings, i) == Some(s) {
        if Offer(w, posts, i - 1).Some? {
          assert HeldSince(w, posts, openings, i, i - 1, s);
        } else {
          var j: nat :| HeldSince(w, posts, openings, i - 1, j, s);
          HeldBefore(w, posts, openings, i - 1, j, s);
          assert HeldSince(w, posts, openings, i, j, s);
        }
      }
      if j: nat :| HeldSince(w, posts, openings, i, j, s) {
        assert j != i - 1 ==> HeldSince(w, posts, openings, i - 1, j, s);
      }
    }
  }

  lemma HeldBefore(w: World, posts: seq<Post>, openings: set<nat>, i: nat, j: nat, s: string)
    requires HeldSince(w, posts, openings, i, j, s)
    ensures j < i
  {
  }

  lemma NothingHeldYet(w: World, posts: seq<Post>, openings: set<nat>, s: string)
    ensures forall j: nat :: !HeldSince(w, posts, openings, 0, j, s)
  {
  }

  // ----- the protocol version

  predicate Known(v: string) {
    v == "2025-11-25" || v == "2025-06-18" || v == "2025-03-26"
  }

  /** The version that the answer to POST `i` settles: a known one, named in the value of an `initialize`. */
  function Settled(w: World, posts: seq<Post>, own: set<nat>, i: nat): Option<string> {
    if i < |posts| && i !in own && posts[i].method_ == "initialize" && posts[i].id.Some? && IsOk(w.posts(i)) then
      match BodyResult(w, posts[i].id.value, w.posts(i).body)
      case Err(_) => None
      case Ok(value) =>
        var v := w.protocolVersion(value);
        if v.Some? && Known(v.value) then v else None
    else None
  }

  function VersionAt(w: World, posts: seq<Post>, own: set<nat>, i: nat): string {
    if i == 0 then "2025-11-25"
    else if Settled(w, posts, own, i - 1).Some? then Settled(w, posts, own, i - 1).value
    else VersionAt(w, posts, own, i - 1)
  }

  /** `v` was settled at `j` and no other version since. */
  predicate SettledSince(w: World, posts: seq<Post>, own: set<nat>, i: nat, j: nat, v: string) {
    && j < i && Settled(w, posts, own, j) == Some(v)
    && forall k: nat :: j < k < i ==> Settled(w, posts, own, k).None?
  }

  /** The last version that was settled, or the client's own when none was. */
  ghost predicate LastSettled(w: World, posts: seq<Post>, own: set<nat>, i: nat, v: string) {
    || (exists j: nat :: SettledSince(w, posts, own, i, j, v))
    || (v == "2025-11-25" && forall j: nat :: j < i ==> Settled(w, posts, own, j).None?)
  }

  lemma {:induction false} VersionIsLastSettled(w: World, posts: seq<Post>, own: set<nat>, i: nat)
    ensures LastSettled(w, posts, own, i, VersionAt(w, posts, own, i))
  {
    hide Settled;
    if i > 0 {
      var before: nat := i - 1;
      VersionIsLastSettled(w, posts, own, before);
      var v := VersionAt(w, posts, own, i);
      if Settled(w, posts, own, i - 1).Some? {
        assert SettledSince(w, posts, own, i, i - 1, v);
      } else if j: nat :| SettledSince(w, posts, own, before, j, v) {
        assert SettledSince(w, posts, own, i, j, v);
      }
    }
  }

  // ----- what every client keeps

  /** The headers of POST `i` are those the history up to it gives. */
  predicate HeadersFit(w: World, posts: seq<Post>, openings: set<nat>, own: set<nat>, i: nat)
    requires i < |posts|
  {
    && posts[i].session == SessionAt(w, posts, openings, i)
    && posts[i].version == (if posts[i].method_ == "initialize" && posts[i].session.None? && !posts[i].legacy then None
                            else Some(VersionAt(w, posts, own, i)))
  }

  /** All POSTs fit, and so do the fields that the next one is made from. */
  predicate Tracks(w: World, c: Client, session: Option<string>, version: string, openings: set<nat>, own: set<nat>) {
    && (forall i :: 0 <= i < |c.posts| ==> HeadersFit(w, c.posts, openings, own, i))
    && session == SessionAt(w, c.posts, openings, |c.posts|)
    && version == VersionAt(w, c.posts, own, |c.posts|)
  }

  predicate Keeps(w: World, c: Client, openings: set<nat>, own: set<nat>) {
    Tracks(w, c, c.sessionId, c.protocolVersion, openings, own)
  }

  lemma {:induction false} OnlyTheFirst(w: World, posts: seq<Post>, more: seq<Post>, openings: set<nat>,
                                        own: set<nat>, openings': set<nat>, own': set<nat>, i: nat)
    requires i <= |posts|
    requires forall k: nat :: k < i ==> (k in openings <==> k in openings')
    requires forall k: nat :: k < i ==> ((k in own <==> k in own') || Settled(w, posts, {}, k).None?)
    ensures SessionAt(w, posts + more, openings', i) == SessionAt(w, posts, openings, i)
    ensures VersionAt(w, posts + more, own', i) == VersionAt(w, posts, own, i)
  {
    hide BodyResult;
    if i > 0 {
      OnlyTheFirst(w, posts, more, openings, own, openings', own', i - 1);
      assert (posts + more)[i - 1] == posts[i - 1];
      assert Settled(w, posts, {}, i - 1).None? ==> Settled(w, posts, own, i - 1).None?;
    }
  }

  /** Headers only look back: later POSTs, and marks that make no difference, do not matter. */
  lemma HeadersStay(w: World, c: Client, d: Client, session: Option<string>, version: string, openings: set<nat>,
                    own: set<nat>, openings': set<nat>, own': set<nat>)
    requires Tracks(w, c, session, version, openings, own) && d.posts == c.posts
    requires forall k: nat :: k < |c.posts| ==> (k in openings <==> k in openings')
    requires forall k: nat :: k < |c.posts| ==> ((k in own <==> k in own') || Settled(w, c.posts, {}, k).None?)
    ensures Tracks(w, d, session, version, openings', own')
  {
    hide Settled, SessionAt, VersionAt;
    assert c.posts + [] == c.posts;
    forall i | 0 <= i <= |c.posts|
      ensures SessionAt(w, c.posts, openings', i) == SessionAt(w, c.posts, openings, i)
      ensures VersionAt(w, c.posts, own', i) == VersionAt(w, c.posts, own, i)
    {
      OnlyTheFirst(w, c.posts, [], openings, own, openings', own', i);
    }
    forall i | 0 <= i < |c.posts|
      ensures HeadersFit(w, c.posts, openings', own', i)
    {
      assert HeadersFit(w, c.posts, openings, own, i);
    }
  }

  /** One more POST, made from the fields: it fits, and its answer says what the fields should be next. */
  lemma SendKeeps(w: World, c: Client, name: string, id: Option<u64>, openings: set<nat>, own: set<nat>)
    requires Keeps(w, c, openings, own)
    ensures var d := Send(c, name, id); var k := |c.posts|;
            && |d.posts| == k + 1
            && Tracks(w, d,
                      if Offer(w, d.posts, k).Some? then Offer(w, d.posts, k)
                      else if Forgets(w, openings, k) then None else c.sessionId,
                      if Settled(w, d.posts, own, k).Some? then Settled(w, d.posts, own, k).value
                      else c.protocolVersion,
                      openings, own)
  {
    hide Settled, Offer, Forgets;
    var d, k := Send(c, name, id), |c.posts|;
    forall i | 0 <= i <= k
      ensures SessionAt(w, d.posts, openings, i) == SessionAt(w, c.posts, openings, i)
      ensures VersionAt(w, d.posts, own, i) == VersionAt(w, c.posts, own, i)
    {
      OnlyTheFirst(w, c.posts, d.posts[k..], openings, own, openings, own, i);
      assert c.posts + d.posts[k..] == d.posts;
    }
    hide SessionAt, VersionAt;
    SessionNext(w, d.posts, openings, k);
    VersionNext(w, d.posts, own, k);
    forall i | 0 <= i <= k
      ensures HeadersFit(w, d.posts, openings, own, i)
    {
      if i < k {
        assert d.posts[i] == c.posts[i] && HeadersFit(w, c.posts, openings, own, i);
      }
    }
  }

  lemma SessionNext(w: World, posts: seq<Post>, openings: set<nat>, k: nat)
    ensures SessionAt(w, posts, openings, k + 1) ==
            if Offer(w, posts, k).Some? then Offer(w, posts, k)
            else if Forgets(w, openings, k) then None else SessionAt(w, posts, openings, k)
  {
  }

  lemma VersionNext(w: World, posts: seq<Post>, own: set<nat>, k: nat)
    ensures VersionAt(w, posts, own, k + 1) ==
            if Settled(w, posts, own, k).Some? then Settled(w, posts, own, k).value else VersionAt(w, posts, own, k)
  {
    hide Settled;
  }

  // ----- every exchange keeps the headers

  predicate IsNotFound(w: World, k: nat) {
    w.posts(k).Response? && w.posts(k).status == 404
  }

  /** What the answer to the POST of one request does to the client. */
  lemma OnceKeeps(w: World, c: Client, name: string, openings: set<nat>, own: set<nat>)
    requires Keeps(w, c, openings, own)
    ensures var (d, r) := RequestOnceSpec(w, c, name); var k := |c.posts|;
            && |d.posts| == k + 1
            && Tracks(w, d, if k in openings && IsNotFound(w, k) then None else d.sessionId,
                      if Settled(w, d.posts, own, k).Some? then Settled(w, d.posts, own, k).value
                      else c.protocolVersion,
                      openings, own)
            && d.protocolVersion == c.protocolVersion
            && d.posts[k].method_ == name && d.posts[k].id.Some?
            && (r == Err(SessionExpired) <==> IsNotFound(w, k) && c.sessionId.Some?)
            && (k in openings && IsNotFound(w, k) && r != Err(SessionExpired) ==> d.sessionId.None?)
            && Settled(w, d.posts, {}, k) ==
               if name == "initialize" && r.Ok? && w.protocolVersion(r.value).Some?
                  && Known(w.protocolVersion(r.value).value)
               then w.protocolVersion(r.value) else None
  {
    hide BodyResult, SessionAt, VersionAt, HttpError;
    var id := c.nextId;
    var asked := c.(nextId := NextId(id));
    HeadersStay(w, c, asked, c.sessionId, c.protocolVersion, openings, own, openings, own);
    SendKeeps(w, asked, name, Some(id), openings, own);
    ExpiredIff(w, c, name);
  }

  /** All marked POSTs have been sent. */
  predicate Behind(c: Client, marks: set<nat>) {
    forall k :: k in marks ==> k < |c.posts|
  }

  lemma NotifyKeeps(w: World, c: Client, name: string, openings: set<nat>, own: set<nat>)
    requires Keeps(w, c, openings, own) && Behind(c, openings)
    ensures var d := NotifySpec(w, c, name).0;
            && Keeps(w, d, openings, own) && |d.posts| == |c.posts| + 1
            && Settled(w, d.posts, {}, |c.posts|).None?
  {
    hide BodyResult, SessionAt, VersionAt, HttpError;
    SendKeeps(w, c, name, None, openings, own);
    HeadersStay(w, Send(c, name, None), NotifySpec(w, c, name).0, c.sessionId, c.protocolVersion, openings, own,
                openings, own);
  }

  /** After the answer to an `initialize`: the version it settles is taken over. */
  lemma CompleteKeeps(w: World, c: Client, result: Value, openings: set<nat>, own: set<nat>)
    requires var v := w.protocolVersion(result);
             Tracks(w, c, c.sessionId, if v.Some? && Known(v.value) then v.value else c.protocolVersion, openings, own)
    requires Behind(c, openings)
    requires w.protocolVersion(result).Some? && !Known(w.protocolVersion(result).value) ==>
               c.posts != [] && Settled(w, c.posts, {}, |c.posts| - 1).None?
    ensures var (d, r) := CompleteInitializeSpec(w, c, result);
            && Keeps(w, d, openings, own) && |d.posts| >= |c.posts|
            && (r.Err? ==> d.posts != [] && Settled(w, d.posts, {}, |d.posts| - 1).None?)
  {
    hide BodyResult, SessionAt, VersionAt, NotifySpec, Settled;
    var (applied, r) := ApplyInitializeResultSpec(w, c, result);
    HeadersStay(w, c, applied, c.sessionId, applied.protocolVersion, openings, own, openings, own);
    if r.Ok? {
      NotifyKeeps(w, applied, "notifications/initialized", openings, own);
    }
  }

  lemma InitializeOnceKeeps(w: World, c: Client, openings: set<nat>, own: set<nat>)
    requires Keeps(w, c, openings, own) && Behind(c, openings) && Behind(c, own)
    ensures var (d, r) := InitializeOnceSpec(w, c);
            && Keeps(w, d, openings, own) && |d.posts| > |c.posts|
            && (r.Err? ==> Settled(w, d.posts, {}, |d.posts| - 1).None?)
  {
    hide BodyResult, SessionAt, VersionAt, RequestOnceSpec, CompleteInitializeSpec, HeadersFit;
    OnceKeeps(w, c, "initialize", openings, own);
    var (asked, r) := RequestOnceSpec(w, c, "initialize");
    var k := |c.posts|;
    assert Settled(w, asked.posts, own, k) == Settled(w, asked.posts, {}, k);
    hide Settled;
    if r.Ok? {
      CompleteKeeps(w, asked, r.value, openings, own);
    }
  }

  lemma LegacyKeeps(w: World, c: Client, openings: set<nat>, own: set<nat>)
    requires Keeps(w, c, openings, own) && Behind(c, openings) && Behind(c, own)
    requires c.posts != [] && Settled(w, c.posts, {}, |c.posts| - 1).None?
    ensures var (d, r) := TryLegacyHttpSseSpec(w, c);
            && Keeps(w, d, openings, own) && |d.posts| >= |c.posts|
            && (r.Err? ==> d.posts != [] && Settled(w, d.posts, {}, |d.posts| - 1).None?)
  {
    hide SessionAt, VersionAt, InitializeOnceSpec, HeadersFit, LegacyUrl, Settled;
    var asked := c.(gets := c.gets + 1);
    HeadersStay(w, c, asked, c.sessionId, c.protocolVersion, openings, own, openings, own);
    match LegacyUrl(w, w.gets(c.gets)) {
      case Err(_) =>
      case Ok(url) =>
        var moved := asked.(legacyMessageUrl := Some(url));
        HeadersStay(w, c, moved, c.sessionId, c.protocolVersion, openings, own, openings, own);
        InitializeOnceKeeps(w, moved, openings, own);
    }
  }

  lemma InitializeKeeps(w: World, c: Client, openings: set<nat>, own: set<nat>)
    requires Keeps(w, c, openings, own) && Behind(c, openings) && Behind(c, own)
    ensures var (d, r) := InitializeSpec(w, c);
            && Keeps(w, d, openings, own) && |d.posts| > |c.posts|
            && (r.Err? ==> Settled(w, d.posts, {}, |d.posts| - 1).None?)
  {
    hide BodyResult, SessionAt, VersionAt, RequestOnceSpec, CompleteInitializeSpec, InitializeOnceSpec, HeadersFit,
         TryLegacyHttpSseSpec, SuggestsLegacy;
    OnceKeeps(w, c, "initialize", openings, own);
    var (asked, r) := RequestOnceSpec(w, c, "initialize");
    var k := |c.posts|;
    assert Settled(w, asked.posts, own, k) == Settled(w, asked.posts, {}, k);
    hide Settled;
    if r.Ok? {
      CompleteKeeps(w, asked, r.value, openings, own);
    } else if r.error.Unauthorized? {
      var (recovered, h) := HandleUnauthorizedSpec(w, asked);
      HeadersStay(w, asked, recovered, asked.sessionId, asked.protocolVersion, openings, own, openings, own);
      if h.Ok? {
        InitializeOnceKeeps(w, recovered, openings, own);
      }
    } else if SuggestsLegacy(r.error) {
      LegacyKeeps(w, asked, openings, own);
    }
  }

  /** The retry of a request: its own POST, which settles no version. */
  lemma RetryKeeps(w: World, c: Client, name: string, openings: set<nat>, own: set<nat>)
    requires Keeps(w, c, openings, own) && Behind(c, openings) && Behind(c, own)
    ensures var d := RequestOnceSpec(w, c, name).0;
            |d.posts| == |c.posts| + 1 && Keeps(w, d, openings, own + {|c.posts|})
  {
    hide BodyResult, SessionAt, VersionAt, RequestOnceSpec, HeadersFit;
    HeadersStay(w, c, c, c.sessionId, c.protocolVersion, openings, own, openings, own + {|c.posts|});
    OnceKeeps(w, c, name, openings, own + {|c.posts|});
  }

  /** The first POST of a request. */
  lemma OpeningKeeps(w: World, c: Client, name: string, openings: set<nat>, own: set<nat>)
    requires Keeps(w, c, openings, own) && Behind(c, openings) && Behind(c, own)
    ensures var (d, r) := RequestOnceSpec(w, c, name); var k := |c.posts|;
            && |d.posts| == k + 1
            && Keeps(w, if r == Err(SessionExpired) then d.(sessionId := None) else d, openings + {k}, own + {k})
  {
    hide BodyResult, SessionAt, VersionAt, RequestOnceSpec, HeadersFit;
    var k := |c.posts|;
    HeadersStay(w, c, c, c.sessionId, c.protocolVersion, openings, own, openings + {k}, own + {k});
    OnceKeeps(w, c, name, openings + {k}, own + {k});
    var (d, r) := RequestOnceSpec(w, c, name);
    if r == Err(SessionExpired) {
      HeadersStay(w, d, d.(sessionId := None), None, c.protocolVersion, openings + {k}, own + {k},
                  openings + {k}, own + {k});
    }
  }

  lemma AskKeeps(w: World, c: Client, name: string, openings: set<nat>, own: set<nat>)
    requires Keeps(w, c, openings, own) && Behind(c, openings) && Behind(c, own)
    ensures var d := RequestSpec(w, c, name).0;
            && |d.posts| > |c.posts|
            && Keeps(w, d, openings + {|c.posts|}, own + {|c.posts|, |d.posts| - 1})
  {
    hide BodyResult, SessionAt, VersionAt, RequestOnceSpec, InitializeSpec, HeadersFit, Settled, Keeps;
    var k := |c.posts|;
    var marked, mine := openings + {k}, own + {k};
    OpeningKeeps(w, c, name, openings, own);
    var (asked, r) := RequestOnceSpec(w, c, name);
    var d := RequestSpec(w, c, name).0;
    if r == Err(SessionExpired) {
      InitializeKeeps(w, asked.(sessionId := None), marked, mine);
      var (ready, i) := InitializeSpec(w, asked.(sessionId := None));
      if i.Ok? {
        RetryKeeps(w, ready, name, marked, mine);
        assert mine + {|ready.posts|} == own + {k, |d.posts| - 1};
      } else {
        MarkUnsettled(w, ready, marked, mine);
        assert mine + {|ready.posts| - 1} == own + {k, |d.posts| - 1};
      }
    } else if r == Err(Unauthorized) {
      var (recovered, h) := HandleUnauthorizedSpec(w, asked);
      SameHeaders(w, asked, recovered, marked, mine);
      if h.Ok? {
        RetryKeeps(w, recovered, name, marked, mine);
        assert mine + {|recovered.posts|} == own + {k, |d.posts| - 1};
      } else {
        assert mine == own + {k, |d.posts| - 1};
      }
    } else {
      assert mine == own + {k, |d.posts| - 1};
    }
  }

  lemma MarkUnsettled(w: World, c: Client, openings: set<nat>, own: set<nat>)
    requires Keeps(w, c, openings, own) && c.posts != [] && Settled(w, c.posts, {}, |c.posts| - 1).None?
    ensures Keeps(w, c, openings, own + {|c.posts| - 1})
  {
    hide Settled, SessionAt, VersionAt, HeadersFit;
    HeadersStay(w, c, c, c.sessionId, c.protocolVersion, openings, own, openings, own + {|c.posts| - 1});
  }

  lemma SameHeaders(w: World, c: Client, d: Client, openings: set<nat>, own: set<nat>)
    requires Keeps(w, c, openings, own)
    requires d.posts == c.posts && d.sessionId == c.sessionId && d.protocolVersion == c.protocolVersion
    ensures Keeps(w, d, openings, own)
  {
  }

  // ----- over a client's whole life

  lemma CallKeeps(w: World, c: Client, call: Call, openings: set<nat>, own: set<nat>)
    requires Keeps(w, c, openings, own) && Behind(c, openings) && Behind(c, own)
    ensures var d := Called(w, c, call);
            && |d.posts| > |c.posts|
            && Keeps(w, d, openings + (if call.Ask? then {|c.posts|} else {}),
                     own + (if call.Ask? then {|c.posts|, SatSub(|d.posts|, 1)} else {}))
  {
    hide RequestSpec, InitializeSpec, NotifySpec, Keeps, Settled;
    assert openings + {} == openings && own + {} == own;
    match call {
      case Connect => InitializeKeeps(w, c, openings, own);
      case Ask(name) => AskKeeps(w, c, name, openings, own);
      case Tell(name) => NotifyKeeps(w, c, name, openings, own);
    }
  }

  lemma {:induction false} RunKeeps(w: World, c: Client, calls: seq<Call>, openings: set<nat>, own: set<nat>)
    requires Keeps(w, c, openings, own) && Behind(c, openings) && Behind(c, own)
    ensures Keeps(w, RunCalls(w, c, calls), openings + Openings(w, c, calls), own + OwnPosts(w, c, calls))
    decreases |calls|
  {
    hide Called, Keeps;
    if calls == [] {
      assert openings + {} == openings && own + {} == own;
    } else {
      var call, d := calls[0], Called(w, c, calls[0]);
      CallKeeps(w, c, call, openings, own);
      var marked := if call.Ask? then {|c.posts|} else {};
      var mine := if call.Ask? then {|c.posts|, SatSub(|d.posts|, 1)} else {};
      RunKeeps(w, d, calls[1..], openings + marked, own + mine);
      assert openings + marked + Openings(w, d, calls[1..]) == openings + (marked + Openings(w, d, calls[1..]));
      assert own + mine + OwnPosts(w, d, calls[1..]) == own + (mine + OwnPosts(w, d, calls[1..]));
    }
  }

  /**
   * Over any calls of a fresh client, whatever the server answers. The session id on a POST is
   * the one that was last offered in a 2xx answer to a POST with an id, unless a request was
   * opened and met a 404 since. The version on it is the last known one that an `initialize`
   * of the client's own settled, or the client's; it is left out of an `initialize` that
   * carries no session id and goes to the first URL.
   */
  lemma HeadersAreTold(w: World, calls: seq<Call>, i: nat)
    requires i < |RunCalls(w, FRESH, calls).posts|
    ensures var posts := RunCalls(w, FRESH, calls).posts;
            && (forall s :: posts[i].session == Some(s) <==>
                  exists j: nat :: HeldSince(w, posts, Openings(w, FRESH, calls), i, j, s))
            && (posts[i].version.None? <==>
                posts[i].method_ == "initialize" && posts[i].session.None? && !posts[i].legacy)
            && (posts[i].version.Some? ==>
                  LastSettled(w, posts, OwnPosts(w, FRESH, calls), i, posts[i].version.value))
  {
    hide RunCalls, Openings, OwnPosts, SessionAt, VersionAt, HeldSince, LastSettled;
    var posts := RunCalls(w, FRESH, calls).posts;
    var openings, own := Openings(w, FRESH, calls), OwnPosts(w, FRESH, calls);
    FreshKeeps(w);
    RunKeeps(w, FRESH, calls, {}, {});
    assert {} + openings == openings && {} + own == own;
    assert HeadersFit(w, posts, openings, own, i);
    forall s
      ensures posts[i].session == Some(s) <==> exists j: nat :: HeldSince(w, posts, openings, i, j, s)
    {
      SessionAtIff(w, posts, openings, i, s);
    }
    VersionIsLastSettled(w, posts, own, i);
  }

  lemma FreshKeeps(w: World)
    ensures Keeps(w, FRESH, {}, {})
  {
  }
}
