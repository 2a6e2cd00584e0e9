/**
 * The incremental UTF-8 decoder in front of the SSE parser: bytes arrive in pieces
 * cut anywhere, and an incomplete sequence waits in `pending` for its other bytes.
 */
module Utf8Stream {
  import opened Common
  import opened Utf8

  /**
   * The text one call yields for its whole input. `afterText` says that the last thing
   * decoded in this call was a well-formed character: only then is a maximal subpart
   * replaced as one piece; anywhere else it is replaced byte by byte.
   */
  function Decoded(b: bytes, afterText: bool): string {
    if b == [] then ""
    else match FirstUnit(b)
      case Full(n, c) => [c] + Decoded(b[n..], true)
      case Bad(n) => [REPLACEMENT] + Decoded(b[if afterText then n else 1..], false)
      case Short => ""
  }

  /** The text all calls yield together, and what is pending after them. */
  function PushAll(pending: bytes, chunks: seq<bytes>): (string, bytes)
    decreases |chunks|
  {
    if chunks == [] then ("", pending)
    else
      var input := pending + chunks[0];
      var (text, last) := PushAll(Unfinished(input), chunks[1..]);
      (Decoded(input, false) + text, last)
  }

  /** A decoder's whole output: every `push`, then `finish`. */
  function StreamText(chunks: seq<bytes>): string {
    PushAll([], chunks).0 + Lossy(PushAll([], chunks).1)
  }

  class Utf8StreamDecoder {
    var pending: bytes

    /** Only a proper prefix of a well-formed sequence ever waits, so at most three bytes. */
    ghost predicate Valid()
      reads this
    {
      (pending == [] || FirstUnit(pending).Short?) && |pending| <= 3
    }

    constructor ()
      ensures Valid() && pending == []
    {
      pending := [];
    }

    method Push(chunk: bytes) returns (r: Result<string, string>)
      requires Valid()
      modifies this
      ensures Valid()
      ensures r == Ok(Decoded(old(pending) + chunk, false))
      ensures pending == Unfinished(old(pending) + chunk)
    {
      if pending == [] {
        assert pending + chunk == chunk;
        r, pending := DecodeCompletePrefix(chunk, pending);
      } else {
        var owned := pending + chunk;
        pending := [];
        r, pending := DecodeCompletePrefix(owned, pending);
      }
      UnfinishedIsShortSuffix(old(pending) + chunk);
    }

    method Finish() returns (text: string)
      requires Valid()
      modifies this
      ensures Valid() && pending == []
      ensures text == Lossy(old(pending))
      ensures text == if old(pending) == [] then "" else [REPLACEMENT]
    {
      if pending == [] {
        return "";
      }
      text := Lossy(pending);
      pending := [];
    }
  }

  /**
   * Decodes as much of `input` as is decided, and appends what is not to `pending`. It
   * recurses on what follows each error, and its internal error never arises.
   */
  method DecodeCompletePrefix(input: bytes, pending: bytes) returns (r: Result<string, string>, pending': bytes)
    ensures r == Ok(Decoded(input, false))
    ensures pending' == pending + Unfinished(input)
    decreases |input|
  {
    hide FirstUnit, FromUtf8, Decoded, Unfinished, Lossy, Settled;
    pending' := pending;
    match FromUtf8(input)
    case Valid(text) =>
      DecodedOfValid(input);
      return Ok(text), pending';
    case Invalid(validUpTo, errorLen) =>
      DecodedAtError(input);
      if validUpTo == 0 && errorLen.Some? {
        var inner: Result<string, string>;
        inner, pending' := DecodeCompletePrefix(input[1..], pending');
        assert "" + ([REPLACEMENT] + inner.value) == [REPLACEMENT] + inner.value;
        return Ok([REPLACEMENT] + inner.value), pending';
      }
      var valid, incomplete := input[..validUpTo], input[validUpTo..];
      var text := FromUtf8(valid);
      if errorLen.None? {
        pending' := pending' + incomplete;
        if text.Invalid? {
          return Err("internal UTF-8 decode error"), pending';
        }
        return Ok(text.text), pending';
      }
      if text.Invalid? {
        return Err("internal UTF-8 decode error"), pending';
      }
      var badLen := errorLen.value;
      var inner: Result<string, string>;
      inner, pending' := DecodeCompletePrefix(input[validUpTo + badLen..], pending');
      return Ok(text.text + ([REPLACEMENT] + inner.value)), pending';
  }

  // ----- one call

  lemma UnfoldDecoded(b: bytes, afterText: bool)
    ensures b == [] ==> Decoded(b, afterText) == ""
    ensures b != [] && FirstUnit(b).Short? ==> Decoded(b, afterText) == ""
    ensures b != [] && FirstUnit(b).Full? ==>
              Decoded(b, afterText) == [FirstUnit(b).c] + Decoded(b[FirstUnit(b).len..], true)
    ensures b != [] && FirstUnit(b).Bad? ==>
              Decoded(b, afterText) ==
              [REPLACEMENT] + Decoded(b[if afterText then FirstUnit(b).len else 1..], false)
  {
  }

  lemma {:induction false} DecodedFront(s: string, rest: bytes, afterText: bool)
    ensures Decoded(EncodeAll(s) + rest, afterText) == s + Decoded(rest, afterText || s != "")
  {
    hide Encode, FirstUnit, Decoded, Lossy, Settled;
    if s == "" {
      assert EncodeAll(s) + rest == rest;
    } else {
      var tail := EncodeAll(s[1..]) + rest;
      Assoc(Encode(s[0]), EncodeAll(s[1..]), rest);
      EncodeIsUnit(s[0], tail);
      UnfoldDecoded(Encode(s[0]) + tail, afterText);
      assert (Encode(s[0]) + tail)[|Encode(s[0])|..] == tail;
      DecodedFront(s[1..], rest, true);
      HeadTail(s);
      Assoc([s[0]], s[1..], Decoded(rest, true));
    }
  }

  lemma DecodedOfValid(b: bytes)
    requires FromUtf8(b).Valid?
    ensures Decoded(b, false) == FromUtf8(b).text && Unfinished(b) == []
  {
    hide FirstUnit, FromUtf8, Decoded, Unfinished, EncodeAll, Lossy, Settled;
    var s := FromUtf8(b).text;
    ValidIsEncoding(b);
    assert EncodeAll(s) + [] == b;
    DecodedFront(s, [], false);
    UnfoldDecoded([], s != "");
    LossyRoundTrip(s);
  }

  /** Everything before the error decodes as text, in front of what the rest decodes to. */
  lemma DecodedUpToError(b: bytes)
    requires FromUtf8(b).Invalid?
    ensures var e := FromUtf8(b);
            && e.validUpTo < |b| && FromUtf8(b[..e.validUpTo]).Valid?
            && var text := FromUtf8(b[..e.validUpTo]).text; var rest := b[e.validUpTo..];
            && (text == "" <==> e.validUpTo == 0)
            && FirstUnit(rest) == (if e.errorLen.None? then Short else Bad(e.errorLen.value))
            && Decoded(b, false) == text + Decoded(rest, text != "")
            && Unfinished(b) == Unfinished(rest)
  {
    hide FirstUnit, FromUtf8, Decoded, Unfinished, EncodeAll, Lossy, Settled;
    InvalidMeaning(b);
    var e := FromUtf8(b);
    var (ok, rest) := (b[..e.validUpTo], b[e.validUpTo..]);
    var s := FromUtf8(ok).text;
    ValidIsEncoding(ok);
    TakeDrop(b, e.validUpTo);
    TextOfPrefix(s);
    DecodedFront(s, rest, false);
    UnfinishedAfterText(s, rest);
  }

  lemma DecodedAtShort(b: bytes)
    requires FromUtf8(b).Invalid? && FromUtf8(b).errorLen.None?
    ensures var e := FromUtf8(b);
            && e.validUpTo < |b| && FromUtf8(b[..e.validUpTo]).Valid?
            && Decoded(b, false) == FromUtf8(b[..e.validUpTo]).text && Unfinished(b) == b[e.validUpTo..]
  {
    hide FirstUnit, FromUtf8, Decoded, Unfinished, EncodeAll, Lossy, Settled;
    DecodedUpToError(b);
    var e := FromUtf8(b);
    UnfoldDecoded(b[e.validUpTo..], e.validUpTo != 0);
    Unfold(b[e.validUpTo..]);
    NothingAppended(FromUtf8(b[..e.validUpTo]).text);
  }

  lemma DecodedAtFirstBad(b: bytes)
    requires FromUtf8(b).Invalid? && FromUtf8(b).validUpTo == 0 && FromUtf8(b).errorLen.Some?
    ensures 1 <= FromUtf8(b).errorLen.value <= |b|
    ensures Decoded(b, false) == [REPLACEMENT] + Decoded(b[1..], false) && Unfinished(b) == Unfinished(b[1..])
    ensures FromUtf8(b[..0]) == Valid("")
  {
    hide FirstUnit, FromUtf8, Decoded, Unfinished, EncodeAll, Lossy, Settled;
    DecodedUpToError(b);
    assert b[0..] == b && b[..0] == [];
    UnfoldStrict([]);
    UnfoldDecoded(b, false);
    Unfold(b);
    SkipInsideBad(b);
  }

  lemma DecodedAtLaterBad(b: bytes)
    requires FromUtf8(b).Invalid? && FromUtf8(b).validUpTo > 0 && FromUtf8(b).errorLen.Some?
    ensures var e := FromUtf8(b); var n := e.errorLen.value;
            && 1 <= n && e.validUpTo + n <= |b|
            && FromUtf8(b[..e.validUpTo]).Valid?
            && Decoded(b, false) ==
               FromUtf8(b[..e.validUpTo]).text + ([REPLACEMENT] + Decoded(b[e.validUpTo + n..], false))
            && Unfinished(b) == Unfinished(b[e.validUpTo + n..])
  {
    hide FirstUnit, FromUtf8, Decoded, Unfinished, EncodeAll, Lossy, Settled;
    DecodedUpToError(b);
    var e := FromUtf8(b);
    var rest := b[e.validUpTo..];
    UnfoldDecoded(rest, true);
    Unfold(rest);
    DropDrop(b, e.validUpTo, e.errorLen.value);
  }

  /** The two error branches of the decoder, by the position of the error. */
  lemma DecodedAtError(b: bytes)
    requires FromUtf8(b).Invalid?
    ensures var e := FromUtf8(b);
            && e.validUpTo < |b| && FromUtf8(b[..e.validUpTo]).Valid?
            && var text := FromUtf8(b[..e.validUpTo]).text;
            match e.errorLen
            case None => Decoded(b, false) == text && Unfinished(b) == b[e.validUpTo..]
            case Some(n) =>
              && 1 <= n <= |b| - e.validUpTo
              && var next := if e.validUpTo == 0 then 1 else e.validUpTo + n;
              && Decoded(b, false) == text + ([REPLACEMENT] + Decoded(b[next..], false))
              && (e.validUpTo == 0 ==> text == "")
              && Unfinished(b) == Unfinished(b[next..])
  {
    hide FirstUnit, FromUtf8, Decoded, Unfinished, EncodeAll, Lossy, Settled;
    if FromUtf8(b).errorLen.None? {
      DecodedAtShort(b);
    } else if FromUtf8(b).validUpTo == 0 {
      DecodedAtFirstBad(b);
      NothingBefore([REPLACEMENT] + Decoded(b[1..], false));
    } else {
      DecodedAtLaterBad(b);
    }
  }

  lemma NothingAppended(s: string)
    ensures s + "" == s
  {
  }

  lemma NothingBefore(s: string)
    ensures "" + s == s
  {
  }

  lemma SkipInsideBad(b: bytes)
    requires b != [] && FirstUnit(b).Bad?
    ensures Unfinished(b[1..]) == Unfinished(b)
  {
    hide FirstUnit, Decoded, Unfinished, Replacements, Lossy, Settled;
    BadAtStart(b);
  }

  lemma TextOfPrefix(s: string)
    ensures s == "" <==> |EncodeAll(s)| == 0
  {
  }

  function Replacements(n: nat): string {
    if n == 0 then "" else [REPLACEMENT] + Replacements(n - 1)
  }

  /** The bytes inside a maximal subpart start nothing, so skipping one skips to the next. */
  lemma BadAtStart(b: bytes)
    requires b != [] && FirstUnit(b).Bad?
    ensures var n := FirstUnit(b).len;
            && Unfinished(b[1..]) == Unfinished(b[n..]) == Unfinished(b)
            && Decoded(b, false) == Replacements(n) + Decoded(b[n..], false)
    decreases |b|
  {
    var n := FirstUnit(b).len;
    SubpartBytes(b);
    hide FirstUnit, Decoded, Unfinished, Replacements, Lossy, Settled;
    Unfold(b);
    UnfoldDecoded(b, false);
    ReplacementsFront(n, Decoded(b[n..], false));
    ReplacementsFront(n - 1, Decoded(b[n..], false));
    if n == 2 {
      assert b[1..][1..] == b[2..];
      BadAtStart(b[1..]);
    } else if n == 3 {
      assert b[1..][1..] == b[2..] && b[2..][1..] == b[3..];
      BadAtStart(b[1..]);
      BadAtStart(b[2..]);
      ReplacementsFront(1, Decoded(b[3..], false));
    }
  }

  lemma ReplacementsFront(n: nat, s: string)
    ensures Replacements(n) + s == if n == 0 then s else [REPLACEMENT] + (Replacements(n - 1) + s)
  {
  }

  lemma SubpartBytes(b: bytes)
    requires b != [] && FirstUnit(b).Bad?
    ensures FirstUnit(b).len >= 2 ==> FirstUnit(b[1..]) == Bad(1)
    ensures FirstUnit(b).len == 3 ==> FirstUnit(b[2..]) == Bad(1)
  {
  }

  // ----- all calls: what is pending does not depend on where the bytes were cut

  lemma {:induction false} PendingIsUnfinished(pending: bytes, chunks: seq<bytes>)
    requires Unfinished(pending) == pending
    ensures PushAll(pending, chunks).1 == Unfinished(pending + Flatten(chunks))
    decreases |chunks|
  {
    hide FirstUnit, Decoded, Unfinished, Lossy, Settled;
    if chunks == [] {
      assert pending + Flatten(chunks) == pending;
    } else {
      var input := pending + chunks[0];
      var later := Flatten(chunks[1..]);
      Assoc(pending, chunks[0], later);
      UnfinishedTwice(input);
      PendingIsUnfinished(Unfinished(input), chunks[1..]);
      SettledSplit(input, later);
    }
  }

  lemma UnfinishedTwice(b: bytes)
    ensures Unfinished(Unfinished(b)) == Unfinished(b)
  {
    hide FirstUnit, Unfinished, Lossy, Settled;
    SettledSplit(b, []);
    assert b + [] == b && Unfinished(b) + [] == Unfinished(b);
  }

  // ----- all calls: the text, up to the number of replacement characters in a row

  /** Joins two collapsed texts, merging the replacement characters that meet. */
  function Glue(s: string, t: string): string {
    if s != "" && t != "" && s[|s| - 1] == REPLACEMENT == t[0] then s + t[1..] else s + t
  }

  /** The text with every run of U+FFFD reduced to one. */
  function Collapse(s: string): string {
    if s == "" then "" else Glue([s[0]], Collapse(s[1..]))
  }

  lemma GlueAssoc(s: string, t: string, u: string)
    ensures Glue(Glue(s, t), u) == Glue(s, Glue(t, u))
  {
    var l, r := Glue(Glue(s, t), u), Glue(s, Glue(t, u));
    assert |l| == |r|;
    assert forall i :: 0 <= i < |l| ==> l[i] == r[i];
  }

  lemma {:induction false} CollapseConcat(s: string, t: string)
    ensures Collapse(s + t) == Glue(Collapse(s), Collapse(t))
  {
    if s == "" {
      assert s + t == t;
    } else {
      assert (s + t)[1..] == s[1..] + t;
      hide Glue, Lossy, Settled;
      CollapseConcat(s[1..], t);
      GlueAssoc([s[0]], Collapse(s[1..]), Collapse(t));
    }
  }

  lemma CollapseRepeated(n: nat, s: string)
    requires n > 0
    ensures Collapse(Replacements(n) + s) == Collapse([REPLACEMENT] + s)
  {
    if n == 1 {
      assert Replacements(1) == [REPLACEMENT];
    } else {
      var t := Replacements(n - 1) + s;
      assert Replacements(n) + s == [REPLACEMENT] + t;
      assert ([REPLACEMENT] + t)[1..] == t && ([REPLACEMENT] + s)[1..] == s;
      CollapseRepeated(n - 1, s);
    }
  }

  lemma {:induction false} DecodedCollapses(b: bytes, afterText: bool)
    ensures Collapse(Decoded(b, afterText)) == Collapse(Settled(b))
    decreases |b|
  {
    hide FirstUnit, Decoded, Settled, Glue, Collapse, Lossy;
    Unfold(b);
    UnfoldDecoded(b, afterText);
    if b != [] && !FirstUnit(b).Short? {
      var u := FirstUnit(b);
      var rest := b[u.len..];
      DecodedCollapses(rest, u.Full?);
      var c := if u.Full? then u.c else REPLACEMENT;
      CollapseConcat([c], Settled(rest));
      CollapseConcat([c], Decoded(rest, u.Full?));
      if u.Bad? && !afterText {
        BadAtStart(b);
        CollapseRepeated(u.len, Decoded(rest, false));
      }
    }
  }

  lemma {:induction false} PushAllCollapses(pending: bytes, chunks: seq<bytes>)
    requires Unfinished(pending) == pending
    ensures Collapse(PushAll(pending, chunks).0) == Collapse(Settled(pending + Flatten(chunks)))
    decreases |chunks|
  {
    hide FirstUnit, Decoded, Settled, Glue, Collapse, Unfinished, Lossy;
    if chunks == [] {
      Unfold(pending);
      assert pending + Flatten(chunks) == pending;
      PendingSettlesNothing(pending);
    } else {
      var input := pending + chunks[0];
      var later := Flatten(chunks[1..]);
      Assoc(pending, chunks[0], later);
      UnfinishedTwice(input);
      PushAllCollapses(Unfinished(input), chunks[1..]);
      SettledSplit(input, later);
      DecodedCollapses(input, false);
      CollapseConcat(Decoded(input, false), PushAll(Unfinished(input), chunks[1..]).0);
      CollapseConcat(Settled(input), Settled(Unfinished(input) + later));
    }
  }

  lemma PendingSettlesNothing(pending: bytes)
    requires Unfinished(pending) == pending
    ensures Settled(pending) == ""
  {
    UnfinishedIsShortSuffix(pending);
  }

  /**
   * For every byte stream and every way to cut it: the decoder's output is the lossy
   * decoding of the whole stream, up to the length of runs of U+FFFD.
   */
  lemma StreamTextCollapses(chunks: seq<bytes>)
    ensures Collapse(StreamText(chunks)) == Collapse(Lossy(Flatten(chunks)))
  {
    hide FirstUnit, Decoded, Settled, Glue, Collapse, Unfinished, Lossy, PushAll;
    var all := Flatten(chunks);
    assert [] + all == all;
    Unfold([]);
    PushAllCollapses([], chunks);
    PendingIsUnfinished([], chunks);
    var tail := Unfinished(all);
    UnfinishedIsShortSuffix(all);
    UnfinishedTwice(all);
    PendingSettlesNothing(tail);
    LossyIsSettledPlusTail(all);
    LossyIsSettledPlusTail(tail);
    var end := if tail == [] then "" else [REPLACEMENT];
    assert Lossy(tail) == end;
    CollapseConcat(Settled(all), end);
    CollapseConcat(PushAll([], chunks).0, end);
  }

  // ----- all calls: exactly when the text itself does not depend on the cuts

  /** No maximal subpart of two or three bytes: every malformed byte stands alone. */
  predicate NoTruncatedSequence(b: bytes) {
    if b == [] then true
    else match FirstUnit(b)
      case Full(n, _) => NoTruncatedSequence(b[n..])
      case Bad(n) => n == 1 && NoTruncatedSequence(b[1..])
      case Short => true
  }

  lemma UnfoldNoTruncated(b: bytes)
    ensures b == [] || FirstUnit(b).Short? ==> NoTruncatedSequence(b)
    ensures b != [] && !FirstUnit(b).Short? ==>
              (NoTruncatedSequence(b) <==>
               (FirstUnit(b).Bad? ==> FirstUnit(b).len == 1) && NoTruncatedSequence(b[FirstUnit(b).len..]))
  {
  }

  lemma {:induction false} NoTruncatedSplit(a: bytes, b: bytes)
    ensures NoTruncatedSequence(a + b) <==>
            NoTruncatedSequence(a) && NoTruncatedSequence(Unfinished(a) + b)
  {
    hide FirstUnit, Unfinished, NoTruncatedSequence, Lossy, Settled;
    Unfold(a);
    UnfoldNoTruncated(a);
    if a == [] {
      assert a + b == b;
    } else if !FirstUnit(a).Short? {
      var n := FirstUnit(a).len;
      DecidedUnitStable(a, b);
      UnfoldNoTruncated(a + b);
      assert (a + b)[n..] == a[n..] + b;
      NoTruncatedSplit(a[n..], b);
    }
  }

  lemma {:induction false} DecodedWhenNoTruncated(b: bytes, afterText: bool)
    requires NoTruncatedSequence(b)
    ensures Decoded(b, afterText) == Settled(b)
    decreases |b|
  {
    hide FirstUnit, Decoded, Settled, NoTruncatedSequence, Lossy;
    Unfold(b);
    UnfoldDecoded(b, afterText);
    UnfoldNoTruncated(b);
    if b != [] && !FirstUnit(b).Short? {
      DecodedWhenNoTruncated(b[FirstUnit(b).len..], FirstUnit(b).Full?);
    }
  }

  lemma {:induction false} PushAllWhenNoTruncated(pending: bytes, chunks: seq<bytes>)
    requires Unfinished(pending) == pending
    requires NoTruncatedSequence(pending + Flatten(chunks))
    ensures PushAll(pending, chunks).0 == Settled(pending + Flatten(chunks))
    decreases |chunks|
  {
    hide FirstUnit, Decoded, Settled, Unfinished, NoTruncatedSequence, Lossy;
    if chunks == [] {
      assert pending + Flatten(chunks) == pending;
      PendingSettlesNothing(pending);
    } else {
      var input := pending + chunks[0];
      var later := Flatten(chunks[1..]);
      Assoc(pending, chunks[0], later);
      UnfinishedTwice(input);
      NoTruncatedSplit(input, later);
      PushAllWhenNoTruncated(Unfinished(input), chunks[1..]);
      DecodedWhenNoTruncated(input, false);
      SettledSplit(input, later);
    }
  }

  /** `finish` adds nothing to the settled text but one U+FFFD for a sequence cut short. */
  lemma StreamTextParts(chunks: seq<bytes>)
    ensures StreamText(chunks) ==
            PushAll([], chunks).0 + (if Unfinished(Flatten(chunks)) == [] then "" else [REPLACEMENT])
  {
    hide FirstUnit, Settled, Unfinished, Lossy, PushAll;
    var all := Flatten(chunks);
    assert [] + all == all;
    Unfold([]);
    PendingIsUnfinished([], chunks);
    UnfinishedIsShortSuffix(all);
    UnfinishedTwice(all);
    PendingSettlesNothing(Unfinished(all));
    LossyIsSettledPlusTail(Unfinished(all));
  }

  lemma {:induction false} DecodedNeverShorter(b: bytes, afterText: bool)
    ensures |Settled(b)| <= |Decoded(b, afterText)|
    decreases |b|
  {
    hide FirstUnit, Decoded, Settled, Lossy;
    Unfold(b);
    UnfoldDecoded(b, afterText);
    if b != [] && !FirstUnit(b).Short? {
      var rest := b[FirstUnit(b).len..];
      DecodedNeverShorter(rest, FirstUnit(b).Full?);
      if FirstUnit(b).Bad? && !afterText {
        BadAtStart(b);
        ReplacementsFront(FirstUnit(b).len, Decoded(rest, false));
      }
    }
  }

  /** More replacement characters than the lossy decoding puts at this place. */
  predicate DecodesLonger(b: bytes) {
    |Decoded(b, false)| > |Settled(b)|
  }

  lemma TruncatedDecodesLonger(b: bytes)
    requires b != [] && FirstUnit(b).Bad? && FirstUnit(b).len >= 2
    ensures DecodesLonger(b)
  {
    hide FirstUnit, Decoded, Settled, Lossy;
    var n := FirstUnit(b).len;
    Unfold(b);
    BadAtStart(b);
    DecodedNeverShorter(b[n..], false);
    ReplacementsFront(n, Decoded(b[n..], false));
    ReplacementsFront(n - 1, Decoded(b[n..], false));
  }

  /** A place to cut: what is before it decodes completely, what is after it decodes longer. */
  lemma {:induction false} FirstTruncated(b: bytes) returns (i: nat)
    requires !NoTruncatedSequence(b)
    ensures i < |b| && Unfinished(b[..i]) == [] && DecodesLonger(b[i..])
  {
    hide FirstUnit, Unfinished, NoTruncatedSequence, Decoded, Settled, Lossy;
    UnfoldNoTruncated(b);
    var u := FirstUnit(b);
    if u.Bad? && u.len >= 2 {
      i := 0;
      assert b[0..] == b && b[..0] == [];
      Unfold([]);
      TruncatedDecodesLonger(b);
    } else {
      var j := FirstTruncated(b[u.len..]);
      if u.Bad? && j == 0 {
        i := 0;
        assert b[0..] == b && b[..0] == [] && b[1..][0..] == b[1..];
        Unfold(b);
        UnfoldDecoded(b, false);
      } else {
        i := u.len + j;
        assert b[i..] == b[u.len..][j..];
        var front := b[..i];
        assert front[u.len..] == b[u.len..][..j];
        UnitOfPrefix(b, i);
        Unfold(front);
      }
    }
  }

  lemma UnitOfPrefix(b: bytes, i: nat)
    requires b != [] && !FirstUnit(b).Short? && FirstUnit(b).len <= i <= |b|
    requires FirstUnit(b).Bad? ==> FirstUnit(b).len == 1 && 2 <= i
    ensures FirstUnit(b[..i]) == FirstUnit(b)
  {
  }

  /** A cut there makes the decoder's output differ from the lossy decoding of the stream. */
  lemma CutBeforeTruncated(b: bytes, i: nat)
    requires i < |b| && Unfinished(b[..i]) == [] && DecodesLonger(b[i..])
    ensures Flatten([b[..i], b[i..]]) == b
    ensures StreamText([b[..i], b[i..]]) != Lossy(b)
  {
    hide FirstUnit, Decoded, Settled, Unfinished, Lossy;
    var x, y := b[..i], b[i..];
    var chunks, last: seq<bytes> := [x, y], [y];
    assert chunks[1..] == last && last[1..] == [];
    assert Flatten(last) == y + [] == y;
    assert Flatten(chunks) == x + y == b;
    assert [] + x == x && [] + y == y;
    assert PushAll([], chunks).0 == Decoded(x, false) + PushAll([], last).0;
    assert PushAll([], last).0 == Decoded(y, false) + "";
    StreamTextParts(chunks);
    LossyIsSettledPlusTail(b);
    SettledSplit(x, y);
    DecodedNeverShorter(x, false);
  }

  /**
   * The decoder yields the lossy decoding of the stream however the bytes are cut if and
   * only if the stream holds no sequence cut short after its second or third byte.
   */
  lemma ExactForEveryCutIffNoTruncatedSequence(b: bytes)
    ensures NoTruncatedSequence(b) <==>
            forall chunks: seq<bytes> :: Flatten(chunks) == b ==> StreamText(chunks) == Lossy(b)
  {
    hide FirstUnit, Decoded, Settled, Unfinished, NoTruncatedSequence, Lossy, StreamText, PushAll, Flatten;
    if NoTruncatedSequence(b) {
      forall chunks: seq<bytes> | Flatten(chunks) == b
        ensures StreamText(chunks) == Lossy(b)
      {
        assert [] + b == b;
        Unfold([]);
        PushAllWhenNoTruncated([], chunks);
        StreamTextParts(chunks);
        LossyIsSettledPlusTail(b);
      }
    } else {
      var i := FirstTruncated(b);
      CutBeforeTruncated(b, i);
    }
  }

  /** Two bytes of a three-byte sequence, then a letter: two replacement characters instead of one. */
  lemma TruncatedSequenceExample()
    ensures Lossy([0xE2, 0x82, 0x41]) == [REPLACEMENT, 'A']
    ensures StreamText([[0xE2, 0x82, 0x41]]) == [REPLACEMENT, REPLACEMENT, 'A']
  {
    var b: bytes := [0xE2, 0x82, 0x41];
    var c: bytes := [0x41];
    assert FirstUnit(b) == Bad(2) && FirstUnit(b[1..]) == Bad(1) && FirstUnit(c) == Full(1, 'A');
    hide FirstUnit, Decoded, Lossy, Unfinished, Settled;
    assert b[2..] == c && b[1..][1..] == c && c[1..] == [];
    Unfold(b);
    Unfold(b[1..]);
    Unfold(c);
    Unfold([]);
    UnfoldDecoded(b, false);
    UnfoldDecoded(b[1..], false);
    UnfoldDecoded(c, false);
    UnfoldDecoded([], true);
    var none: seq<bytes> := [];
    assert [b][1..] == none && [] + b == b;
    assert PushAll([], [b]) == (Decoded(b, false) + "", []);
  }

  lemma {:induction false} EncodedHasNoTruncated(s: string)
    ensures NoTruncatedSequence(EncodeAll(s))
  {
    hide FirstUnit, Encode, NoTruncatedSequence, Lossy, Settled;
    UnfoldNoTruncated(EncodeAll(s));
    if s != "" {
      EncodeIsUnit(s[0], EncodeAll(s[1..]));
      assert EncodeAll(s)[|Encode(s[0])|..] == EncodeAll(s[1..]);
      EncodedHasNoTruncated(s[1..]);
    }
  }

  /** Well-formed bytes: the pushes alone give the text, and nothing is left for `finish`. */
  lemma WellFormedStream(s: string, chunks: seq<bytes>)
    requires Flatten(chunks) == EncodeAll(s)
    ensures PushAll([], chunks) == (s, [])
    ensures StreamText(chunks) == s
  {
    hide FirstUnit, Decoded, Settled, Unfinished, NoTruncatedSequence, Lossy, PushAll, Flatten, EncodeAll;
    var b := EncodeAll(s);
    assert [] + b == b;
    Unfold([]);
    EncodedHasNoTruncated(s);
    LossyRoundTrip(s);
    PushAllWhenNoTruncated([], chunks);
    PendingIsUnfinished([], chunks);
    StreamTextParts(chunks);
  }
}
