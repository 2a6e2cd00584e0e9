/** Which streams the parser's buffer can take, if only they are cut well. */
module SseLimits {
  import opened Common
  import opened Text
  import opened Utf8
  import opened Sse
  import opened SseChunks
  import opened SseEvents

  /** No push of these chunks, one after the other, is refused. */
  predicate Passes(buffer: string, chunks: seq<string>, maxBufferBytes: nat)
    decreases |chunks|
  {
    chunks == [] ||
    (!Refuses(buffer, chunks[0], maxBufferBytes)
     && Passes(Drain(buffer + chunks[0]).rest, chunks[1..], maxBufferBytes))
  }

  /** The first blank line of either kind: where it is, and how long. */
  function FirstBlank(s: string): (found: Option<(nat, nat)>)
    ensures found.Some? ==> found.value.0 + found.value.1 <= |s| && found.value.1 > 0
  {
    match Find(s, LF_BLANK)
    case None => (match Find(s, CRLF_BLANK) case None => None case Some(j) => Some((j, 4)))
    case Some(i) =>
      match Find(s, CRLF_BLANK)
      case None => Some((i, 2))
      case Some(j) => if i < j then Some((i, 2)) else Some((j, 4))
  }

  /** Every stretch with the blank line that ends it, and the unterminated rest, fits the buffer. */
  predicate PiecesFit(s: string, maxBufferBytes: nat)
    decreases |s|
  {
    match FirstBlank(s)
    case None => ByteLen(s) <= maxBufferBytes
    case Some((at, skip)) =>
      ByteLen(s[..at + skip]) <= maxBufferBytes && PiecesFit(s[at + skip..], maxBufferBytes)
  }

  lemma PiecesStep(s: string, maxBufferBytes: nat)
    ensures PiecesFit(s, maxBufferBytes) <==>
            match FirstBlank(s)
            case None => ByteLen(s) <= maxBufferBytes
            case Some((at, skip)) =>
              ByteLen(s[..at + skip]) <= maxBufferBytes && PiecesFit(s[at + skip..], maxBufferBytes)
  {
    hide FirstBlank, EncodeAll;
  }

  // ----- the first blank line

  lemma BlankPlaces(s: string)
    ensures Find(s, LF_BLANK).Some? ==> var i := Find(s, LF_BLANK).value;
                                        i + 2 <= |s| && s[i] == '\n' && s[i + 1] == '\n'
    ensures Find(s, CRLF_BLANK).Some? ==> var j := Find(s, CRLF_BLANK).value;
                                          j + 4 <= |s| && s[j] == '\r' && s[j + 2] == '\r'
  {
    FindIsFirst(s, LF_BLANK);
    FindIsFirst(s, CRLF_BLANK);
    hide Find, OccursAt;
    if Find(s, LF_BLANK).Some? {
      LfBlankAt(s, Find(s, LF_BLANK).value);
    }
    if Find(s, CRLF_BLANK).Some? {
      CrlfBlankAt(s, Find(s, CRLF_BLANK).value);
    }
  }

  lemma NoLfAppears(a: string, b: string, j: nat)
    requires Find(a, LF_BLANK).None? && j + 4 <= |a|
    ensures Find(a + b, LF_BLANK).Some? ==> Find(a + b, LF_BLANK).value > j
  {
    FindIsFirst(a, LF_BLANK);
    FindIsFirst(a + b, LF_BLANK);
    hide Find, OccursAt;
    if Find(a + b, LF_BLANK).Some? {
      var i := Find(a + b, LF_BLANK).value;
      LfBlankAt(a + b, i);
      LfBlankAt(a, i);
    }
  }

  /** More text behind it does not change the first blank line. */
  lemma FirstBlankStable(a: string, b: string)
    requires FirstBlank(a).Some?
    ensures FirstBlank(a + b) == FirstBlank(a)
  {
    hide Find;
    BlankPlaces(a);
    if Find(a, LF_BLANK).Some? {
      FindStable(a, b, LF_BLANK);
      if Find(a, CRLF_BLANK).Some? {
        FindStable(a, b, CRLF_BLANK);
      } else if Find(a + b, CRLF_BLANK).Some? {
        LfBeforeCrlf(a, b, Find(a, LF_BLANK).value, Find(a + b, CRLF_BLANK).value);
      }
    } else {
      FindStable(a, b, CRLF_BLANK);
      NoLfAppears(a, b, Find(a, CRLF_BLANK).value);
    }
  }

  /** Whether a drain cuts at the first blank line or around it, the same rest stays. */
  lemma RestAfterFirst(s: string)
    ensures match FirstBlank(s)
            case None => Drain(s).rest == s
            case Some((at, skip)) => Drain(s).rest == Drain(s[at + skip..]).rest
  {
    hide Find, Drain;
    BlankPlaces(s);
    DrainStep(s);
    if Find(s, LF_BLANK).Some? && Find(s, CRLF_BLANK).Some? {
      var i, j := Find(s, LF_BLANK).value, Find(s, CRLF_BLANK).value;
      if i < j {
        CrlfInSuffix(s, j, i + 2);
        DrainStep(s[i + 2..]);
        DropDrop(s, i + 2, j + 4 - (i + 2));
      }
    }
  }

  lemma FirstBlankOfPiece(s: string)
    requires FirstBlank(s).Some?
    ensures var (at, skip) := FirstBlank(s).value;
            var piece := s[..at + skip];
            FirstBlank(piece) == Some((at, skip)) && Drain(piece).rest == ""
  {
    hide Find, Drain;
    var (at, skip) := FirstBlank(s).value;
    var piece := s[..at + skip];
    TakeDrop(s, at + skip);
    BlankInPiece(s);
    FirstBlankStable(piece, s[at + skip..]);
    RestAfterFirst(piece);
    assert piece[at + skip..] == "";
    EmptyDrain();
  }

  lemma BlankInPiece(s: string)
    requires FirstBlank(s).Some?
    ensures var (at, skip) := FirstBlank(s).value; FirstBlank(s[..at + skip]).Some?
  {
    hide Find;
    var (at, skip) := FirstBlank(s).value;
    StillFound(s, if skip == 2 then LF_BLANK else CRLF_BLANK);
  }

  lemma StillFound(s: string, pattern: string)
    requires Find(s, pattern).Some?
    ensures Find(s[..Find(s, pattern).value + |pattern|], pattern).Some?
  {
    var at := Find(s, pattern).value;
    var n := at + |pattern|;
    FindIsFirst(s, pattern);
    FindIsFirst(s[..n], pattern);
    hide Find, OccursAt;
    TakeDrop(s, n);
    OccursInPrefix(s[..n], s[n..], pattern, at);
  }

  // ----- pushes that pass

  lemma PartIsNoLonger(s: string, n: nat)
    requires n <= |s|
    ensures ByteLen(s[..n]) <= ByteLen(s) && ByteLen(s[n..]) <= ByteLen(s)
  {
    hide EncodeAll;
    TakeDrop(s, n);
    EncodeAllConcat(s[..n], s[n..]);
  }

  /** What has been in the buffer as a whole fits in pieces. */
  lemma {:induction false} PrefixFits(a: string, b: string, maxBufferBytes: nat)
    requires ByteLen(a) <= maxBufferBytes && PiecesFit(Drain(a).rest + b, maxBufferBytes)
    ensures PiecesFit(a + b, maxBufferBytes)
    decreases |a|
  {
    hide FirstBlank, Drain, EncodeAll, PiecesFit;
    RestAfterFirst(a);
    if FirstBlank(a).Some? {
      var (at, skip) := FirstBlank(a).value;
      var n := at + skip;
      FirstBlankStable(a, b);
      PiecesStep(a + b, maxBufferBytes);
      PartIsNoLonger(a, n);
      assert (a + b)[..n] == a[..n] && (a + b)[n..] == a[n..] + b;
      PrefixFits(a[n..], b, maxBufferBytes);
    }
  }

  lemma {:induction false} PassedFits(buffer: string, chunks: seq<string>, maxBufferBytes: nat)
    requires Passes(buffer, chunks, maxBufferBytes)
    requires FindEventBoundary(buffer).None? && ByteLen(buffer) <= maxBufferBytes
    ensures PiecesFit(buffer + Flatten(chunks), maxBufferBytes)
    decreases |chunks|
  {
    hide Find, Drain, EncodeAll, PiecesFit;
    if chunks == [] {
      assert buffer + Flatten(chunks) == buffer;
      PiecesStep(buffer, maxBufferBytes);
    } else {
      var input, later := buffer + chunks[0], Flatten(chunks[1..]);
      Assoc(buffer, chunks[0], later);
      EncodeAllConcat(buffer, chunks[0]);
      RestIsNoLonger(buffer, chunks[0]);
      DrainedRestHasNoBoundary(input);
      PassedFits(Drain(input).rest, chunks[1..], maxBufferBytes);
      PrefixFits(input, later, maxBufferBytes);
    }
  }

  /** Cutting behind every blank line is a chunking that passes. */
  lemma {:induction false} FittingPasses(s: string, maxBufferBytes: nat) returns (chunks: seq<string>)
    requires PiecesFit(s, maxBufferBytes)
    ensures Flatten(chunks) == s && Passes("", chunks, maxBufferBytes)
    decreases |s|
  {
    hide FirstBlank, Drain, EncodeAll, PiecesFit;
    PiecesStep(s, maxBufferBytes);
    EmptyText();
    match FirstBlank(s) {
      case None =>
        chunks := [s];
        OneMorePasses(s, [], maxBufferBytes);
        assert chunks == [s] + [] && s + "" == s;
      case Some((at, skip)) =>
        var piece, rest := s[..at + skip], s[at + skip..];
        var later := FittingPasses(rest, maxBufferBytes);
        chunks := [piece] + later;
        FirstBlankOfPiece(s);
        OneMorePasses(piece, later, maxBufferBytes);
        TakeDrop(s, at + skip);
    }
  }

  lemma EmptyText()
    ensures ByteLen("") == 0
  {
  }

  lemma OneMorePasses(chunk: string, later: seq<string>, maxBufferBytes: nat)
    requires ByteLen(chunk) <= maxBufferBytes
    requires later == [] || (Drain(chunk).rest == "" && Passes("", later, maxBufferBytes))
    ensures Passes("", [chunk] + later, maxBufferBytes)
    ensures Flatten([chunk] + later) == chunk + Flatten(later)
  {
    hide Drain, EncodeAll;
    EmptyText();
    var all := [chunk] + later;
    assert all[1..] == later && "" + chunk == chunk;
  }

  /**
   * A stream passes under some way of cutting it, if and only if every stretch of it together
   * with the blank line that ends it, and the unterminated rest, fits the buffer.
   */
  lemma SomeCutPassesIff(s: string, maxBufferBytes: nat)
    ensures PiecesFit(s, maxBufferBytes) <==>
            exists chunks: seq<string> :: Flatten(chunks) == s && Passes("", chunks, maxBufferBytes)
  {
    hide Find, Drain, EncodeAll, PiecesFit, Passes, Flatten;
    if PiecesFit(s, maxBufferBytes) {
      var chunks := FittingPasses(s, maxBufferBytes);
    }
    if chunks: seq<string> :| Flatten(chunks) == s && Passes("", chunks, maxBufferBytes) {
      assert "" + s == s;
      EmptyDrain();
      EmptyText();
      PassedFits("", chunks, maxBufferBytes);
    }
  }
}
