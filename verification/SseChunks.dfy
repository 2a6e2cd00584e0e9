/** How the cuts between chunks affect what the SSE parser sees. */
module SseChunks {
  import opened Common
  import opened Text
  import opened Utf8
  import opened Sse

  // ----- one search, one step

  lemma FindStable(a: string, b: string, pattern: string)
    requires Find(a, pattern).Some?
    ensures Find(a + b, pattern) == Find(a, pattern)
  {
    var i := Find(a, pattern).value;
    FindIsFirst(a, pattern);
    hide Find, OccursAt;
    OccursInPrefix(a, b, pattern, i);
    forall j: nat | j < i
      ensures !OccursAt(a + b, pattern, j)
    {
      OccursInPrefix(a, b, pattern, j);
    }
    FindAt(a + b, pattern, i);
  }

  lemma FindNoneInSuffix(s: string, pattern: string, k: nat)
    requires Find(s, pattern).None? && k <= |s|
    ensures Find(s[k..], pattern).None?
  {
    FindIsFirst(s, pattern);
    hide Find, OccursAt;
    forall i: nat
      ensures !OccursAt(s[k..], pattern, i)
    {
      OccursInSuffix(s, k, pattern, i);
    }
    FindNone(s[k..], pattern);
  }

  lemma CrlfBlankAt(s: string, i: nat)
    ensures OccursAt(s, CRLF_BLANK, i) <==>
            i + 4 <= |s| && s[i] == '\r' && s[i + 1] == '\n' && s[i + 2] == '\r' && s[i + 3] == '\n'
  {
    if i + 4 <= |s| {
      assert s[i..i + 4] == [s[i], s[i + 1], s[i + 2], s[i + 3]];
    }
  }

  lemma LfBlankAt(s: string, i: nat)
    ensures OccursAt(s, LF_BLANK, i) <==> i + 2 <= |s| && s[i] == '\n' && s[i + 1] == '\n'
  {
    if i + 2 <= |s| {
      assert s[i..i + 2] == [s[i], s[i + 1]];
    }
  }

  /** Which boundary is found, and that its length is the length that is drained. */
  lemma BoundaryKind(s: string)
    ensures Find(s, CRLF_BLANK).Some? ==>
              var j := Find(s, CRLF_BLANK).value;
              j + 4 <= |s| && BoundaryLength(s, j) == 4
    ensures Find(s, CRLF_BLANK).None? && Find(s, LF_BLANK).Some? ==>
              var i := Find(s, LF_BLANK).value;
              i + 2 <= |s| && BoundaryLength(s, i) == 2
  {
    hide Find, OccursAt;
    if Find(s, CRLF_BLANK).Some? {
      CrlfBlankIsFour(s, Find(s, CRLF_BLANK).value);
    } else if Find(s, LF_BLANK).Some? {
      LfBlankIsTwo(s, Find(s, LF_BLANK).value);
    }
  }

  lemma CrlfBlankIsFour(s: string, j: nat)
    requires Find(s, CRLF_BLANK) == Some(j)
    ensures j + 4 <= |s| && BoundaryLength(s, j) == 4
  {
    FindIsFirst(s, CRLF_BLANK);
    hide Find, OccursAt;
    OccursFits(s, CRLF_BLANK, j);
    OccursInSuffix(s, j, CRLF_BLANK, 0);
    OccursAtStart(s[j..], CRLF_BLANK);
  }

  lemma LfBlankIsTwo(s: string, i: nat)
    requires Find(s, CRLF_BLANK).None? && Find(s, LF_BLANK) == Some(i)
    ensures i + 2 <= |s| && BoundaryLength(s, i) == 2
  {
    FindIsFirst(s, CRLF_BLANK);
    hide Find, OccursAt;
    OccursInSuffix(s, i, CRLF_BLANK, 0);
    OccursAtStart(s[i..], CRLF_BLANK);
  }

  /** What a drain does after cutting at `at`. */
  predicate CutAt(s: string, at: nat, skip: nat) {
    && at + skip <= |s| && skip > 0
    && Drain(s) == Drained([s[..at]] + Drain(s[at + skip..]).blocks, Drain(s[at + skip..]).rest)
  }

  /** One cut, by the kind of blank line that is found. */
  lemma DrainStep(s: string)
    ensures Find(s, CRLF_BLANK).Some? ==> CutAt(s, Find(s, CRLF_BLANK).value, 4)
    ensures Find(s, CRLF_BLANK).None? && Find(s, LF_BLANK).Some? ==> CutAt(s, Find(s, LF_BLANK).value, 2)
    ensures Find(s, CRLF_BLANK).None? && Find(s, LF_BLANK).None? ==> Drain(s) == Drained([], s)
  {
    hide Find, BoundaryLength, Drain;
    BoundaryKind(s);
    DrainUnfolds(s);
  }

  lemma DrainUnfolds(s: string)
    ensures match FindEventBoundary(s)
            case None => Drain(s) == Drained([], s)
            case Some(at) => CutAt(s, at, BoundaryLength(s, at))
  {
    hide Find, FindEventBoundary;
  }

  lemma {:induction false} DrainedRestHasNoBoundary(s: string)
    ensures FindEventBoundary(Drain(s).rest).None?
    decreases |s|
  {
    hide Find;
    DrainStep(s);
    match Find(s, CRLF_BLANK) {
      case Some(j) => DrainedRestHasNoBoundary(s[j + 4..]);
      case None =>
        match Find(s, LF_BLANK) {
          case Some(i) => DrainedRestHasNoBoundary(s[i + 2..]);
          case None =>
        }
    }
  }

  // ----- streams on which a cut cannot be seen

  /** Whenever a CRLF blank line is cut at, no LF blank line is in front of it. */
  predicate Regular(s: string)
    decreases |s|
  {
    match Find(s, CRLF_BLANK)
    case None => true
    case Some(j) => Find(s[..j], LF_BLANK).None? && Regular(s[j + 4..])
  }

  /** The two faces of the recursive definition. */
  lemma RegularStep(s: string)
    ensures Find(s, CRLF_BLANK).None? ==> Regular(s)
    ensures Find(s, CRLF_BLANK).Some? ==>
              var j := Find(s, CRLF_BLANK).value;
              Regular(s) <==> Find(s[..j], LF_BLANK).None? && Regular(s[j + 4..])
  {
  }

  /** In a regular stream, draining a prefix first and then the rest drains the whole. */
  lemma {:induction false} DrainSplit(a: string, b: string)
    requires Regular(a + b)
    ensures Regular(Drain(a).rest + b)
    ensures var later := Drain(Drain(a).rest + b);
            Drain(a + b) == Drained(Drain(a).blocks + later.blocks, later.rest)
    decreases |a|
  {
    hide Find, Drain, Regular;
    DrainStep(a);
    DrainStep(a + b);
    RegularStep(a + b);
    if Find(a, CRLF_BLANK).Some? {
      var j := Find(a, CRLF_BLANK).value;
      FindStable(a, b, CRLF_BLANK);
      assert (a + b)[j + 4..] == a[j + 4..] + b;
      DrainSplitAt(a, b, j, 4);
    } else if Find(a, LF_BLANK).Some? {
      var i := Find(a, LF_BLANK).value;
      LfBoundaryStays(a, b);
      FindStable(a, b, LF_BLANK);
      FindNoneInSuffix(a + b, CRLF_BLANK, i + 2);
      assert (a + b)[i + 2..] == a[i + 2..] + b;
      RegularStep(a[i + 2..] + b);
      DrainSplitAt(a, b, i, 2);
    } else {
      assert [] + Drain(a + b).blocks == Drain(a + b).blocks;
    }
  }

  /** The inductive step of the lemma above, once both drains cut at the same place. */
  lemma {:induction false} DrainSplitAt(a: string, b: string, at: nat, skip: nat)
    requires CutAt(a, at, skip) && CutAt(a + b, at, skip) && Regular(a[at + skip..] + b)
    ensures Regular(Drain(a).rest + b)
    ensures var later := Drain(Drain(a).rest + b);
            Drain(a + b) == Drained(Drain(a).blocks + later.blocks, later.rest)
    decreases |a|, 0
  {
    hide Find, Drain, Regular;
    var tail := a[at + skip..];
    assert (a + b)[at + skip..] == tail + b && (a + b)[..at] == a[..at];
    DrainSplit(tail, b);
    Assoc([a[..at]], Drain(tail).blocks, Drain(Drain(tail).rest + b).blocks);
  }

  /** No CRLF blank line can complete behind an LF blank line of a regular stream. */
  lemma LfBoundaryStays(a: string, b: string)
    requires Regular(a + b) && Find(a, CRLF_BLANK).None? && Find(a, LF_BLANK).Some?
    ensures Find(a + b, CRLF_BLANK).None?
  {
    RegularStep(a + b);
    FindIsFirst(a, LF_BLANK);
    FindIsFirst(a, CRLF_BLANK);
    FindIsFirst(a + b, CRLF_BLANK);
    hide Find, OccursAt, Regular;
    var i := Find(a, LF_BLANK).value;
    LfBlankAt(a, i);
    if Find(a + b, CRLF_BLANK).Some? {
      var j := Find(a + b, CRLF_BLANK).value;
      CrlfBlankAt(a + b, j);
      CrlfBlankAt(a, j);
      FindIsFirst((a + b)[..j], LF_BLANK);
      LfBlankAt((a + b)[..j], i);
    }
  }

  // ----- all pushes

  /** The blocks that come out when the chunks are pushed one after the other. */
  function PushBlocks(buffer: string, chunks: seq<string>): Drained
    decreases |chunks|
  {
    if chunks == [] then Drained([], buffer)
    else
      var d := Drain(buffer + chunks[0]);
      var later := PushBlocks(d.rest, chunks[1..]);
      Drained(d.blocks + later.blocks, later.rest)
  }

  lemma {:induction false} PushBlocksIsDrain(buffer: string, chunks: seq<string>)
    requires FindEventBoundary(buffer).None?
    requires Regular(buffer + Flatten(chunks))
    ensures PushBlocks(buffer, chunks) == Drain(buffer + Flatten(chunks))
    decreases |chunks|
  {
    hide Find, Drain, Regular;
    if chunks == [] {
      DrainStep(buffer);
      assert buffer + Flatten(chunks) == buffer;
    } else {
      var first, later := buffer + chunks[0], Flatten(chunks[1..]);
      Assoc(buffer, chunks[0], later);
      DrainSplit(first, later);
      DrainedRestHasNoBoundary(first);
      PushBlocksIsDrain(Drain(first).rest, chunks[1..]);
    }
  }

  /** A cut right after the LF blank line makes a block end there, which one push does not. */
  lemma {:induction false} IrregularCut(s: string) returns (k: nat)
    requires !Regular(s)
    ensures k <= |s| && PushBlocks("", [s[..k], s[k..]]).blocks != Drain(s).blocks
    decreases |s|
  {
    hide Find, Drain, Regular;
    RegularStep(s);
    DrainStep(s);
    var j := Find(s, CRLF_BLANK).value;
    if Find(s[..j], LF_BLANK).Some? {
      var i := Find(s[..j], LF_BLANK).value;
      k := i + 2;
      FirstBlockOfCut(s, i, j);
      TwoPushes(s, k);
    } else {
      var m := IrregularCut(s[j + 4..]);
      k := j + 4 + m;
      var front, tail := s[..k], s[j + 4..];
      CrlfInPrefix(s, j, k);
      DrainStep(front);
      assert front[j + 4..] == tail[..m] && front[..j] == s[..j] && s[k..] == tail[m..];
      TwoPushes(s, k);
      TwoPushes(tail, m);
      var x, y := Drain(tail[..m]).blocks, Drain(Drain(tail[..m]).rest + tail[m..]).blocks;
      Assoc([s[..j]], x, y);
      SameTail(s[..j], x + y, Drain(tail).blocks);
    }
  }

  lemma SameTail<T>(head: T, a: seq<T>, b: seq<T>)
    requires a != b
    ensures [head] + a != [head] + b
  {
    assert ([head] + a)[1..] == a && ([head] + b)[1..] == b;
  }

  lemma TwoPushes(s: string, k: nat)
    requires k <= |s|
    ensures PushBlocks("", [s[..k], s[k..]]).blocks ==
            Drain(s[..k]).blocks + Drain(Drain(s[..k]).rest + s[k..]).blocks
  {
    hide Drain;
    var chunks, last: seq<string> := [s[..k], s[k..]], [s[k..]];
    assert chunks[1..] == last && last[1..] == [];
    assert "" + s[..k] == s[..k];
    var d := Drain(Drain(s[..k]).rest + s[k..]);
    assert PushBlocks(Drain(s[..k]).rest, last).blocks == d.blocks + [];
  }

  lemma CrlfInPrefix(s: string, j: nat, k: nat)
    requires Find(s, CRLF_BLANK) == Some(j) && j + 4 <= k <= |s|
    ensures Find(s[..k], CRLF_BLANK) == Some(j)
  {
    FindIsFirst(s, CRLF_BLANK);
    hide Find, OccursAt;
    assert s[..k] + s[k..] == s;
    forall i: nat | i <= j
      ensures OccursAt(s[..k], CRLF_BLANK, i) <==> i == j
    {
      OccursInPrefix(s[..k], s[k..], CRLF_BLANK, i);
    }
    FindAt(s[..k], CRLF_BLANK, j);
  }

  lemma FirstBlockOfCut(s: string, i: nat, j: nat)
    requires Find(s, CRLF_BLANK) == Some(j) && j <= |s| && Find(s[..j], LF_BLANK) == Some(i) && i + 2 <= |s|
    ensures Drain(s[..i + 2]) == Drained([s[..i]], "")
    ensures Drain(s).blocks != [] && |Drain(s).blocks[0]| == j > i
  {
    var front := s[..i + 2];
    LfBoundaryOfPrefix(s, i, j);
    hide Find, Drain;
    DrainStep(s);
    DrainStep(front);
    assert front[i + 2..] == "" && front[..i] == s[..i];
    EmptyDrain();
  }

  lemma EmptyDrain()
    ensures Find("", CRLF_BLANK).None? && Find("", LF_BLANK).None?
    ensures Drain("") == Drained([], "")
  {
  }

  lemma LfBoundaryOfPrefix(s: string, i: nat, j: nat)
    requires Find(s, CRLF_BLANK) == Some(j) && j <= |s| && Find(s[..j], LF_BLANK) == Some(i) && i + 2 <= |s|
    ensures i < j
    ensures Find(s[..i + 2], CRLF_BLANK).None? && Find(s[..i + 2], LF_BLANK) == Some(i)
  {
    FindIsFirst(s, CRLF_BLANK);
    FindIsFirst(s[..j], LF_BLANK);
    hide Find, OccursAt;
    var front := s[..i + 2];
    LfBlankAt(s[..j], i);
    LfBlankAt(front, i);
    forall n: nat
      ensures !OccursAt(front, CRLF_BLANK, n)
    {
      CrlfBlankAt(front, n);
      CrlfBlankAt(s, n);
    }
    FindNone(front, CRLF_BLANK);
    forall n: nat | n < i
      ensures !OccursAt(front, LF_BLANK, n)
    {
      LfBlankAt(front, n);
      LfBlankAt(s[..j], n);
    }
    FindAt(front, LF_BLANK, i);
  }

  /**
   * The parser cuts the same blocks, and keeps the same rest, however the stream is
   * chunked, if and only if the stream is regular.
   */
  lemma SameBlocksForEveryCutIffRegular(s: string)
    ensures Regular(s) <==>
            forall chunks: seq<string> :: Flatten(chunks) == s ==> PushBlocks("", chunks) == Drain(s)
  {
    hide Find, Drain, Regular, PushBlocks, Flatten;
    if Regular(s) {
      forall chunks: seq<string> | Flatten(chunks) == s
        ensures PushBlocks("", chunks) == Drain(s)
      {
        assert "" + s == s;
        EmptyDrain();
        PushBlocksIsDrain("", chunks);
      }
    } else {
      var k := IrregularCut(s);
      FlattenTwo(s, k);
    }
  }

  /** One push of two events whose line ends differ merges them; a push for each keeps them apart. */
  lemma MixedLineEndsMerge()
    ensures Drain("data: a\n\n" + "data: b\r\n\r\n").blocks == ["data: a\n\ndata: b"]
    ensures PushBlocks("", ["data: a\n\n", "data: b\r\n\r\n"]).blocks == ["data: a", "data: b"]
  {
    hide Find, Drain, PushBlocks;
    var merged := "data: a\n\ndata: b";
    NoCrlfIn("data: a" + LF_BLANK);
    OneBlock("data: a", LF_BLANK);
    OneBlock("data: b", CRLF_BLANK);
    OneBlock(merged, CRLF_BLANK);
    assert "data: a" + LF_BLANK == "data: a\n\n" && "data: b" + CRLF_BLANK == "data: b\r\n\r\n";
    assert "data: a\n\n" + "data: b\r\n\r\n" == merged + CRLF_BLANK;
    PushedApart("data: a\n\n", "data: b\r\n\r\n", "data: a", "data: b");
  }

  lemma OneBlock(block: string, blank: string)
    requires blank == CRLF_BLANK || (blank == LF_BLANK && Find(block + blank, CRLF_BLANK).None?)
    requires forall i :: 0 <= i < |block| ==> block[i] != blank[0]
    ensures Drain(block + blank) == Drained([block], "")
  {
    hide Find, Drain;
    var s := block + blank;
    assert s[|block|..|block| + |blank|] == blank && s[|block| + |blank|..] == "" && s[..|block|] == block;
    BoundaryAt(s, blank, |block|);
    EmptyDrain();
    DrainStep(s);
  }

  lemma PushedApart(first: string, second: string, a: string, b: string)
    requires Drain(first) == Drained([a], "") && Drain(second) == Drained([b], "")
    ensures PushBlocks("", [first, second]).blocks == [a, b]
  {
    hide Drain;
    var chunks, last: seq<string> := [first, second], [second];
    assert chunks[1..] == last && last[1..] == [];
    assert "" + first == first && "" + second == second;
    assert PushBlocks("", last).blocks == [b] + [];
  }

  lemma BoundaryAt(s: string, pattern: string, i: nat)
    requires pattern == CRLF_BLANK || pattern == LF_BLANK
    requires i + |pattern| <= |s| && s[i..i + |pattern|] == pattern
    requires forall j :: 0 <= j < i ==> s[j] != pattern[0]
    ensures Find(s, pattern) == Some(i)
  {
    forall j: nat | j < i
      ensures !OccursAt(s, pattern, j)
    {
      CrlfBlankAt(s, j);
      LfBlankAt(s, j);
    }
    FindAt(s, pattern, i);
  }

  lemma NoCrlfIn(s: string)
    requires '\r' !in s
    ensures Find(s, CRLF_BLANK).None?
  {
    forall j: nat
      ensures !OccursAt(s, CRLF_BLANK, j)
    {
      CrlfBlankAt(s, j);
    }
    FindNone(s, CRLF_BLANK);
  }

  lemma {:induction false} DrainedRestIsSuffix(s: string)
    ensures exists front: string :: s == front + Drain(s).rest
    decreases |s|
  {
    hide Find, Drain;
    DrainStep(s);
    if Find(s, CRLF_BLANK).Some? {
      DrainedRestOfTail(s, Find(s, CRLF_BLANK).value + 4);
    } else if Find(s, LF_BLANK).Some? {
      DrainedRestOfTail(s, Find(s, LF_BLANK).value + 2);
    } else {
      assert s == "" + Drain(s).rest;
    }
  }

  lemma {:induction false} DrainedRestOfTail(s: string, k: nat)
    requires 0 < k <= |s| && Drain(s).rest == Drain(s[k..]).rest
    ensures exists front: string :: s == front + Drain(s).rest
    decreases |s|, 0
  {
    hide Drain;
    DrainedRestIsSuffix(s[k..]);
    var front: string :| s[k..] == front + Drain(s[k..]).rest;
    assert s == (s[..k] + front) + Drain(s).rest;
  }

  // ----- when a push is refused

  /** The text that no blank line ends would be longer than the buffer may be. */
  predicate RestTooLong(buffer: string, chunk: string, maxBufferBytes: nat) {
    ByteLen(Drain(buffer + chunk).rest) > maxBufferBytes
  }

  lemma RestIsNoLonger(buffer: string, chunk: string)
    ensures ByteLen(Drain(buffer + chunk).rest) <= ByteLen(buffer) + ByteLen(chunk)
  {
    hide Drain, EncodeAll;
    DrainedRestIsSuffix(buffer + chunk);
    var rest := Drain(buffer + chunk).rest;
    var front: string :| buffer + chunk == front + rest;
    EncodeAllConcat(front, rest);
    EncodeAllConcat(buffer, chunk);
  }

  /**
   * A push is refused for the length of its unterminated rest, and for nothing else, if and
   * only if buffer and chunk together fit or not even the rest does. A rest that is too long
   * is always refused; without a blank line the rest is all there is.
   */
  lemma RefusedForItsRestIff(buffer: string, chunk: string, maxBufferBytes: nat)
    ensures (Refuses(buffer, chunk, maxBufferBytes) <==> RestTooLong(buffer, chunk, maxBufferBytes)) <==>
            !(ByteLen(buffer) + ByteLen(chunk) > maxBufferBytes >= ByteLen(Drain(buffer + chunk).rest))
    ensures RestTooLong(buffer, chunk, maxBufferBytes) ==> Refuses(buffer, chunk, maxBufferBytes)
    ensures FindEventBoundary(buffer + chunk).None? ==>
              (Refuses(buffer, chunk, maxBufferBytes) <==> RestTooLong(buffer, chunk, maxBufferBytes))
  {
    hide Find, Drain, EncodeAll;
    RestIsNoLonger(buffer, chunk);
    DrainStep(buffer + chunk);
    EncodeAllConcat(buffer, chunk);
  }

  const EVENT_A: string := "data: a\n\n"
  const EVENT_B: string := "data: b\n\n"

  /** Two complete events are refused in one push, though nothing unterminated is left, and accepted in two. */
  lemma CompleteEventsRefused()
    ensures Drain("" + (EVENT_A + EVENT_B)) == Drained(["data: a", "data: b"], "")
    ensures Refuses("", EVENT_A + EVENT_B, 16) && !RestTooLong("", EVENT_A + EVENT_B, 16)
    ensures !Refuses("", EVENT_A, 16) && !Refuses("", EVENT_B, 16)
  {
    hide Find, Drain, Regular, EncodeAll;
    assert "data: a" + LF_BLANK == EVENT_A && "data: b" + LF_BLANK == EVENT_B;
    NoCrlfIn(EVENT_A);
    NoCrlfIn(EVENT_B);
    OneBlock("data: a", LF_BLANK);
    OneBlock("data: b", LF_BLANK);
    NoCrIsRegular(EVENT_A + EVENT_B);
    DrainSplit(EVENT_A, EVENT_B);
    assert "" + EVENT_B == EVENT_B && "" + (EVENT_A + EVENT_B) == EVENT_A + EVENT_B;
    assert ["data: a"] + ["data: b"] == ["data: a", "data: b"];
    LengthsOfEvents();
  }

  lemma LengthsOfEvents()
    ensures ByteLen("") == 0 && ByteLen(EVENT_A) == 9 && ByteLen(EVENT_B) == 9 && ByteLen(EVENT_A + EVENT_B) == 18
  {
    hide EncodeAll;
    AsciiByteLen("");
    AsciiByteLen(EVENT_A);
    AsciiByteLen(EVENT_B);
    AsciiByteLen(EVENT_A + EVENT_B);
  }

  lemma {:induction false} AsciiByteLen(s: string)
    requires forall i :: 0 <= i < |s| ==> s[i] as int < 0x80
    ensures ByteLen(s) == |s|
  {
    if s != "" {
      AsciiByteLen(s[1..]);
    }
  }

  lemma FlattenTwo(s: string, k: nat)
    requires k <= |s|
    ensures Flatten([s[..k], s[k..]]) == s
  {
    var chunks, last: seq<string> := [s[..k], s[k..]], [s[k..]];
    assert chunks[1..] == last && last[1..] == [];
    assert Flatten(last) == s[k..] + "" == s[k..];
  }

  /** A stream without carriage returns is regular. */
  lemma NoCrIsRegular(s: string)
    requires '\r' !in s
    ensures Regular(s)
  {
    NoCrlfIn(s);
  }

  predicate EveryLineEndIsCrLf(s: string) {
    forall i :: 0 <= i < |s| && s[i] == '\n' ==> 0 < i && s[i - 1] == '\r'
  }

  /** A stream whose every line end is CRLF is regular. */
  lemma {:induction false} CrLfOnlyIsRegular(s: string)
    requires EveryLineEndIsCrLf(s)
    ensures Regular(s)
    decreases |s|
  {
    hide Find, OccursAt, Regular;
    RegularStep(s);
    if Find(s, CRLF_BLANK).Some? {
      var j := Find(s, CRLF_BLANK).value;
      var front, tail := s[..j], s[j + 4..];
      FindIsFirst(s, CRLF_BLANK);
      CrlfBlankAt(s, j);
      forall i: nat
        ensures !OccursAt(front, LF_BLANK, i)
      {
        LfBlankAt(front, i);
      }
      FindNone(front, LF_BLANK);
      forall i | 0 <= i < |tail| && tail[i] == '\n'
        ensures 0 < i && tail[i - 1] == '\r'
      {
        assert s[j + 4 + i] == '\n';
      }
      CrLfOnlyIsRegular(tail);
    }
  }
}
