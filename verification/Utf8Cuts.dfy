/** Which byte streams the incremental decoder reads alike however they are cut. */
module Utf8Cuts {
  import opened Common
  import opened Utf8
  import opened Utf8Stream

  /** No sequence is cut short after its second or third byte right behind a well-formed character. */
  predicate NoneCutShortAfterText(b: bytes, afterText: bool) {
    if b == [] then true
    else match FirstUnit(b)
      case Full(n, _) => NoneCutShortAfterText(b[n..], true)
      case Bad(n) => (afterText ==> n == 1) && NoneCutShortAfterText(b[n..], false)
      case Short => true
  }

  lemma UnfoldNone(b: bytes, afterText: bool)
    ensures b == [] || FirstUnit(b).Short? ==> NoneCutShortAfterText(b, afterText)
    ensures b != [] && !FirstUnit(b).Short? ==>
              (NoneCutShortAfterText(b, afterText) <==>
               && (FirstUnit(b).Bad? && afterText ==> FirstUnit(b).len == 1)
               && NoneCutShortAfterText(b[FirstUnit(b).len..], FirstUnit(b).Full?))
  {
  }

  /** What the first decided unit decodes to. */
  function Front(b: bytes, afterText: bool): string
    requires b != [] && !FirstUnit(b).Short?
  {
    match FirstUnit(b)
    case Full(_, c) => [c]
    case Bad(n) => Replacements(if afterText then 1 else n)
  }

  lemma DecodedFirst(b: bytes, afterText: bool)
    requires b != [] && !FirstUnit(b).Short?
    ensures Decoded(b, afterText) ==
            Front(b, afterText) + Decoded(b[FirstUnit(b).len..], FirstUnit(b).Full?)
  {
    hide FirstUnit, Decoded;
    UnfoldDecoded(b, afterText);
    OneReplacement();
    if FirstUnit(b).Bad? && !afterText {
      BadAtStart(b);
    }
  }

  lemma OneReplacement()
    ensures Replacements(1) == [REPLACEMENT]
  {
    assert Replacements(1) == [REPLACEMENT] + Replacements(0);
  }

  /** Without such a sequence it does not matter whether a call begins here. */
  lemma FlagIsIrrelevant(b: bytes, afterText: bool)
    requires NoneCutShortAfterText(b, afterText)
    ensures NoneCutShortAfterText(b, false) && Decoded(b, afterText) == Decoded(b, false)
  {
    hide FirstUnit, Decoded, NoneCutShortAfterText;
    UnfoldNone(b, afterText);
    UnfoldNone(b, false);
    if b == [] || FirstUnit(b).Short? {
      UnfoldDecoded(b, afterText);
      UnfoldDecoded(b, false);
    } else {
      DecodedFirst(b, afterText);
      DecodedFirst(b, false);
    }
  }

  /** Two calls then decode to what one call decodes to. */
  lemma {:induction false} DecodedSplit(a: bytes, b: bytes, afterText: bool)
    requires NoneCutShortAfterText(a + b, afterText)
    ensures NoneCutShortAfterText(Unfinished(a) + b, false)
    ensures Decoded(a + b, afterText) == Decoded(a, afterText) + Decoded(Unfinished(a) + b, false)
    decreases |a|
  {
    hide FirstUnit, Decoded, NoneCutShortAfterText, Unfinished, Lossy, Settled;
    Unfold(a);
    if a == [] || FirstUnit(a).Short? {
      UnfoldDecoded(a, afterText);
      FlagIsIrrelevant(a + b, afterText);
      NothingBefore(Decoded(a + b, false));
    } else {
      var u := FirstUnit(a);
      DecidedUnitStable(a, b);
      UnfoldNone(a + b, afterText);
      assert (a + b)[u.len..] == a[u.len..] + b;
      DecodedFirst(a + b, afterText);
      DecodedFirst(a, afterText);
      DecodedSplit(a[u.len..], b, u.Full?);
      Assoc(Front(a, afterText), Decoded(a[u.len..], u.Full?), Decoded(Unfinished(a) + b, false));
    }
  }

  lemma {:induction false} PushAllIsDecoded(pending: bytes, chunks: seq<bytes>)
    requires Unfinished(pending) == pending
    requires NoneCutShortAfterText(pending + Flatten(chunks), false)
    ensures PushAll(pending, chunks).0 == Decoded(pending + Flatten(chunks), false)
    decreases |chunks|
  {
    hide FirstUnit, Decoded, NoneCutShortAfterText, Unfinished, Lossy, Settled;
    if chunks == [] {
      assert pending + Flatten(chunks) == pending;
      PendingDecodesToNothing(pending);
    } else {
      var input, later := pending + chunks[0], Flatten(chunks[1..]);
      Assoc(pending, chunks[0], later);
      UnfinishedTwice(input);
      DecodedSplit(input, later, false);
      PushAllIsDecoded(Unfinished(input), chunks[1..]);
    }
  }

  lemma PendingDecodesToNothing(pending: bytes)
    requires Unfinished(pending) == pending
    ensures Decoded(pending, false) == ""
  {
    hide FirstUnit, Decoded, Unfinished, Lossy, Settled;
    UnfinishedIsShortSuffix(pending);
    UnfoldDecoded(pending, false);
  }

  // ----- where a cut shows otherwise

  /** A cut that puts more text out than none: what is before it is decided. */
  predicate CutAdds(b: bytes, i: nat, afterText: bool) {
    && i < |b| && Unfinished(b[..i]) == []
    && |Decoded(b, afterText)| < |Decoded(b[..i], afterText)| + |Decoded(b[i..], false)|
  }

  lemma {:induction false} VisibleCut(b: bytes, afterText: bool) returns (i: nat)
    requires !NoneCutShortAfterText(b, afterText)
    ensures CutAdds(b, i, afterText) && (i == 0 ==> afterText)
  {
    hide FirstUnit, Decoded, NoneCutShortAfterText, Unfinished, Lossy, Settled;
    UnfoldNone(b, afterText);
    var u := FirstUnit(b);
    DecodedFirst(b, afterText);
    if u.Bad? && afterText && u.len != 1 {
      i := 0;
      DecodedFirst(b, false);
      ReplacementsLength(u.len);
      ReplacementsLength(1);
      assert b[0..] == b && b[..0] == [];
      Unfold([]);
    } else {
      var rest := b[u.len..];
      var j := VisibleCut(rest, u.Full?);
      i := u.len + j;
      var front := b[..i];
      DecidedPrefix(b, i);
      DecodedFirst(front, afterText);
      Unfold(front);
      assert front[u.len..] == rest[..j];
      DropDrop(b, u.len, j);
    }
  }

  lemma {:induction false} ReplacementsLength(n: nat)
    ensures |Replacements(n)| == n
  {
    if n > 0 {
      ReplacementsLength(n - 1);
    }
  }

  /** A prefix decides the first unit when it holds it and, after a subpart, one byte more. */
  lemma DecidedPrefix(b: bytes, i: nat)
    requires b != [] && !FirstUnit(b).Short? && FirstUnit(b).len <= i <= |b|
    requires FirstUnit(b).Bad? ==> FirstUnit(b).len < i
    ensures b[..i] != [] && FirstUnit(b[..i]) == FirstUnit(b)
  {
  }

  lemma WholeAndCut(b: bytes, i: nat)
    requires CutAdds(b, i, false)
    ensures Flatten([b]) == b && Flatten([b[..i], b[i..]]) == b
    ensures StreamText([b]) != StreamText([b[..i], b[i..]])
  {
    hide FirstUnit, Decoded, Unfinished, Lossy, Settled, StreamText;
    var x, y := b[..i], b[i..];
    TakeDrop(b, i);
    OnePush(b, []);
    OnePush(y, []);
    OnePush(x, [y]);
    StreamTextParts([b]);
    StreamTextParts([x, y]);
  }

  lemma OnePush(x: bytes, chunks: seq<bytes>)
    requires chunks == [] || Unfinished(x) == []
    ensures Flatten([x] + chunks) == x + Flatten(chunks)
    ensures chunks == [] ==> Flatten([x]) == x && PushAll([], [x]).0 == Decoded(x, false)
    ensures PushAll([], [x] + chunks).0 ==
            Decoded(x, false) + (if chunks == [] then "" else PushAll([], chunks).0)
  {
    hide FirstUnit, Decoded, Unfinished;
    var all := [x] + chunks;
    assert all[1..] == chunks && [] + x == x;
    if chunks == [] {
      assert all == [x] && x + [] == x;
      NothingAppended(Decoded(x, false));
    }
  }

  /**
   * All ways of cutting the bytes give one text if and only if no sequence cut short after
   * its second or third byte follows a well-formed character directly.
   */
  lemma SameTextForEveryCutIff(b: bytes)
    ensures NoneCutShortAfterText(b, false) <==>
            forall c: seq<bytes>, d: seq<bytes> ::
              Flatten(c) == b && Flatten(d) == b ==> StreamText(c) == StreamText(d)
  {
    hide FirstUnit, Decoded, Unfinished, NoneCutShortAfterText, Lossy, Settled, StreamText, PushAll, Flatten;
    if NoneCutShortAfterText(b, false) {
      forall c: seq<bytes>, d: seq<bytes> | Flatten(c) == b && Flatten(d) == b
        ensures StreamText(c) == StreamText(d)
      {
        TextOfAnyCut(b, c);
        TextOfAnyCut(b, d);
      }
    } else {
      var i := VisibleCut(b, false);
      WholeAndCut(b, i);
    }
  }

  lemma TextOfAnyCut(b: bytes, chunks: seq<bytes>)
    requires NoneCutShortAfterText(b, false) && Flatten(chunks) == b
    ensures StreamText(chunks) == Decoded(b, false) + (if Unfinished(b) == [] then "" else [REPLACEMENT])
  {
    hide FirstUnit, Decoded, Unfinished, NoneCutShortAfterText, Lossy, Settled, StreamText, PushAll, Flatten;
    assert [] + b == b;
    Unfold([]);
    PushAllIsDecoded([], chunks);
    StreamTextParts(chunks);
  }

  /** Three such bytes behind a letter: one text uncut, another when cut in front of them. */
  lemma CutShortAfterText()
    ensures !NoneCutShortAfterText([0x41, 0xE2, 0x82, 0x41], false)
    ensures NoneCutShortAfterText([0xE2, 0x82, 0x41], false)
  {
    var b: bytes := [0xE2, 0x82, 0x41];
    var c: bytes := [0x41] + b;
    assert c == [0x41, 0xE2, 0x82, 0x41] && c[1..] == b;
    assert FirstUnit(c) == Full(1, 'A') && FirstUnit(b) == Bad(2) && FirstUnit(b[2..]) == Full(1, 'A');
    hide FirstUnit, NoneCutShortAfterText;
    assert b[2..][1..] == [];
    UnfoldNone(c, false);
    UnfoldNone(b, true);
    UnfoldNone(b, false);
    UnfoldNone(b[2..], false);
    UnfoldNone([], true);
  }
}
