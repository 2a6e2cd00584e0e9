/** Collectors for the output of a sandboxed process: bounded text, unbounded draining. */
module Collect {
  import opened Common
  import opened Utf8
  import opened ByteReader

  function Take(text: string, maxChars: nat): string {
    text[..Min(|text|, maxChars)]
  }

  function TruncateUtf8Chars(text: string, maxChars: nat): (string, bool) {
    if |text| > maxChars then (text[..maxChars], true) else (text, false)
  }

  /** The settled characters of a prefix start the decoding of the whole. */
  lemma LossySplit(a: bytes, b: bytes)
    ensures Lossy(a + b) == Settled(a) + Lossy(Unfinished(a) + b)
  {
    hide FirstUnit, Lossy, Settled, Unfinished;
    SettledSplit(a, b);
    LossyIsSettledPlusTail(a + b);
    var rest := Unfinished(a) + b;
    LossyIsSettledPlusTail(rest);
    Assoc(Settled(a), Settled(rest), if Unfinished(rest) == [] then "" else [REPLACEMENT]);
  }

  lemma LossyNonEmpty(b: bytes)
    requires b != []
    ensures Lossy(b) != ""
  {
  }

  /** Once a prefix decodes to more than `maxChars` characters, more bytes change nothing. */
  lemma OverlongIsFinal(a: bytes, b: bytes, maxChars: nat)
    requires |Lossy(a)| > maxChars
    ensures |Lossy(a + b)| > maxChars
    ensures Take(Lossy(a + b), maxChars) == Take(Lossy(a), maxChars)
  {
    hide FirstUnit, Lossy, Settled, Unfinished;
    LossySplit(a, b);
    LossyIsSettledPlusTail(a);
    if Unfinished(a) != [] {
      LossyNonEmpty(Unfinished(a) + b);
    }
    assert Take(Lossy(a + b), maxChars) == Settled(a)[..maxChars] == Take(Lossy(a), maxChars);
  }

  /**
   * Reads to the end and keeps at most `maxChars` characters. However the output is split
   * into reads, the result is the start of the lossy decoding of all of it, and the
   * flag says whether anything was cut off. Every read up to the end is made.
   */
  method CollectUtf8Bounded(answers: seq<Read>, maxChars: nat)
    returns (r: Result<(string, bool), ()>, consumed: nat)
    ensures consumed == ReadsToEnd(answers)
    ensures var all := Delivered(answers);
            r == if all.failed then Err(())
                 else Ok((Take(Lossy(all.data), maxChars), |Lossy(all.data)| > maxChars))
  {
    hide Lossy, EncodeAll;
    var kept: bytes := [];
    var truncated := false;
    consumed := 0;
    ghost var got: bytes := [];
    assert [] + Delivered(answers).data == Delivered(answers).data;
    Unfold([]);
    while consumed < |answers|
      invariant consumed <= |answers|
      invariant ReadsToEnd(answers) == consumed + ReadsToEnd(answers[consumed..])
      invariant var later := Delivered(answers[consumed..]);
                Delivered(answers) == Delivery(got + later.data, later.failed)
      invariant truncated <==> |Lossy(got)| > maxChars
      invariant kept == if truncated then EncodeAll(Take(Lossy(got), maxChars)) else got
    {
      var next := answers[consumed];
      consumed := consumed + 1;
      assert answers[consumed - 1..][1..] == answers[consumed..];
      if next.Failed? {
        return Err(()), consumed;
      }
      if next.data == [] {
        assert got + [] == got;
        break;
      }
      ghost var before := got;
      got := got + next.data;
      Assoc(before, next.data, Delivered(answers[consumed..]).data);
      if truncated {
        OverlongIsFinal(before, next.data, maxChars);
        continue;
      }
      kept := kept + next.data;
      var text := Lossy(kept);
      if |text| > maxChars {
        kept := EncodeAll(text[..maxChars]);
        truncated := true;
      }
    }
    assert got + [] == got;
    LossyRoundTrip(Take(Lossy(got), maxChars));
    var text := Lossy(kept);
    var (shown, alsoTruncated) := TruncateUtf8Chars(text, maxChars);
    assert text[..|text|] == text;
    r := Ok((shown, truncated || alsoTruncated));
  }
}
