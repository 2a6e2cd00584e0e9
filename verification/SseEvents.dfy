/** How the cuts between chunks affect the events that come out, blocks without fields set aside. */
module SseEvents {
  import opened Common
  import opened Text
  import opened Sse
  import opened SseChunks

  /** The stretches that blank lines leave of a text, the last of them unterminated. */
  function Stretches(s: string): seq<string> {
    Drain(s).blocks + [Drain(s).rest]
  }

  /** In front of every CRLF blank line that is cut at, at most one stretch sets a field. */
  predicate EventRegular(s: string)
    decreases |s|
  {
    match Find(s, CRLF_BLANK)
    case None => true
    case Some(j) => |EventsOf(Stretches(s[..j]))| <= 1 && EventRegular(s[j + 4..])
  }

  lemma EventRegularStep(s: string)
    ensures Find(s, CRLF_BLANK).None? ==> EventRegular(s)
    ensures Find(s, CRLF_BLANK).Some? ==>
              var j := Find(s, CRLF_BLANK).value;
              EventRegular(s) <==> |EventsOf(Stretches(s[..j]))| <= 1 && EventRegular(s[j + 4..])
  {
    hide Find, Stretches, EventsOf;
  }

  // ----- the fields of a block that holds blank lines

  lemma SplitUnfolds(s: string)
    requires s != ""
    ensures var parts := Split(s[1..], '\n');
            Split(s, '\n') == if s[0] == '\n' then [""] + parts else [[s[0]] + parts[0]] + parts[1..]
  {
  }

  lemma {:induction false} SplitAround(x: string, y: string)
    ensures Split(x + ("\n" + y), '\n') == Split(x, '\n') + Split(y, '\n')
  {
    var s := x + ("\n" + y);
    if x == "" {
      assert s == "\n" + y && s[1..] == y;
    } else {
      assert s[1..] == x[1..] + ("\n" + y) && s[0] == x[0];
      SplitAround(x[1..], y);
      SplitUnfolds(s);
      SplitUnfolds(x);
      GluedParts([x[0]], Split(x[1..], '\n'), Split(y, '\n'));
    }
  }

  lemma GluedParts(c: string, a: seq<string>, b: seq<string>)
    requires a != []
    ensures [""] + (a + b) == ([""] + a) + b
    ensures [c + (a + b)[0]] + (a + b)[1..] == ([c + a[0]] + a[1..]) + b
  {
    assert (a + b)[1..] == a[1..] + b;
  }

  lemma SplitConcat(x: string, y: string)
    ensures Split(x + "\n\n" + y, '\n') == Split(x, '\n') + [""] + Split(y, '\n')
  {
    hide Split;
    assert x + "\n\n" + y == x + ("\n" + ("\n" + y));
    SplitAround(x, "\n" + y);
    SplitAround("", y);
    assert "" + ("\n" + y) == "\n" + y;
    NoParts();
    Assoc(Split(x, '\n'), [""], Split(y, '\n'));
  }

  lemma NoParts()
    ensures Split("", '\n') == [""]
  {
  }

  function BlockFields(block: string): seq<Field> {
    FieldsOf(Split(block, '\n'))
  }

  lemma FieldsAddUp(x: string, y: string)
    ensures BlockFields(x + "\n\n" + y) == BlockFields(x) + BlockFields(y)
  {
    hide Split, LineField;
    SplitConcat(x, y);
    FieldsOfConcat(Split(x, '\n') + [""], Split(y, '\n'));
    FieldsOfConcat(Split(x, '\n'), [""]);
    BlankLineSetsNothing();
    assert FieldsOf(Split(x, '\n')) + [] == FieldsOf(Split(x, '\n'));
  }

  lemma BlankLineSetsNothing()
    ensures FieldsOf([""]) == []
  {
    assert LineField("").None?;
    assert [""][1..] == [];
  }

  lemma NoBlocksNoEvents()
    ensures EventsOf([]) == []
  {
  }

  lemma EventOfBlock(block: string)
    ensures EventsOf([block]) == if BlockFields(block) == [] then [] else [EventOf(BlockFields(block))]
  {
    hide EventOf, FieldsOf, Split;
    assert [block][1..] == [];
  }

  /** If not both of two stretches set fields, merging them does not change their events. */
  lemma MergedEvents(x: string, y: string)
    requires BlockFields(x) == [] || BlockFields(y) == []
    ensures EventsOf([x + "\n\n" + y]) == EventsOf([x]) + EventsOf([y])
  {
    hide EventsOf, BlockFields;
    FieldsAddUp(x, y);
    EventOfBlock(x);
    EventOfBlock(y);
    EventOfBlock(x + "\n\n" + y);
    assert [] + BlockFields(y) == BlockFields(y) && BlockFields(x) + [] == BlockFields(x);
  }

  // ----- the stretches of a text without a CRLF blank line

  lemma StretchesStep(s: string)
    requires Find(s, CRLF_BLANK).None?
    ensures Find(s, LF_BLANK).None? ==> Stretches(s) == [s]
    ensures Find(s, LF_BLANK).Some? ==>
              var i := Find(s, LF_BLANK).value;
              && i + 2 <= |s| && s == s[..i] + "\n\n" + s[i + 2..]
              && Find(s[i + 2..], CRLF_BLANK).None?
              && Stretches(s) == [s[..i]] + Stretches(s[i + 2..])
  {
    hide Find, Drain;
    DrainStep(s);
    if Find(s, LF_BLANK).Some? {
      var i := Find(s, LF_BLANK).value;
      FindIsFirst(s, LF_BLANK);
      BoundaryKind(s);
      LfBlankAt(s, i);
      FindNoneInSuffix(s, CRLF_BLANK, i + 2);
      Assoc([s[..i]], Drain(s[i + 2..]).blocks, [Drain(s[i + 2..]).rest]);
      AroundBlank(s, i);
    } else {
      NoStretchBefore(s);
    }
  }

  lemma NoStretchBefore(s: string)
    requires Drain(s) == Drained([], s)
    ensures Stretches(s) == [s]
  {
    hide Drain;
  }

  lemma AroundBlank(s: string, i: nat)
    requires i + 2 <= |s| && s[i] == '\n' && s[i + 1] == '\n'
    ensures s == s[..i] + "\n\n" + s[i + 2..]
  {
    var rest := s[i..];
    TakeDrop(s, i);
    DropDrop(s, i, 2);
    TakeDrop(rest, 2);
    assert rest[..2] == "\n\n";
    Assoc(s[..i], "\n\n", s[i + 2..]);
  }

  /** A text that sets a field has a stretch that does. */
  lemma {:induction false} SomeStretchHasFields(s: string)
    requires Find(s, CRLF_BLANK).None?
    ensures EventsOf(Stretches(s)) == [] <==> BlockFields(s) == []
    decreases |s|
  {
    hide Find, Stretches, BlockFields, EventsOf;
    StretchesStep(s);
    if Find(s, LF_BLANK).None? {
      EventOfBlock(s);
    } else {
      var i := Find(s, LF_BLANK).value;
      var x, y := s[..i], s[i + 2..];
      SomeStretchHasFields(y);
      FieldsAddUp(x, y);
      EventOfBlock(x);
      EventsOfConcat([x], Stretches(y));
    }
  }

  // ----- draining a prefix first

  /** Draining a prefix and then the rest gives the events and the rest of draining the whole. */
  predicate SameEvents(a: string, b: string) {
    var later := Drain(Drain(a).rest + b);
    && EventsOf(Drain(a + b).blocks) == EventsOf(Drain(a).blocks) + EventsOf(later.blocks)
    && Drain(a + b).rest == later.rest
  }

  lemma {:induction false} EventsSplit(a: string, b: string)
    requires EventRegular(a + b)
    ensures EventRegular(Drain(a).rest + b) && SameEvents(a, b)
    decreases |a|
  {
    hide Find, Drain, EventRegular, EventsOf, Stretches, SameEvents;
    DrainStep(a);
    if Find(a, CRLF_BLANK).Some? {
      var j := Find(a, CRLF_BLANK).value;
      FindStable(a, b, CRLF_BLANK);
      DrainStep(a + b);
      EventRegularStep(a + b);
      assert (a + b)[j + 4..] == a[j + 4..] + b && (a + b)[..j] == a[..j];
      EventsSplit(a[j + 4..], b);
      CutBoth(a, b, j, 4);
    } else if Find(a, LF_BLANK).Some? {
      var i := Find(a, LF_BLANK).value;
      BoundaryKind(a);
      AfterLf(a, b, i);
      assert (a + b)[i + 2..] == a[i + 2..] + b && (a + b)[..i] == a[..i];
      EventsSplit(a[i + 2..], b);
      CutFirst(a, b, i);
    } else {
      NothingDrained(a, b);
    }
  }

  lemma NothingDrained(a: string, b: string)
    requires Drain(a) == Drained([], a)
    ensures SameEvents(a, b)
  {
    hide Drain;
    assert [] + EventsOf(Drain(a + b).blocks) == EventsOf(Drain(a + b).blocks);
  }

  /** Both drains cut at the same place. */
  lemma CutBoth(a: string, b: string, at: nat, skip: nat)
    requires CutAt(a, at, skip) && CutAt(a + b, at, skip)
    requires (a + b)[at + skip..] == a[at + skip..] + b && (a + b)[..at] == a[..at]
    requires SameEvents(a[at + skip..], b)
    ensures SameEvents(a, b)
  {
    hide Drain, EventsOf;
    var tail := a[at + skip..];
    EventsOfConcat([a[..at]], Drain(tail).blocks);
    EventsOfConcat([a[..at]], Drain(tail + b).blocks);
    var later := Drain(Drain(tail).rest + b);
    Assoc(EventsOf([a[..at]]), EventsOf(Drain(tail).blocks), EventsOf(later.blocks));
  }

  /** The prefix is cut at an LF blank line, which the whole may only be cut around. */
  lemma CutFirst(a: string, b: string, i: nat)
    requires CutAt(a, i, 2)
    requires (a + b)[i + 2..] == a[i + 2..] + b && (a + b)[..i] == a[..i]
    requires SameEvents(a[i + 2..], b) && CutOpens(a + b, i)
    ensures SameEvents(a, b)
  {
    hide Drain, EventsOf;
    var tail := a[i + 2..];
    EventsOfConcat([a[..i]], Drain(tail).blocks);
    var later := Drain(Drain(tail).rest + b);
    Assoc(EventsOf([a[..i]]), EventsOf(Drain(tail).blocks), EventsOf(later.blocks));
  }

  /** Cutting at an LF blank line first does not change the events or the rest. */
  predicate CutOpens(s: string, i: nat) {
    && i + 2 <= |s|
    && EventsOf(Drain(s).blocks) == EventsOf([s[..i]]) + EventsOf(Drain(s[i + 2..]).blocks)
    && Drain(s).rest == Drain(s[i + 2..]).rest
  }

  lemma AfterLf(a: string, b: string, i: nat)
    requires Find(a, CRLF_BLANK).None? && Find(a, LF_BLANK) == Some(i) && EventRegular(a + b)
    ensures i + 2 <= |a| && CutOpens(a + b, i) && EventRegular((a + b)[i + 2..])
  {
    hide Find, Drain, EventRegular, EventsOf, Stretches;
    var s := a + b;
    BoundaryKind(a);
    EventRegularStep(s);
    FindStable(a, b, LF_BLANK);
    if Find(s, CRLF_BLANK).None? {
      DrainStep(s);
      FindNoneInSuffix(s, CRLF_BLANK, i + 2);
      EventRegularStep(s[i + 2..]);
      EventsOfConcat([s[..i]], Drain(s[i + 2..]).blocks);
    } else {
      var j := Find(s, CRLF_BLANK).value;
      LfBeforeCrlf(a, b, i, j);
      MergedCut(s, i, j);
    }
  }

  /** The CRLF blank line completes behind the LF blank line. */
  lemma LfBeforeCrlf(a: string, b: string, i: nat, j: nat)
    requires Find(a, CRLF_BLANK).None? && Find(a, LF_BLANK) == Some(i) && Find(a + b, CRLF_BLANK) == Some(j)
    ensures i + 2 <= j && j + 4 <= |a + b| && Find((a + b)[..j], LF_BLANK) == Some(i)
    ensures Find((a + b)[..j], CRLF_BLANK).None?
  {
    FindIsFirst(a, LF_BLANK);
    FindIsFirst(a, CRLF_BLANK);
    FindIsFirst(a + b, CRLF_BLANK);
    hide Find, OccursAt;
    var s, front := a + b, (a + b)[..j];
    LfBlankAt(a, i);
    CrlfBlankAt(s, j);
    CrlfBlankAt(a, j);
    LfBlankAt(front, i);
    forall n: nat | n < i
      ensures !OccursAt(front, LF_BLANK, n)
    {
      LfBlankAt(front, n);
      LfBlankAt(a, n);
    }
    FindAt(front, LF_BLANK, i);
    forall n: nat
      ensures !OccursAt(front, CRLF_BLANK, n)
    {
      CrlfBlankAt(front, n);
      CrlfBlankAt(s, n);
    }
    FindNone(front, CRLF_BLANK);
  }

  lemma CrlfInSuffix(s: string, j: nat, k: nat)
    requires Find(s, CRLF_BLANK) == Some(j) && k <= j && j + 4 <= |s|
    ensures Find(s[k..], CRLF_BLANK) == Some(j - k)
  {
    FindIsFirst(s, CRLF_BLANK);
    hide Find, OccursAt;
    forall n: nat | n <= j - k
      ensures OccursAt(s[k..], CRLF_BLANK, n) <==> n == j - k
    {
      OccursInSuffix(s, k, CRLF_BLANK, n);
    }
    FindAt(s[k..], CRLF_BLANK, j - k);
  }

  /** What stands in front of a CRLF blank line is cut at an LF blank line in it first. */
  lemma MergedCut(s: string, i: nat, j: nat)
    requires Find(s, CRLF_BLANK) == Some(j) && i + 2 <= j && j + 4 <= |s|
    requires Find(s[..j], LF_BLANK) == Some(i) && Find(s[..j], CRLF_BLANK).None?
    requires EventRegular(s)
    ensures CutOpens(s, i) && EventRegular(s[i + 2..])
  {
    hide Find, Drain, EventRegular, EventsOf, Stretches;
    var front, x, y, t := s[..j], s[..i], s[i + 2..j], s[i + 2..];
    EventRegularStep(s);
    DrainStep(s);
    CrlfInSuffix(s, j, i + 2);
    EventRegularStep(t);
    DrainStep(t);
    var n := j - (i + 2);
    DropDrop(s, i + 2, n + 4);
    Slice(s, i + 2, j);
    Slice(s, i, j);
    OneOfTwo(front, i);
    FewerStretches(front, i);
    MergedEventsAre(front, i);
    var after := Drain(s[j + 4..]).blocks;
    EventsOfConcat([front], after);
    EventsOfConcat([y], after);
    Assoc(EventsOf([x]), EventsOf([y]), EventsOf(after));
  }

  lemma FewerStretches(front: string, i: nat)
    requires Find(front, CRLF_BLANK).None? && Find(front, LF_BLANK) == Some(i)
    ensures i + 2 <= |front|
    ensures |EventsOf(Stretches(front[i + 2..]))| <= |EventsOf(Stretches(front))|
  {
    hide Find, Drain, EventsOf, Stretches;
    StretchesStep(front);
    EventsOfConcat([front[..i]], Stretches(front[i + 2..]));
  }

  /** Of the two parts at an LF blank line only one sets fields. */
  lemma OneOfTwo(front: string, i: nat)
    requires Find(front, CRLF_BLANK).None? && Find(front, LF_BLANK) == Some(i)
    requires |EventsOf(Stretches(front))| <= 1
    ensures i + 2 <= |front| && (BlockFields(front[..i]) == [] || BlockFields(front[i + 2..]) == [])
  {
    hide Find, Drain, EventsOf, Stretches, BlockFields;
    StretchesStep(front);
    EventsOfConcat([front[..i]], Stretches(front[i + 2..]));
    SomeStretchHasFields(front[i + 2..]);
    EventOfBlock(front[..i]);
  }

  lemma MergedEventsAre(front: string, i: nat)
    requires Find(front, CRLF_BLANK).None? && Find(front, LF_BLANK) == Some(i) && i + 2 <= |front|
    requires BlockFields(front[..i]) == [] || BlockFields(front[i + 2..]) == []
    ensures EventsOf([front]) == EventsOf([front[..i]]) + EventsOf([front[i + 2..]])
  {
    hide Find, Drain, EventsOf, Stretches, BlockFields;
    StretchesStep(front);
    MergedEvents(front[..i], front[i + 2..]);
  }

  // ----- all pushes

  lemma {:induction false} PushedEventsAreDrained(buffer: string, chunks: seq<string>)
    requires FindEventBoundary(buffer).None?
    requires EventRegular(buffer + Flatten(chunks))
    ensures var pushed := PushBlocks(buffer, chunks); var whole := Drain(buffer + Flatten(chunks));
            EventsOf(pushed.blocks) == EventsOf(whole.blocks) && pushed.rest == whole.rest
    decreases |chunks|
  {
    hide Find, Drain, EventRegular, EventsOf, SameEvents;
    if chunks == [] {
      DrainStep(buffer);
      assert buffer + Flatten(chunks) == buffer;
    } else {
      var first, later := buffer + chunks[0], Flatten(chunks[1..]);
      Assoc(buffer, chunks[0], later);
      EventsSplit(first, later);
      DrainedRestHasNoBoundary(first);
      PushedEventsAreDrained(Drain(first).rest, chunks[1..]);
      EventsOfConcat(Drain(first).blocks, PushBlocks(Drain(first).rest, chunks[1..]).blocks);
      EventsUnfold(first, later);
    }
  }

  lemma EventsUnfold(a: string, b: string)
    requires SameEvents(a, b)
    ensures var later := Drain(Drain(a).rest + b);
            EventsOf(Drain(a + b).blocks) == EventsOf(Drain(a).blocks) + EventsOf(later.blocks)
            && Drain(a + b).rest == later.rest
  {
    hide Drain, EventsOf;
  }

  /** A cut right in front of the CRLF blank line gives the stretches events of their own. */
  lemma {:induction false} EventsShowCut(s: string) returns (k: nat)
    requires !EventRegular(s)
    ensures k <= |s| && |EventsOf(PushBlocks("", [s[..k], s[k..]]).blocks)| > |EventsOf(Drain(s).blocks)|
    decreases |s|
  {
    hide Find, Drain, EventRegular, EventsOf, Stretches, PushBlocks;
    EventRegularStep(s);
    var j := Find(s, CRLF_BLANK).value;
    BoundaryKind(s);
    DrainStep(s);
    var tail := s[j + 4..];
    EventsOfConcat([s[..j]], Drain(tail).blocks);
    EventOfBlock(s[..j]);
    if |EventsOf(Stretches(s[..j]))| > 1 {
      k := j;
      CutInFront(s, j);
    } else {
      var m := EventsShowCut(tail);
      k := j + 4 + m;
      CutBehind(s, j, m);
    }
  }

  lemma CutInFront(s: string, j: nat)
    requires Find(s, CRLF_BLANK) == Some(j) && j + 4 <= |s|
    ensures EventsOf(PushBlocks("", [s[..j], s[j..]]).blocks) ==
            EventsOf(Stretches(s[..j])) + EventsOf(Drain(s[j + 4..]).blocks)
  {
    hide Find, Drain, EventsOf, PushBlocks;
    var front := s[..j];
    TwoPushes(s, j);
    DrainedRestIsSuffix(front);
    var rest := Drain(front).rest;
    var head: string :| front == head + rest;
    var m := |head|;
    SuffixOfFront(s, j, head, rest);
    CrlfInSuffix(s, j, m);
    DrainStep(s[m..]);
    DropDrop(s, m, j - m + 4);
    var after := Drain(s[j + 4..]).blocks;
    Assoc(Drain(front).blocks, [rest], after);
    EventsOfConcat(Stretches(front), after);
  }

  lemma SuffixOfFront(s: string, j: nat, head: string, rest: string)
    requires j <= |s| && s[..j] == head + rest
    ensures rest + s[j..] == s[|head|..] && s[|head|..][..j - |head|] == rest
  {
    TakeDrop(s, j);
    Assoc(head, rest, s[j..]);
    assert (head + (rest + s[j..]))[|head|..] == rest + s[j..];
  }

  lemma CutBehind(s: string, j: nat, m: nat)
    requires Find(s, CRLF_BLANK) == Some(j) && j + 4 + m <= |s|
    ensures var tail := s[j + 4..];
            EventsOf(PushBlocks("", [s[..j + 4 + m], s[j + 4 + m..]]).blocks) ==
            EventsOf([s[..j]]) + EventsOf(PushBlocks("", [tail[..m], tail[m..]]).blocks)
  {
    hide Find, Drain, EventsOf, PushBlocks;
    var k := j + 4 + m;
    var front, tail := s[..k], s[j + 4..];
    CrlfInPrefix(s, j, k);
    DrainStep(front);
    Slice(s, j + 4, k);
    Slice(s, j, k);
    DropDrop(s, j + 4, m);
    TwoPushes(s, k);
    TwoPushes(tail, m);
    var x, y := Drain(tail[..m]).blocks, Drain(Drain(tail[..m]).rest + tail[m..]).blocks;
    Assoc([s[..j]], x, y);
    EventsOfConcat([s[..j]], x + y);
  }

  /**
   * Every chunking gives the events and the rest of one push, if and only if in front of every
   * CRLF blank line that is cut at, the stretches between LF blank lines give at most one event.
   */
  lemma SameEventsForEveryCutIff(s: string)
    ensures EventRegular(s) <==>
            forall chunks: seq<string> :: Flatten(chunks) == s ==>
              && EventsOf(PushBlocks("", chunks).blocks) == EventsOf(Drain(s).blocks)
              && PushBlocks("", chunks).rest == Drain(s).rest
  {
    hide Find, Drain, EventRegular, PushBlocks, Flatten, EventsOf;
    if EventRegular(s) {
      forall chunks: seq<string> | Flatten(chunks) == s
        ensures EventsOf(PushBlocks("", chunks).blocks) == EventsOf(Drain(s).blocks)
        ensures PushBlocks("", chunks).rest == Drain(s).rest
      {
        assert "" + s == s;
        EmptyDrain();
        PushedEventsAreDrained("", chunks);
      }
    } else {
      var k := EventsShowCut(s);
      FlattenTwo(s, k);
    }
  }

  predicate OneLine(s: string) {
    '\n' !in s && '\r' !in s
  }

  /** Two lines, an LF blank line between them and a CRLF blank line behind. */
  function MixedEnds(x: string, y: string): string {
    x + "\n\n" + y + CRLF_BLANK
  }

  lemma PartsOfMixedEnds(x: string, y: string)
    requires OneLine(x) && OneLine(y)
    ensures var front := x + "\n\n" + y; var s := MixedEnds(x, y); var j := |front|;
            && Find(s, CRLF_BLANK) == Some(j) && j + 4 == |s| && s[..j] == front && s[j + 4..] == ""
            && Find(front, LF_BLANK) == Some(|x|) && Find(front, CRLF_BLANK).None?
            && front[..|x|] == x && front[|x| + 2..] == y
  {
    var front, s := x + "\n\n" + y, MixedEnds(x, y);
    var j := |front|;
    assert s[j..j + 4] == CRLF_BLANK && front[|x|..|x| + 2] == LF_BLANK;
    BoundaryAt(s, CRLF_BLANK, j);
    BoundaryAt(front, LF_BLANK, |x|);
    NoCrlfIn(front);
  }

  /** The blocks of such a stream depend on the cuts; the events only if both lines set fields. */
  lemma MixedEndsIff(x: string, y: string)
    requires OneLine(x) && OneLine(y)
    ensures !Regular(MixedEnds(x, y))
    ensures EventRegular(MixedEnds(x, y)) <==> BlockFields(x) == [] || BlockFields(y) == []
  {
    hide Find, Drain, Regular, EventRegular, Stretches, EventsOf, BlockFields, MixedEnds;
    var front, s := x + "\n\n" + y, MixedEnds(x, y);
    PartsOfMixedEnds(x, y);
    NoCrlfIn(y);
    NoLfIn(y);
    RegularStep(s);
    EventRegularStep(s);
    EmptyDrain();
    EventRegularStep("");
    StretchesStep(front);
    StretchesStep(y);
    EventsOfConcat([x], [y]);
    EventOfBlock(x);
    EventOfBlock(y);
  }

  /** So a comment in front of an event does no harm. */
  lemma CommentsMayMerge()
    ensures EventRegular(MixedEnds(": ping", "data: b")) && !Regular(MixedEnds(": ping", "data: b"))
  {
    hide EventRegular, Regular, MixedEnds;
    CommentSetsNothing();
    MixedEndsIff(": ping", "data: b");
  }

  lemma NoLfIn(s: string)
    requires '\n' !in s
    ensures Find(s, LF_BLANK).None?
  {
    forall j: nat
      ensures !OccursAt(s, LF_BLANK, j)
    {
      LfBlankAt(s, j);
    }
    FindNone(s, LF_BLANK);
  }

  lemma CommentSetsNothing()
    ensures BlockFields(": ping") == []
  {
    SplitNone(": ping", '\n');
    assert LineField(": ping").None?;
    assert [": ping"][1..] == [];
  }

  /** A stream whose blocks do not depend on the cuts gives events that do not. */
  lemma {:induction false} RegularIsEventRegular(s: string)
    requires Regular(s)
    ensures EventRegular(s)
    decreases |s|
  {
    hide Find, Drain, Regular, EventRegular, Stretches, EventsOf;
    RegularStep(s);
    EventRegularStep(s);
    if Find(s, CRLF_BLANK).Some? {
      var j := Find(s, CRLF_BLANK).value;
      RegularIsEventRegular(s[j + 4..]);
      CrlfNotInFront(s, j);
      StretchesStep(s[..j]);
      EventOfBlock(s[..j]);
    }
  }

  lemma CrlfNotInFront(s: string, j: nat)
    requires Find(s, CRLF_BLANK) == Some(j) && j <= |s|
    ensures Find(s[..j], CRLF_BLANK).None?
  {
    FindIsFirst(s, CRLF_BLANK);
    hide Find, OccursAt;
    forall n: nat
      ensures !OccursAt(s[..j], CRLF_BLANK, n)
    {
      CrlfBlankAt(s[..j], n);
      CrlfBlankAt(s, n);
    }
    FindNone(s[..j], CRLF_BLANK);
  }
}
