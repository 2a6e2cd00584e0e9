/** Printing events as an LF-terminated event stream, and what the parser makes of the print. */
module SseRoundTrip {
  import opened Common
  import opened Text
  import opened Sse
  import opened SseChunks

  // ----- printing

  function Labelled(name: string, value: Option<string>): seq<string> {
    match value
    case Some(v) => [name + ": " + v]
    case None => []
  }

  function DataPrint(parts: seq<string>): seq<string> {
    if parts == [] then [] else Labelled("data", Some(parts[0])) + DataPrint(parts[1..])
  }

  function EventLines(e: SseEvent): seq<string> {
    Labelled("event", e.event) + Labelled("id", e.id)
    + Labelled("retry", if e.retryMs.Some? then Some(PrintNat(e.retryMs.value)) else None)
    + DataPrint(Split(e.data, '\n'))
  }

  function PrintEvent(e: SseEvent): string {
    Join(EventLines(e), "\n") + "\n\n"
  }

  function PrintAll(es: seq<SseEvent>): string {
    if es == [] then "" else PrintEvent(es[0]) + PrintAll(es[1..])
  }

  /** What the lines of an event can carry at all: no line feed in a field, no NUL in an id. */
  predicate WellLined(e: SseEvent) {
    && (e.event.Some? ==> '\n' !in e.event.value)
    && (e.id.Some? ==> '\n' !in e.id.value && '\0' !in e.id.value)
  }

  /** Nothing that ends a line ends in a carriage return. */
  predicate NoCrAtLineEnd(e: SseEvent) {
    && (e.event.Some? ==> StripCr(e.event.value) == e.event.value)
    && (e.id.Some? ==> StripCr(e.id.value) == e.id.value)
    && forall i :: 0 <= i < |Split(e.data, '\n')| ==>
         StripCr(Split(e.data, '\n')[i]) == Split(e.data, '\n')[i]
  }

  predicate Printable(e: SseEvent) {
    WellLined(e) && NoCrAtLineEnd(e)
  }

  // ----- what the parser makes of one line

  function StripAll(parts: seq<string>): seq<string> {
    if parts == [] then [] else [StripCr(parts[0])] + StripAll(parts[1..])
  }

  /** The event with one carriage return taken off every line that ends in one. */
  function Chomp(e: SseEvent): SseEvent {
    SseEvent(
      if e.event.Some? then Some(StripCr(e.event.value)) else None,
      if e.id.Some? then Some(StripCr(e.id.value)) else None,
      e.retryMs,
      Join(StripAll(Split(e.data, '\n')), "\n"))
  }

  function ChompAll(es: seq<SseEvent>): seq<SseEvent> {
    if es == [] then [] else [Chomp(es[0])] + ChompAll(es[1..])
  }

  lemma FirstColon(name: string, rest: string)
    requires ':' !in name
    ensures Find(name + ":" + rest, ":") == Some(|name|)
  {
    var s := name + ":" + rest;
    assert s[|name|..|name| + 1] == ":";
    forall j: nat | j < |name|
      ensures !OccursAt(s, ":", j)
    {
      assert s[j..j + 1][0] == name[j];
    }
    FindAt(s, ":", |name|);
  }

  lemma FieldOfLine(name: string, v: string)
    requires name != "" && ':' !in name
    ensures LineField(name + ": " + v) == Some(Field(name, StripCr(v)))
  {
    var line := name + ": " + v;
    var w := StripCr(v);
    assert StripCr(line) == name + ":" + (" " + w) by {
      assert line == name + ":" + (" " + v);
    }
    FirstColon(name, " " + w);
    hide Find;
    var stripped := name + ":" + (" " + w);
    assert stripped[..|name|] == name && stripped[|name| + 1..] == " " + w;
    assert (" " + w)[1..] == w;
    assert stripped[0] == name[0];
  }

  // ----- what the parser makes of one event

  function LabelledFields(name: string, value: Option<string>): seq<Field> {
    match value
    case Some(v) => [Field(name, StripCr(v))]
    case None => []
  }

  function DataFields(parts: seq<string>): seq<Field> {
    if parts == [] then [] else [Field("data", StripCr(parts[0]))] + DataFields(parts[1..])
  }

  lemma FieldsOfLabelled(name: string, value: Option<string>)
    requires name != "" && ':' !in name
    ensures FieldsOf(Labelled(name, value)) == LabelledFields(name, value)
  {
    hide LineField;
    match value {
      case Some(v) =>
        FieldOfLine(name, v);
        var lines := [name + ": " + v];
        assert lines[1..] == [];
      case None =>
    }
  }

  lemma {:induction false} FieldsOfData(parts: seq<string>)
    ensures FieldsOf(DataPrint(parts)) == DataFields(parts)
  {
    hide FieldsOf, Labelled;
    if parts == [] {
      NoLines();
      var none: seq<string> := [];
      assert none[..0] == none;
    } else {
      FieldsOfLabelled("data", Some(parts[0]));
      FieldsOfConcat(Labelled("data", Some(parts[0])), DataPrint(parts[1..]));
      FieldsOfData(parts[1..]);
    }
  }

  lemma {:induction false} AppendData(fields: seq<Field>, parts: seq<string>)
    ensures var more := fields + DataFields(parts);
            && LastValue(more, "event") == LastValue(fields, "event")
            && LastValue(more, "id") == LastValue(fields, "id")
            && RetryOf(more) == RetryOf(fields)
            && DataLines(more) == DataLines(fields) + StripAll(parts)
    decreases |parts|
  {
    hide LastValue, RetryOf, DataLines;
    if parts == [] {
      assert fields + DataFields(parts) == fields;
    } else {
      var f := Field("data", StripCr(parts[0]));
      NextField(fields, f);
      AppendData(fields + [f], parts[1..]);
      Assoc(fields, [f], DataFields(parts[1..]));
      Assoc(DataLines(fields), [f.value], StripAll(parts[1..]));
    }
  }

  lemma RetryPrinted(n: u64)
    ensures StripCr(PrintNat(n)) == PrintNat(n) && ParseU64(PrintNat(n)) == Some(n)
  {
    ParsePrinted(n);
    var s := PrintNat(n);
    assert IsDigit(s[|s| - 1]);
  }

  lemma EventOfLines(e: SseEvent)
    requires WellLined(e)
    ensures FieldsOf(EventLines(e)) != []
    ensures EventOf(FieldsOf(EventLines(e))) == Chomp(e)
  {
    var retry := if e.retryMs.Some? then Some(PrintNat(e.retryMs.value)) else None;
    var (ev, id, re, da) := (Labelled("event", e.event), Labelled("id", e.id), Labelled("retry", retry),
                             DataPrint(Split(e.data, '\n')));
    var (fe, fi, fr) := (LabelledFields("event", e.event), LabelledFields("id", e.id), LabelledFields("retry", retry));
    FieldsOfConcat(ev + id + re, da);
    FieldsOfConcat(ev + id, re);
    FieldsOfConcat(ev, id);
    FieldsOfLabelled("event", e.event);
    FieldsOfLabelled("id", e.id);
    FieldsOfLabelled("retry", retry);
    FieldsOfData(Split(e.data, '\n'));
    AppendData(fe + fi + fr, Split(e.data, '\n'));
    if e.retryMs.Some? {
      RetryPrinted(e.retryMs.value);
    }
    HeadFields(e, retry);
    assert [] + StripAll(Split(e.data, '\n')) == StripAll(Split(e.data, '\n'));
  }

  lemma HeadFields(e: SseEvent, retry: Option<string>)
    requires WellLined(e)
    requires e.retryMs.Some? <==> retry.Some?
    requires retry.Some? ==> StripCr(retry.value) == retry.value && ParseU64(retry.value) == e.retryMs
    ensures var fields := LabelledFields("event", e.event) + LabelledFields("id", e.id)
                          + LabelledFields("retry", retry);
            && LastValue(fields, "event") == Chomp(e).event
            && LastValue(fields, "id") == Chomp(e).id
            && RetryOf(fields) == e.retryMs
            && DataLines(fields) == []
  {
    hide LastValue, RetryOf, DataLines, ParseU64, Join, Split;
    NoLines();
    var fe := LabelledFields("event", e.event);
    var fi := fe + LabelledFields("id", e.id);
    if e.event.Some? {
      assert [] + fe == fe;
      NextField([], fe[0]);
    }
    if e.id.Some? {
      NextField(fe, Field("id", StripCr(e.id.value)));
    } else {
      assert fi == fe;
    }
    if retry.Some? {
      NextField(fi, Field("retry", retry.value));
    } else {
      assert fi + [] == fi;
    }
  }

  // ----- the lines of a printed event as text

  /** A line that neither is blank, nor holds a line feed, nor starts with a carriage return. */
  predicate PlainLine(line: string) {
    line != "" && '\n' !in line && line[0] != '\r'
  }

  predicate PlainLines(lines: seq<string>) {
    forall i :: 0 <= i < |lines| ==> PlainLine(lines[i])
  }

  lemma {:induction false} DataPrintPlain(parts: seq<string>)
    requires forall i :: 0 <= i < |parts| ==> '\n' !in parts[i]
    ensures PlainLines(DataPrint(parts)) && |DataPrint(parts)| == |parts|
  {
    if parts != [] {
      DataPrintPlain(parts[1..]);
      LabelledPlain("data", Some(parts[0]));
    }
  }

  lemma LabelledPlain(name: string, value: Option<string>)
    requires name != "" && '\n' !in name && name[0] != '\r' && (value.Some? ==> '\n' !in value.value)
    ensures PlainLines(Labelled(name, value)) && |Labelled(name, value)| == if value.Some? then 1 else 0
  {
    if value.Some? {
      assert PlainLine(name + ": " + value.value);
    }
  }

  lemma PlainConcat(a: seq<string>, b: seq<string>)
    requires PlainLines(a) && PlainLines(b)
    ensures PlainLines(a + b)
  {
  }

  lemma RetryPlain(retryMs: Option<u64>)
    ensures PlainLines(Labelled("retry", if retryMs.Some? then Some(PrintNat(retryMs.value)) else None))
  {
    if retryMs.Some? {
      ParsePrinted(retryMs.value);
      LabelledPlain("retry", Some(PrintNat(retryMs.value)));
    }
  }

  lemma EventLinesPlain(e: SseEvent)
    requires WellLined(e)
    ensures PlainLines(EventLines(e)) && EventLines(e) != []
  {
    hide Labelled, DataPrint, PlainLines, Split;
    var event, id := Labelled("event", e.event), Labelled("id", e.id);
    var retry := Labelled("retry", if e.retryMs.Some? then Some(PrintNat(e.retryMs.value)) else None);
    var data := Split(e.data, '\n');
    SplitParts(e.data, '\n');
    LabelledPlain("event", e.event);
    LabelledPlain("id", e.id);
    RetryPlain(e.retryMs);
    DataPrintPlain(data);
    PlainConcat(event, id);
    PlainConcat(event + id, retry);
    PlainConcat(event + id + retry, DataPrint(data));
  }

  /** Text whose line feeds stand alone, not at an end, and not before a carriage return. */
  predicate PlainBlock(s: string) {
    && s != "" && s[0] != '\n' && s[0] != '\r' && s[|s| - 1] != '\n'
    && forall i :: 0 <= i < |s| - 1 && s[i] == '\n' ==> s[i + 1] != '\n' && s[i + 1] != '\r'
  }

  lemma {:induction false} JoinIsPlain(lines: seq<string>)
    requires lines != [] && PlainLines(lines)
    ensures PlainBlock(Join(lines, "\n"))
  {
    assert PlainLine(lines[0]);
    if |lines| > 1 {
      JoinIsPlain(lines[1..]);
      GluePlain(lines[0], Join(lines[1..], "\n"));
    }
  }

  lemma GluePlain(line: string, block: string)
    requires PlainLine(line) && PlainBlock(block)
    ensures PlainBlock(line + "\n" + block)
  {
    var s := line + "\n" + block;
    forall i | 0 <= i < |s| - 1 && s[i] == '\n'
      ensures s[i + 1] != '\n' && s[i + 1] != '\r'
    {
      if i > |line| {
        assert s[i] == block[i - |line| - 1] && s[i + 1] == block[i - |line|];
      }
    }
  }

  /** A stream in which no carriage return follows a line feed or starts the text. */
  predicate NoLfCr(s: string) {
    && (s != "" ==> s[0] != '\r')
    && forall i :: 0 <= i < |s| - 1 && s[i] == '\n' ==> s[i + 1] != '\r'
  }

  lemma NoCrlfBlank(s: string)
    requires NoLfCr(s)
    ensures Find(s, CRLF_BLANK).None?
  {
    forall i: nat
      ensures !OccursAt(s, CRLF_BLANK, i)
    {
      CrlfBlankAt(s, i);
    }
    FindNone(s, CRLF_BLANK);
  }

  /** The parser cuts a printed event off exactly where its blank line is. */
  lemma DrainPlainBlock(block: string, rest: string)
    requires PlainBlock(block) && NoLfCr(rest)
    ensures NoLfCr(block + "\n\n" + rest)
    ensures Drain(block + "\n\n" + rest) == Drained([block] + Drain(rest).blocks, Drain(rest).rest)
  {
    var s := block + "\n\n" + rest;
    LfAfterPlainBlock(block, rest);
    hide Find, Drain, OccursAt;
    NoCrlfBlank(s);
    DrainStep(s);
    assert s[..|block|] == block && s[|block| + 2..] == rest;
  }

  lemma LfAfterPlainBlock(block: string, rest: string)
    requires PlainBlock(block) && NoLfCr(rest)
    ensures NoLfCr(block + "\n\n" + rest)
    ensures Find(block + "\n\n" + rest, LF_BLANK) == Some(|block|)
  {
    hide Find, OccursAt;
    var s := block + "\n\n" + rest;
    forall i | 0 <= i < |s| - 1 && s[i] == '\n'
      ensures s[i + 1] != '\r'
    {
      if i >= |block| + 2 {
        assert s[i] == rest[i - |block| - 2] && s[i + 1] == rest[i - |block| - 1];
      }
    }
    LfBlankAt(s, |block|);
    forall j: nat | j < |block|
      ensures !OccursAt(s, LF_BLANK, j)
    {
      LfBlankAt(s, j);
    }
    FindAt(s, LF_BLANK, |block|);
  }

  // ----- all events

  lemma PrintedBlock(e: SseEvent)
    requires WellLined(e)
    ensures PlainBlock(Join(EventLines(e), "\n"))
    ensures BlockEvent(Join(EventLines(e), "\n")) == Some(Chomp(e))
  {
    hide EventLines, Join, Split, FieldsOf, EventOf, Chomp;
    var lines := EventLines(e);
    EventLinesPlain(e);
    JoinIsPlain(lines);
    forall i | 0 <= i < |lines|
      ensures '\n' !in lines[i]
    {
      assert PlainLine(lines[i]);
    }
    SplitJoin(lines, '\n');
    EventOfLines(e);
  }

  /** Printed events come back in order, less one carriage return at the end of a line. */
  lemma {:induction false} ParsePrintedEvents(es: seq<SseEvent>)
    requires forall i :: 0 <= i < |es| ==> WellLined(es[i])
    ensures NoLfCr(PrintAll(es)) && Regular(PrintAll(es))
    ensures Drain(PrintAll(es)).rest == "" && EventsOf(Drain(PrintAll(es)).blocks) == ChompAll(es)
  {
    hide Find, Drain, BlockEvent, EventLines, Join, Chomp, Regular;
    if es == [] {
      EmptyDrain();
      RegularStep("");
    } else {
      var e, rest := es[0], PrintAll(es[1..]);
      ParsePrintedEvents(es[1..]);
      PrintedBlock(e);
      var block := Join(EventLines(e), "\n");
      DrainPlainBlock(block, rest);
      NoCrlfBlank(PrintAll(es));
      RegularStep(PrintAll(es));
      var blocks := [block] + Drain(rest).blocks;
      assert blocks[0] == block && blocks[1..] == Drain(rest).blocks;
    }
  }

  // ----- exactly which events survive

  lemma {:induction false} FieldValuesFitLines(lines: seq<string>)
    requires forall i :: 0 <= i < |lines| ==> '\n' !in lines[i]
    ensures forall i :: 0 <= i < |FieldsOf(lines)| ==> '\n' !in FieldsOf(lines)[i].value
  {
    hide Find;
    if lines != [] {
      FieldValuesFitLines(lines[1..]);
    }
  }

  lemma {:induction false} LastValueIsUsable(fields: seq<Field>, name: string)
    requires forall i :: 0 <= i < |fields| ==> '\n' !in fields[i].value
    ensures var v := LastValue(fields, name);
            v.Some? ==> '\n' !in v.value && (name == "id" ==> '\0' !in v.value)
  {
    if fields != [] {
      LastValueIsUsable(fields[..|fields| - 1], name);
    }
  }

  /** Whatever the block, the parser never yields an event that lines could not carry. */
  lemma ParsedIsWellLined(block: string)
    ensures BlockEvent(block).Some? ==> WellLined(BlockEvent(block).value)
  {
    hide Find, FieldsOf, LastValue, Join, RetryOf;
    SplitParts(block, '\n');
    FieldValuesFitLines(Split(block, '\n'));
    LastValueIsUsable(FieldsOf(Split(block, '\n')), "event");
    LastValueIsUsable(FieldsOf(Split(block, '\n')), "id");
  }

  lemma {:induction false} ParsedAreWellLined(blocks: seq<string>)
    ensures forall i :: 0 <= i < |EventsOf(blocks)| ==> WellLined(EventsOf(blocks)[i])
  {
    hide BlockEvent, WellLined;
    if blocks != [] {
      ParsedIsWellLined(blocks[0]);
      ParsedAreWellLined(blocks[1..]);
    }
  }

  lemma {:induction false} StripAllAt(parts: seq<string>)
    ensures |StripAll(parts)| == |parts|
    ensures forall i :: 0 <= i < |parts| ==> StripAll(parts)[i] == StripCr(parts[i])
  {
    if parts != [] {
      StripAllAt(parts[1..]);
    }
  }

  lemma ChompUnchangedIff(e: SseEvent)
    ensures Chomp(e) == e <==> NoCrAtLineEnd(e)
  {
    hide Split, Join, StripAll;
    var parts := Split(e.data, '\n');
    JoinSplit(e.data, '\n');
    SplitParts(e.data, '\n');
    StripAllAt(parts);
    if Chomp(e) == e {
      var stripped := StripAll(parts);
      forall i | 0 <= i < |stripped|
        ensures '\n' !in stripped[i]
      {
        assert '\n' !in parts[i];
      }
      SplitJoin(stripped, '\n');
      assert stripped == parts;
    }
    if NoCrAtLineEnd(e) {
      assert StripAll(parts) == parts;
    }
  }

  lemma {:induction false} ChompAllUnchangedIff(es: seq<SseEvent>)
    ensures ChompAll(es) == es <==> forall i :: 0 <= i < |es| ==> NoCrAtLineEnd(es[i])
  {
    hide Chomp, NoCrAtLineEnd;
    if es != [] {
      ChompUnchangedIff(es[0]);
      ChompAllUnchangedIff(es[1..]);
      assert ChompAll(es)[0] == Chomp(es[0]) && ChompAll(es)[1..] == ChompAll(es[1..]);
      if forall i :: 0 <= i < |es| ==> NoCrAtLineEnd(es[i]) {
        assert es == [es[0]] + es[1..];
      }
      assert forall i :: 1 <= i < |es| ==> es[i] == es[1..][i - 1];
    }
  }

  /** Printing and parsing gives back exactly the events that are printable. */
  lemma RoundTripIffPrintable(es: seq<SseEvent>)
    ensures (forall i :: 0 <= i < |es| ==> Printable(es[i])) <==>
            EventsOf(Drain(PrintAll(es)).blocks) == es && Drain(PrintAll(es)).rest == ""
  {
    hide Drain, EventsOf, PrintAll, ChompAll, NoCrAtLineEnd, WellLined, Regular;
    ChompAllUnchangedIff(es);
    ParsedAreWellLined(Drain(PrintAll(es)).blocks);
    if forall i :: 0 <= i < |es| ==> WellLined(es[i]) {
      ParsePrintedEvents(es);
    }
  }
}
