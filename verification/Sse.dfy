/**
 * The Server-Sent Events parser: an incremental buffer that is cut at blank lines, and the
 * field parser for one block (sections 9.2.5 and 9.2.6 of the WHATWG HTML standard).
 */
module Sse {
  import opened Common
  import opened Text
  import opened Utf8

  const DEFAULT_MAX_BUFFER_BYTES: nat := 1024 * 1024

  datatype SseEvent = SseEvent(event: Option<string>, id: Option<string>, retryMs: Option<u64>, data: string)

  // ----- cutting the buffer into blocks

  const CRLF_BLANK: string := "\r\n\r\n"
  const LF_BLANK: string := "\n\n"

  /** A CRLF blank line anywhere in the buffer wins over an LF blank line in front of it. */
  function FindEventBoundary(buffer: string): (at: Option<nat>)
    ensures at.Some? ==> at.value + 2 <= |buffer|
  {
    match Find(buffer, CRLF_BLANK)
    case Some(i) => Some(i)
    case None => Find(buffer, LF_BLANK)
  }

  function BoundaryLength(buffer: string, at: nat): nat
    requires at <= |buffer|
  {
    if CRLF_BLANK <= buffer[at..] then 4 else 2
  }

  datatype Drained = Drained(blocks: seq<string>, rest: string)

  /** All blocks the buffer holds, and what stays in it. */
  function Drain(buffer: string): Drained
    decreases |buffer|
  {
    match FindEventBoundary(buffer)
    case None => Drained([], buffer)
    case Some(at) =>
      var later := Drain(buffer[at + BoundaryLength(buffer, at)..]);
      Drained([buffer[..at]] + later.blocks, later.rest)
  }

  // ----- the fields of one block

  datatype Field = Field(name: string, value: string)

  function StripCr(line: string): string {
    if line != "" && line[|line| - 1] == '\r' then line[..|line| - 1] else line
  }

  function StripSpace(value: string): string {
    if value != "" && value[0] == ' ' then value[1..] else value
  }

  /** The field a line sets; blank lines and comments set none. */
  function LineField(line: string): Option<Field> {
    var line := StripCr(line);
    if line == "" || line[0] == ':' then None
    else match Find(line, ":")
      case Some(i) => Some(Field(line[..i], StripSpace(line[i + 1..])))
      case None => Some(Field(line, ""))
  }

  function FieldsOf(lines: seq<string>): seq<Field> {
    if lines == [] then []
    else match LineField(lines[0])
      case Some(f) => [f] + FieldsOf(lines[1..])
      case None => FieldsOf(lines[1..])
  }

  predicate Usable(f: Field) {
    && (f.name == "id" ==> '\0' !in f.value)
    && (f.name == "retry" ==> ParseU64(f.value).Some?)
  }

  /** The value of the last usable field of that name. */
  function LastValue(fields: seq<Field>, name: string): Option<string> {
    if fields == [] then None
    else
      var f := fields[|fields| - 1];
      if f.name == name && Usable(f) then Some(f.value) else LastValue(fields[..|fields| - 1], name)
  }

  function DataLines(fields: seq<Field>): seq<string> {
    if fields == [] then []
    else
      var init := DataLines(fields[..|fields| - 1]);
      var f := fields[|fields| - 1];
      if f.name == "data" then init + [f.value] else init
  }

  function EventOf(fields: seq<Field>): SseEvent {
    SseEvent(
      LastValue(fields, "event"),
      LastValue(fields, "id"),
      RetryOf(fields),
      Join(DataLines(fields), "\n"))
  }

  /** What one block means: nothing when it sets no field, else the last values and all data. */
  function BlockEvent(block: string): Option<SseEvent> {
    var fields := FieldsOf(Split(block, '\n'));
    if fields == [] then None else Some(EventOf(fields))
  }

  function EventsOf(blocks: seq<string>): seq<SseEvent> {
    if blocks == [] then []
    else match BlockEvent(blocks[0])
      case Some(e) => [e] + EventsOf(blocks[1..])
      case None => EventsOf(blocks[1..])
  }

  lemma {:induction false} EventsOfConcat(a: seq<string>, b: seq<string>)
    ensures EventsOf(a + b) == EventsOf(a) + EventsOf(b)
  {
    hide BlockEvent;
    if a == [] {
      assert a + b == b;
    } else {
      assert (a + b)[1..] == a[1..] + b;
      EventsOfConcat(a[1..], b);
    }
  }

  lemma {:induction false} FieldsOfConcat(a: seq<string>, b: seq<string>)
    ensures FieldsOf(a + b) == FieldsOf(a) + FieldsOf(b)
  {
    hide LineField;
    if a == [] {
      assert a + b == b;
    } else {
      assert (a + b)[1..] == a[1..] + b;
      FieldsOfConcat(a[1..], b);
    }
  }

  function RetryOf(fields: seq<Field>): Option<u64> {
    match LastValue(fields, "retry")
    case Some(v) => ParseU64(v)
    case None => None
  }

  /** What one more line does to the fields collected so far. */
  lemma NextLine(lines: seq<string>, i: nat)
    requires i < |lines|
    ensures FieldsOf(lines[..i + 1]) ==
            match LineField(lines[i]) case Some(f) => FieldsOf(lines[..i]) + [f] case None => FieldsOf(lines[..i])
  {
    hide LineField;
    assert lines[..i + 1] == lines[..i] + [lines[i]];
    FieldsOfConcat(lines[..i], [lines[i]]);
    assert FieldsOf([lines[i]]) == match LineField(lines[i]) case Some(f) => [f] case None => [];
  }

  /** What one more field does to the event collected so far. */
  lemma NextField(fields: seq<Field>, f: Field)
    ensures var more := fields + [f];
            && LastValue(more, "event") == (if f.name == "event" then Some(f.value) else LastValue(fields, "event"))
            && LastValue(more, "id") ==
               (if f.name == "id" && '\0' !in f.value then Some(f.value) else LastValue(fields, "id"))
            && RetryOf(more) ==
               (if f.name == "retry" && ParseU64(f.value).Some? then ParseU64(f.value) else RetryOf(fields))
            && DataLines(more) == DataLines(fields) + (if f.name == "data" then [f.value] else [])
  {
    hide ParseU64;
    var more := fields + [f];
    assert more[|more| - 1] == f && more[..|more| - 1] == fields;
  }

  method ParseEventBlock(block: string) returns (r: Option<SseEvent>)
    ensures r == BlockEvent(block)
  {
    hide Find, Split, Join, ParseU64, FieldsOf, LastValue, RetryOf, DataLines;
    var event := SseEvent(None, None, None, "");
    var dataLines: seq<string> := [];
    var sawField := false;
    var lines := Split(block, '\n');
    ghost var fields: seq<Field> := [];
    NoLines();
    for i := 0 to |lines|
      invariant fields == FieldsOf(lines[..i])
      invariant sawField <==> fields != []
      invariant dataLines == DataLines(fields)
      invariant event.event == LastValue(fields, "event") && event.id == LastValue(fields, "id")
      invariant event.retryMs == RetryOf(fields)
    {
      NextLine(lines, i);
      var line := StripCr(lines[i]);
      if line == "" || line[0] == ':' {
        continue;
      }
      sawField := true;
      var field, value := line, "";
      match Find(line, ":") {
        case Some(at) => field, value := line[..at], StripSpace(line[at + 1..]);
        case None =>
      }
      NextField(fields, Field(field, value));
      fields := fields + [Field(field, value)];
      if field == "event" {
        event := event.(event := Some(value));
      } else if field == "id" {
        if '\0' !in value {
          event := event.(id := Some(value));
        }
      } else if field == "retry" {
        match ParseU64(value) {
          case Some(ms) => event := event.(retryMs := Some(ms));
          case None =>
        }
      } else if field == "data" {
        dataLines := dataLines + [value];
      }
    }
    assert lines[..|lines|] == lines;
    if !sawField && dataLines == [] {
      return None;
    }
    return Some(event.(data := Join(dataLines, "\n")));
  }

  lemma NoLines()
    ensures forall lines: seq<string> :: FieldsOf(lines[..0]) == []
    ensures DataLines([]) == [] && RetryOf([]) == None
    ensures LastValue([], "event") == None && LastValue([], "id") == None
  {
  }

  // ----- the parser

  /** The test of a push, made before any complete event is taken out of the buffer. */
  predicate Refuses(buffer: string, chunk: string, maxBufferBytes: nat) {
    ByteLen(buffer) + ByteLen(chunk) > maxBufferBytes
  }

  class SseParser {
    var buffer: string
    const maxBufferBytes: nat

    /** Between calls the buffer holds no blank line. */
    ghost predicate Valid()
      reads this
    {
      FindEventBoundary(buffer).None?
    }

    constructor (maxBufferBytes: nat)
      ensures Valid() && buffer == ""
      ensures this.maxBufferBytes == if maxBufferBytes < 1 then 1 else maxBufferBytes
    {
      buffer := "";
      this.maxBufferBytes := if maxBufferBytes < 1 then 1 else maxBufferBytes;
    }

    /** Takes a decoded chunk and returns the events it completes. */
    method Push(chunk: string) returns (r: Result<seq<SseEvent>, ()>)
      requires Valid()
      modifies this`buffer
      ensures Valid()
      ensures Refuses(old(buffer), chunk, maxBufferBytes) ==> r == Err(()) && buffer == old(buffer)
      ensures !Refuses(old(buffer), chunk, maxBufferBytes) ==>
                var d := Drain(old(buffer) + chunk);
                r == Ok(EventsOf(d.blocks)) && buffer == d.rest
    {
      hide Find, BlockEvent, ByteLen;
      if ByteLen(buffer) + ByteLen(chunk) > maxBufferBytes {
        return Err(());
      }
      buffer := buffer + chunk;
      var events: seq<SseEvent> := [];
      ghost var blocks: seq<string> := [];
      ghost var whole := Drain(buffer);
      assert [] + whole.blocks == whole.blocks;
      while FindEventBoundary(buffer).Some?
        invariant events == EventsOf(blocks)
        invariant whole == Drained(blocks + Drain(buffer).blocks, Drain(buffer).rest)
        decreases |buffer|
      {
        var idx := FindEventBoundary(buffer).value;
        var raw := buffer[..idx];
        var skip := if CRLF_BLANK <= buffer[idx..] then 4 else 2;
        ghost var later := Drain(buffer[idx + skip..]);
        Assoc(blocks, [raw], later.blocks);
        buffer := buffer[idx + skip..];
        var event := ParseEventBlock(raw);
        EventsOfConcat(blocks, [raw]);
        assert EventsOf([raw]) == match BlockEvent(raw) case Some(e) => [e] case None => [];
        match event {
          case Some(e) => events := events + [e];
          case None =>
        }
        blocks := blocks + [raw];
      }
      assert blocks + [] == blocks;
      r := Ok(events);
    }

    /** Parses what is left as a final block that no blank line ends. */
    method Finish() returns (r: Option<SseEvent>)
      requires Valid()
      modifies this`buffer
      ensures Valid() && buffer == ""
      ensures r == FinalEvent(old(buffer))
    {
      if Trim(buffer) == "" {
        buffer := "";
        return None;
      }
      var raw := buffer;
      buffer := "";
      r := ParseEventBlock(raw);
    }
  }

  function FinalEvent(buffer: string): Option<SseEvent> {
    if Trim(buffer) == "" then None else BlockEvent(buffer)
  }
}
