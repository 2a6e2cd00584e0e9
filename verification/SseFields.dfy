/** What the lines of a block mean for its event: sections 9.2.5 and 9.2.6 of the WHATWG HTML standard. */
module SseFields {
  import opened Common
  import opened Text
  import opened Sse

  predicate EndsInCr(s: string) {
    s != "" && s[|s| - 1] == '\r'
  }

  /** One carriage return at the end of a line belongs to the line end. */
  lemma LineEnd(line: string)
    requires !EndsInCr(line)
    ensures LineField(line + "\r") == LineField(line)
  {
    assert (line + "\r")[..|line|] == line;
  }

  /** A blank line and a comment set no field. */
  lemma NoField(comment: string)
    requires !EndsInCr(comment)
    ensures LineField("").None? && LineField(":" + comment).None?
  {
    assert (":" + comment)[0] == ':';
  }

  /** A field ends at the first colon; one space after it is dropped, and without a colon the value is empty. */
  lemma NameAndValue(name: string, value: string)
    requires name != "" && ':' !in name && !EndsInCr(name) && !EndsInCr(value)
    ensures LineField(name) == Some(Field(name, ""))
    ensures LineField(name + ":" + value) ==
            Some(Field(name, if value != "" && value[0] == ' ' then value[1..] else value))
  {
    var line := name + ":" + value;
    assert line[|name|] == ':' && line[..|name|] == name && line[|name| + 1..] == value && line[0] == name[0];
    assert value != "" ==> line[|line| - 1] == value[|value| - 1];
    assert StripCr(line) == line && StripCr(name) == name;
    assert OccursAt(line, ":", |name|) by {
      assert line[|name|..|name| + 1] == ":";
    }
    forall j: nat | j < |name|
      ensures !OccursAt(line, ":", j) && !OccursAt(name, ":", j)
    {
      assert line[j..j + 1][0] == name[j] && name[j..j + 1][0] == name[j];
    }
    FindAt(line, ":", |name|);
    FindNone(name, ":");
  }

  // ----- which line wins

  /** The `i`-th field is the last of that name that can be used. */
  predicate LastUse(fields: seq<Field>, name: string, i: nat) {
    && i < |fields| && fields[i].name == name && Usable(fields[i])
    && forall j :: i < j < |fields| ==> fields[j].name != name || !Usable(fields[j])
  }

  lemma {:induction false} LastUseGives(fields: seq<Field>, name: string)
    ensures forall i: nat :: LastUse(fields, name, i) ==> LastValue(fields, name) == Some(fields[i].value)
    ensures LastValue(fields, name).Some? ==> exists i: nat :: LastUse(fields, name, i)
  {
    hide Usable;
    if fields != [] {
      var last, front := |fields| - 1, fields[..|fields| - 1];
      LastUseGives(front, name);
      if fields[last].name == name && Usable(fields[last]) {
        assert LastUse(fields, name, last);
      } else {
        forall i: nat
          ensures LastUse(fields, name, i) <==> LastUse(front, name, i)
        {
        }
        assert forall i: nat :: LastUse(front, name, i) ==> fields[i] == front[i];
      }
    }
  }

  /** Field `i` is the last usable one of its name, and has that value. */
  predicate Wins(fields: seq<Field>, name: string, i: nat, v: string) {
    LastUse(fields, name, i) && fields[i].value == v
  }

  lemma LastValueIff(fields: seq<Field>, name: string, v: string)
    ensures LastValue(fields, name) == Some(v) <==> exists i: nat :: Wins(fields, name, i, v)
  {
    hide LastUse;
    LastUseGives(fields, name);
    if LastValue(fields, name) == Some(v) {
      var i: nat :| LastUse(fields, name, i);
      UsedIsThere(fields, name, i);
      assert Wins(fields, name, i, v);
    }
  }

  lemma UsedIsThere(fields: seq<Field>, name: string, i: nat)
    requires LastUse(fields, name, i)
    ensures i < |fields|
  {
  }

  /** The parts of an event, by the fields they come from. */
  ghost predicate Comes(e: SseEvent, fields: seq<Field>, v: string, n: u64) {
    && (e.event == Some(v) <==> exists i: nat :: Wins(fields, "event", i, v))
    && (e.id == Some(v) <==> exists i: nat :: Wins(fields, "id", i, v))
    && (e.retryMs == Some(n) <==> exists i: nat, text :: Wins(fields, "retry", i, text) && ParseU64(text) == Some(n))
  }

  lemma EventComes(fields: seq<Field>, v: string, n: u64)
    ensures Comes(EventOf(fields), fields, v, n)
  {
    RetryIff(fields, n);
    LastValueIff(fields, "event", v);
    LastValueIff(fields, "id", v);
    hide Wins, ParseU64, LastValue, RetryOf, DataLines, Join;
  }

  lemma FieldsOfBlock(block: string)
    requires BlockEvent(block).Some?
    ensures BlockEvent(block).value == EventOf(FieldsOf(Split(block, '\n')))
  {
    hide EventOf, FieldsOf, Split;
  }

  /**
   * The event of a block: its name is the last `event`, its id the last `id` without a NUL, its
   * retry time the last `retry` that is a number.
   */
  lemma LastFieldsWin(block: string, v: string, n: u64)
    requires BlockEvent(block).Some?
    ensures Comes(BlockEvent(block).value, FieldsOf(Split(block, '\n')), v, n)
  {
    hide BlockEvent, Comes, EventOf, FieldsOf, Split;
    FieldsOfBlock(block);
    EventComes(FieldsOf(Split(block, '\n')), v, n);
  }

  lemma RetryIff(fields: seq<Field>, n: u64)
    ensures RetryOf(fields) == Some(n) <==>
            exists i: nat, text :: Wins(fields, "retry", i, text) && ParseU64(text) == Some(n)
  {
    hide Wins, ParseU64, LastValue;
    if LastValue(fields, "retry").Some? {
      LastValueIff(fields, "retry", LastValue(fields, "retry").value);
    }
    if i: nat, text :| Wins(fields, "retry", i, text) && ParseU64(text) == Some(n) {
      LastValueIff(fields, "retry", text);
    }
  }
}
