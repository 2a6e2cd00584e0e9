/** Qualified tool names: exactly one server segment and one tool segment. */
module QualifiedTools {
  import opened Common
  import opened Text

  datatype QualifiedTool = QualifiedTool(server: string, tool: string)

  datatype NameError = BareName | EmptySegment | DottedSegment

  function New(server: string, tool: string): Result<QualifiedTool, NameError> {
    if server == "" || tool == "" then Err(EmptySegment)
    else if '.' in server || '.' in tool then Err(DottedSegment)
    else Ok(QualifiedTool(server, tool))
  }

  function Parse(raw: string): Result<QualifiedTool, NameError> {
    var trimmed := Trim(raw);
    match Find(trimmed, ".")
    case None => Err(BareName)
    case Some(i) => New(trimmed[..i], trimmed[i + 1..])
  }

  function Qualified(t: QualifiedTool): string {
    t.server + "." + t.tool
  }

  predicate IsSegment(s: string) {
    s != "" && '.' !in s
  }

  predicate IsQualified(name: string, server: string, tool: string) {
    IsSegment(server) && IsSegment(tool) && name == server + "." + tool
  }

  lemma FirstDot(server: string, rest: string)
    requires '.' !in server
    ensures Find(server + "." + rest, ".") == Some(|server|)
  {
    var s := server + "." + rest;
    assert s[|server|..|server| + 1] == ".";
    forall j: nat | j < |server|
      ensures !OccursAt(s, ".", j)
    {
      assert s[j..j + 1][0] == server[j];
    }
    FindAt(s, ".", |server|);
  }

  /** A name is accepted exactly when, trimmed, it is two segments around one dot; it prints as that. */
  lemma ParseIffTwoSegments(raw: string)
    ensures Parse(raw).Ok? <==> exists s: string, t: string :: IsQualified(Trim(raw), s, t)
    ensures Parse(raw).Ok? ==> var q := Parse(raw).value; IsQualified(Trim(raw), q.server, q.tool)
  {
    var trimmed := Trim(raw);
    FindIsFirst(trimmed, ".");
    hide Trim, Find;
    if Parse(raw).Ok? {
      var q := Parse(raw).value;
      var i := Find(trimmed, ".").value;
      assert trimmed[i..i + 1] == ".";
      assert trimmed == q.server + "." + q.tool;
      assert IsQualified(trimmed, q.server, q.tool);
    }
    forall s: string, t: string | IsQualified(trimmed, s, t)
      ensures Parse(raw).Ok?
    {
      FirstDot(s, t);
      assert trimmed[..|s|] == s && trimmed[|s| + 1..] == t;
    }
  }

  /** Printing a parsed name and parsing it again gives the same name. */
  lemma QualifiedParses(t: QualifiedTool)
    requires IsSegment(t.server) && IsSegment(t.tool) && IsTrimmed(Qualified(t))
    ensures Parse(Qualified(t)) == Ok(t)
  {
    TrimIsTrimmed(Qualified(t));
    FirstDot(t.server, t.tool);
    assert Qualified(t)[..|t.server|] == t.server && Qualified(t)[|t.server| + 1..] == t.tool;
  }
}
