/** Which catalogs survive being printed and parsed again. */
module SkillsRoundTrip {
  import opened Common
  import opened Text
  import opened Patterns
  import opened SkillsDsl
  import opened PrintedSkills
  import opened QuotedPieces

  // ----- what every parsed skill looks like

  predicate CanonicalTool(t: string) {
    && Q.Parse(t).Ok? && Q.Qualified(Q.Parse(t).value) == t
    && '"' !in t && ']' !in t && '}' !in t
  }

  predicate PlainText(s: string) {
    IsTrimmed(s) && '"' !in s
  }

  predicate WellFormed(skill: SkillDefinition) {
    && PlainText(skill.name)
    && PlainText(skill.policy) && '}' !in skill.policy
    && skill.allowedTools != []
    && forall i :: 0 <= i < |skill.allowedTools| ==> CanonicalTool(skill.allowedTools[i])
  }

  predicate AllWellFormed(skills: seq<SkillDefinition>) {
    forall i :: 0 <= i < |skills| ==> WellFormed(skills[i])
  }

  lemma ParsedToolIsCanonical(raw: string)
    requires Q.Parse(raw).Ok? && '"' !in raw && ']' !in raw && '}' !in raw
    ensures CanonicalTool(Q.Qualified(Q.Parse(raw).value))
    ensures Q.Qualified(Q.Parse(raw).value) == Trim(raw)
  {
    Q.ParseIffTwoSegments(raw);
    TrimIsTrimmed(raw);
    hide Trim, Q.Parse, IsTrimmed;
    Q.QualifiedParses(Q.Parse(raw).value);
  }

  lemma {:induction false} ParsedToolsAreCanonical(s: string)
    requires ']' !in s && '}' !in s
    ensures ToolsIn(s).Ok? ==> forall i :: 0 <= i < |ToolsIn(s).value| ==> CanonicalTool(ToolsIn(s).value[i])
    decreases |s|
  {
    hide Search, CanonicalTool, Q.Parse, Q.Qualified;
    var found := Search(QUOTED, s);
    if found.Some? && ToolsIn(s).Ok? {
      FoundGroupsFit(QUOTED, s);
      assert Captures(QUOTED) == [(Some('"'), 1)];
      ParsedToolIsCanonical(found.value.groups[0]);
      SearchEndsInside(QUOTED, s);
      ParsedToolsAreCanonical(found.value.rest);
    }
  }

  lemma ParsedBlockIsWellFormed(rawName: string, body: string)
    requires '"' !in rawName && '}' !in body
    ensures BlockSkill(rawName, body).Ok? ==> WellFormed(BlockSkill(rawName, body).value)
  {
    hide Search, CanonicalTool, Trim, IsTrimmed, ToolsIn;
    if BlockSkill(rawName, body).Ok? {
      FoundGroupsFit(POLICY, body);
      FoundGroupsFit(TOOLS, body);
      assert Captures(POLICY) == [(Some('"'), 1)] && Captures(TOOLS) == [(Some(']'), 0)];
      TrimIsTrimmed(rawName);
      TrimIsTrimmed(Search(POLICY, body).value.groups[0]);
      ParsedToolsAreCanonical(Search(TOOLS, body).value.groups[0]);
    }
  }

  /** Whatever the text, the skills parsed from it have this form. */
  lemma {:induction false} ParsedSkillsAreWellFormed(s: string)
    ensures SkillsIn(s).Ok? ==> AllWellFormed(SkillsIn(s).value)
    decreases |s|
  {
    hide Search, WellFormed, BlockSkill;
    var found := Search(BLOCK, s);
    if found.Some? && SkillsIn(s).Ok? {
      BlocksFound(s);
      FoundGroupsFit(Append(BLOCK_HEAD, BODY), s);
      assert Captures(Append(BLOCK_HEAD, BODY)) == [(Some('"'), 1), (Some('}'), 0)];
      ParsedBlockIsWellFormed(found.value.groups[0], found.value.groups[1]);
      ParsedSkillsAreWellFormed(found.value.rest);
    }
  }

  // ----- every quoted piece of a printed text shows something

  lemma PlainTextShows(s: string)
    requires PlainText(s)
    ensures Shows(s)
  {
  }

  lemma CanonicalToolShows(t: string)
    requires CanonicalTool(t)
    ensures PlainText(t) && t != "" && Shows(t)
  {
    Q.ParseIffTwoSegments(t);
    TrimIsTrimmed(t);
    hide Trim, Q.Parse;
  }

  lemma {:induction false} ToolsShow(tools: seq<string>, tail: string)
    requires tools != [] && PiecesShow(tail)
    requires forall i :: 0 <= i < |tools| ==> CanonicalTool(tools[i])
    ensures PiecesShow(ToolsThen(tools, tail))
  {
    hide PiecesShow, CanonicalTool, Shows;
    var later := if |tools| == 1 then tail else ", " + ToolsThen(tools[1..], tail);
    if |tools| > 1 {
      ToolsShow(tools[1..], tail);
      SeparatorShows();
      AddPiece(", ", ToolsThen(tools[1..], tail));
    }
    CanonicalToolShows(tools[0]);
    AddQuote(later);
    AddPiece(tools[0], "\"" + later);
    AddQuote(tools[0] + ("\"" + later));
  }

  lemma SeparatorShows()
    ensures Shows(", ") && Shows("]\n") && Shows("\n  allowed_tools: [") && Shows("\n  policy: ")
    ensures Shows("}") && Shows("{") && Shows("skill")
  {
    assert ", "[0] == ',' && "]\n"[0] == ']' && "\n  allowed_tools: ["[3] == 'a' && "\n  policy: "[3] == 'p';
    assert "}"[0] == '}' && "{"[0] == '{' && "skill"[0] == 's';
  }

  lemma BodyShows(skill: SkillDefinition, tail: string)
    requires WellFormed(skill) && PiecesShow(tail)
    ensures PiecesShow(BodyThen(skill, tail))
  {
    hide PiecesShow, CanonicalTool, Shows, ToolsThen;
    SeparatorShows();
    AddPiece("]\n", tail);
    ToolsShow(skill.allowedTools, "]\n" + tail);
    AddPiece("\n  allowed_tools: [", ToolsThen(skill.allowedTools, "]\n" + tail));
    var list := ListThen(skill, tail);
    AddQuote(list);
    PlainTextShows(skill.policy);
    AddPiece(skill.policy, "\"" + list);
    AddQuote(skill.policy + ("\"" + list));
    AddPiece("\n  policy: ", "\"" + (skill.policy + ("\"" + list)));
  }

  lemma SkillShows(skill: SkillDefinition, tail: string)
    requires WellFormed(skill) && PiecesShow("}" + tail)
    ensures PiecesShow(SkillThen(skill, tail))
  {
    hide PiecesShow, CanonicalTool, Shows, ToolsThen, BodyThen;
    SeparatorShows();
    var body := BodyThen(skill, "}" + tail);
    BodyShows(skill, "}" + tail);
    AddPiece(" {", body) by {
      assert " {"[1] == '{';
      ShowsAt(" {", 1);
    }
    assert " " + ("{" + body) == " {" + body;
    var afterName := " " + ("{" + body);
    AddQuote(afterName);
    PlainTextShows(skill.name);
    AddPiece(skill.name, "\"" + afterName);
    var named := skill.name + ("\"" + afterName);
    AddQuote(named);
    ShowsAt("skill ", 0);
    AddPiece("skill ", "\"" + named);
    assert "skill" + (" " + ("\"" + named)) == "skill " + ("\"" + named);
  }

  lemma {:induction false} SkillsShow(skills: seq<SkillDefinition>)
    requires skills != [] && AllWellFormed(skills)
    ensures PiecesShow(SkillsText(skills))
  {
    hide PiecesShow, Shows, SkillThen;
    SeparatorShows();
    if |skills| == 1 {
      EmptyShows();
      AddPiece("}", "");
      SkillShows(skills[0], "");
    } else {
      SkillsShow(skills[1..]);
      var later := SkillsText(skills[1..]);
      ShowsAt("}\n\n", 0);
      AddPiece("}\n\n", later);
      assert "}" + ("\n\n" + later) == "}\n\n" + later;
      SkillShows(skills[0], "\n\n" + later);
    }
  }

  const POLICY_KEY: Pattern := Lit("policy", Spaces(0, Lit(":", Spaces(0, End))))

  const BLOCK_KEY: Pattern := Lit("skill", Spaces(1, End))

  lemma KeyedPatterns()
    ensures POLICY == Append(POLICY_KEY, QUOTED)
    ensures BLOCK == Append(BLOCK_KEY, Lit("\"", Run('"', 1, Lit("\"", BLOCK_TAIL))))
    ensures Captures(POLICY_KEY) == [] && Captures(BLOCK_KEY) == []
    ensures NoLazy(POLICY_KEY) && NoLazy(BLOCK_KEY)
  {
  }

  lemma BlockSkillName(rawName: string, body: string)
    ensures BlockSkill(rawName, body).Ok? ==> BlockSkill(rawName, body).value.name == Trim(rawName)
  {
  }

  /** A text whose quoted pieces show something names no skill with a blank name. */
  lemma {:induction false} NoBlankNames(s: string)
    requires LaterPiecesShow(s)
    ensures SkillsIn(s).Ok? ==> forall i :: 0 <= i < |SkillsIn(s).value| ==> SkillsIn(s).value[i].name != ""
    decreases |s|
  {
    hide LaterPiecesShow, Search, Trim, BlockSkill, AllSpace, Append;
    var found := Search(BLOCK, s);
    if found.Some? && SkillsIn(s).Ok? {
      KeyedPatterns();
      BlockSkillName(found.value.groups[0], found.value.groups[1]);
      SearchedQuotedShows(BLOCK_KEY, BLOCK_TAIL, s);
      TrimShows(found.value.groups[0]);
      SearchEndsInside(BLOCK, s);
      SuffixShows(s, found.value.rest);
      NoBlankNames(found.value.rest);
    }
  }

  // ----- finding the parts of a printed skill again

  lemma BracesAt(body: string, tail: string)
    requires '}' !in body
    ensures MatchHere(BLOCK_TAIL, " " + ("{" + (body + ("}" + tail)))) == Some(Match([body], tail))
  {
    hide MatchHere;
    MatchEnd(tail);
    MatchLit("}", End, tail);
    MatchRun('}', 0, Lit("}", End), body, "}" + tail);
    LazyIsRun('}', body + ("}" + tail));
    MatchLit("{", Lazy(Lit("}", End)), body + ("}" + tail));
    assert AllSpace(" ");
    MatchSpaces(0, Lit("{", Lazy(Lit("}", End))), " ", "{" + (body + ("}" + tail)));
    assert [body] + [] == [body];
  }

  lemma NameAt(name: string, s: string, body: string, tail: string)
    requires name != "" && '"' !in name
    requires MatchHere(BLOCK_TAIL, s) == Some(Match([body], tail))
    ensures MatchHere(BLOCK, "skill" + (" " + ("\"" + (name + ("\"" + s))))) == Some(Match([name, body], tail))
  {
    hide MatchHere;
    MatchLit("\"", BLOCK_TAIL, s);
    var quoted := Run('"', 1, Lit("\"", BLOCK_TAIL));
    MatchRun('"', 1, Lit("\"", BLOCK_TAIL), name, "\"" + s);
    var named := name + ("\"" + s);
    MatchLit("\"", quoted, named);
    assert AllSpace(" ");
    MatchSpaces(1, Lit("\"", quoted), " ", "\"" + named);
    MatchLit("skill", Spaces(1, Lit("\"", quoted)), " " + ("\"" + named));
    assert [name] + [body] == [name, body];
  }

  lemma BlockAt(skill: SkillDefinition, tail: string)
    requires skill.name != "" && '"' !in skill.name && skill.allowedTools != []
    requires '}' !in BodyThen(skill, "")
    ensures MatchHere(BLOCK, SkillThen(skill, tail)) == Some(Match([skill.name, BodyThen(skill, "")], tail))
  {
    hide BodyThen, MatchHere;
    var body := BodyThen(skill, "");
    BodyTail(skill, "", "}" + tail);
    assert "" + ("}" + tail) == "}" + tail;
    BracesAt(body, tail);
    NameAt(skill.name, " " + ("{" + (body + ("}" + tail))), body, tail);
  }

  lemma MatchEnd(s: string)
    ensures MatchHere(End, s) == Some(Match([], s))
  {
  }

  lemma QuotedAt(t: string, tail: string)
    requires t != "" && '"' !in t
    ensures MatchHere(QUOTED, "\"" + (t + ("\"" + tail))) == Some(Match([t], tail))
  {
    hide MatchHere;
    MatchEnd(tail);
    MatchLit("\"", End, tail);
    MatchRun('"', 1, Lit("\"", End), t, "\"" + tail);
    MatchLit("\"", Run('"', 1, Lit("\"", End)), t + ("\"" + tail));
    assert [t] + [] == [t];
  }

  lemma FoundAfter(p: Pattern, u: string, s: string)
    requires Consumes(p) && p.text[0] !in u && MatchHere(p, s).Some?
    ensures Search(p, u + s) == MatchHere(p, s)
  {
    SkipText(p, u, s);
  }

  lemma ToolsFrom(t: string, tail: string)
    requires CanonicalTool(t)
    ensures ToolsIn("\"" + (t + ("\"" + tail))) ==
            match ToolsIn(tail)
            case Err(e) => Err(e)
            case Ok(later) => Ok([t] + later)
  {
    CanonicalToolShows(t);
    hide Q.Parse, Q.Qualified, MatchHere, Search;
    QuotedAt(t, tail);
    var text := "\"" + (t + ("\"" + tail));
    FoundAfter(QUOTED, "", text);
    assert "" + text == text;
  }

  /** The tools of a printed list are read back as they are. */
  lemma {:induction false} PrintedTools(tools: seq<string>)
    requires tools != [] && forall i :: 0 <= i < |tools| ==> CanonicalTool(tools[i])
    ensures ToolsIn(ToolsThen(tools, "")) == Ok(tools)
  {
    hide CanonicalTool, MatchHere, Search, ToolsIn;
    var later := if |tools| == 1 then "" else ", " + ToolsThen(tools[1..], "");
    ToolsFrom(tools[0], later);
    HeadTail(tools);
    if |tools| == 1 {
      NoQuoteNoTools("");
    } else {
      PrintedTools(tools[1..]);
      ToolsAfterComma(ToolsThen(tools[1..], ""));
    }
  }

  lemma ToolsAfterComma(s: string)
    ensures ToolsIn(", " + s) == ToolsIn(s)
  {
    SkipText(QUOTED, ", ", s);
    hide Search, Q.Parse;
  }

  lemma {:induction false} ToolsAvoid(tools: seq<string>, c: char)
    requires tools != [] && (c == ']' || c == '}')
    requires forall i :: 0 <= i < |tools| ==> CanonicalTool(tools[i])
    ensures c !in ToolsThen(tools, "")
  {
    hide Q.Parse, Q.Qualified;
    if |tools| > 1 {
      ToolsAvoid(tools[1..], c);
    }
  }

  lemma BodyAvoidsBrace(skill: SkillDefinition)
    requires WellFormed(skill)
    ensures '}' !in BodyThen(skill, "")
  {
    hide CanonicalTool, ToolsThen;
    ToolsTail(skill.allowedTools, "", "]\n");
    assert "" + "]\n" == "]\n" && "]\n" + "" == "]\n";
    ToolsAvoid(skill.allowedTools, '}');
  }

  lemma PolicyLabel(s: string)
    ensures "\n  policy: " + s == "\n  " + ("policy" + (":" + (" " + s)))
  {
    assert "\n  policy: " == "\n  " + ("policy" + (":" + " "));
    Assoc("\n  ", "policy" + (":" + " "), s);
    Assoc("policy", ":" + " ", s);
    Assoc(":", " ", s);
  }

  lemma PolicyAt(skill: SkillDefinition)
    requires skill.allowedTools != [] && skill.policy != "" && '"' !in skill.policy
    ensures Search(POLICY, BodyThen(skill, "")).Some?
    ensures Search(POLICY, BodyThen(skill, "")).value.groups == [skill.policy]
  {
    hide MatchHere, Search, ListThen;
    var list := ListThen(skill, "");
    var quoted := "\"" + (skill.policy + ("\"" + list));
    QuotedAt(skill.policy, list);
    assert AllSpace(" ") && AllSpace("");
    MatchSpaces(0, QUOTED, " ", quoted);
    MatchLit(":", Spaces(0, QUOTED), " " + quoted);
    MatchSpaces(0, Lit(":", Spaces(0, QUOTED)), "", ":" + (" " + quoted));
    assert "" + (":" + (" " + quoted)) == ":" + (" " + quoted);
    MatchLit("policy", Spaces(0, Lit(":", Spaces(0, QUOTED))), ":" + (" " + quoted));
    var keyed := "policy" + (":" + (" " + quoted));
    PolicyLabel(quoted);
    FoundAfter(POLICY, "\n  ", keyed);
  }

  /** With an empty policy, any other place where one could be read gives one that is not empty. */
  lemma NoEmptyPolicy(skill: SkillDefinition)
    requires WellFormed(skill)
    ensures Search(POLICY, BodyThen(skill, "")).Some? ==>
              Trim(Search(POLICY, BodyThen(skill, "")).value.groups[0]) != ""
  {
    EmptyShows();
    BodyShows(skill, "");
    var body := BodyThen(skill, "");
    assert LaterPiecesShow(body);
    hide LaterPiecesShow, BodyThen, Search, Trim;
    KeyedPatterns();
    SearchedQuotedShows(POLICY_KEY, End, body);
    if Search(POLICY, body).Some? {
      TrimShows(Search(POLICY, body).value.groups[0]);
    }
  }

  // ----- finding the tool list

  const OPENER: Pattern := Lit("allowed_tools", Spaces(0, Lit(":", Spaces(0, Lit("[", End)))))

  /** Text that itself looks like the start of a tool list. */
  predicate HasOpener(s: string) {
    Search(OPENER, s).Some?
  }

  lemma ToolsPattern()
    ensures TOOLS == Append(OPENER, TOOL_LIST) && NoLazy(OPENER)
  {
  }

  lemma UpToBracket(s: string) returns (x: string, tail: string)
    requires ']' in s
    ensures s == x + ("]" + tail) && ']' !in x && x == s[..RunLength(s, ']')]
  {
    var n := RunLength(s, ']');
    TakeDrop(s, n);
    var rest := s[n..];
    assert rest != [] && rest[0] == ']';
    x, tail := s[..n], rest[1..];
    HeadTail(rest);
  }

  lemma ListHere(s: string)
    requires ']' in s
    ensures MatchHere(TOOL_LIST, s).Some? && MatchHere(TOOL_LIST, s).value.groups == [s[..RunLength(s, ']')]]
  {
    hide MatchHere, RunLength;
    var x, tail := UpToBracket(s);
    MatchEnd(tail);
    MatchLit("]", End, tail);
    MatchRun(']', 0, Lit("]", End), x, "]" + tail);
    assert [x] + [] == [x];
  }

  /** The tool list is what follows the first opener, up to the first closing bracket. */
  lemma {:induction false} ListAfterOpener(s: string)
    ensures Search(OPENER, s).None? ==> Search(TOOLS, s).None?
    ensures Search(OPENER, s).Some? && ']' in Search(OPENER, s).value.rest ==>
              var rest := Search(OPENER, s).value.rest;
              Search(TOOLS, s).Some? && Search(TOOLS, s).value.groups == [rest[..RunLength(rest, ']')]]
    decreases |s|
  {
    hide MatchHere, RunLength;
    ToolsPattern();
    MatchAppend(OPENER, TOOL_LIST, s);
    if MatchHere(OPENER, s).Some? {
      var m := MatchHere(OPENER, s).value;
      assert m.groups == [];
      if ']' in m.rest {
        ListHere(m.rest);
      }
    } else if s != "" {
      ListAfterOpener(s[1..]);
    }
  }

  lemma OpenerPieces(tail: string)
    ensures "allowed_tools: [" + tail == "allowed_tools" + ("" + (":" + (" " + ("[" + tail))))
  {
    assert "allowed_tools: [" == "allowed_tools" + (":" + (" " + "["));
    Assoc("allowed_tools", ":" + (" " + "["), tail);
    Assoc(":", " " + "[", tail);
    Assoc(" ", "[", tail);
    assert "" + (":" + (" " + ("[" + tail))) == ":" + (" " + ("[" + tail));
  }

  lemma OpenerAt(tail: string)
    ensures MatchHere(OPENER, "allowed_tools: [" + tail) == Some(Match([], tail))
  {
    hide MatchHere;
    var colon := ":" + (" " + ("[" + tail));
    OpenerPieces(tail);
    MatchEnd(tail);
    MatchLit("[", End, tail);
    assert AllSpace(" ") && AllSpace("");
    MatchSpaces(0, Lit("[", End), " ", "[" + tail);
    MatchLit(":", Spaces(0, Lit("[", End)), " " + ("[" + tail));
    MatchSpaces(0, Lit(":", Spaces(0, Lit("[", End))), "", colon);
    MatchLit("allowed_tools", Spaces(0, Lit(":", Spaces(0, Lit("[", End)))), "" + colon);
  }

  lemma OpenerInPieces(policy: string, tools: string)
    ensures var list := "\n  allowed_tools: [" + tools;
            Search(OPENER, "\n  policy: " + ("\"" + (policy + ("\"" + list)))) ==
            if HasOpener(policy) then FollowedBy(Search(OPENER, policy), "\"" + list) else Some(Match([], tools))
  {
    hide MatchHere, Search;
    var list := "\n  allowed_tools: [" + tools;
    SearchBefore(OPENER, "\n  policy: ", '"', policy + ("\"" + list));
    NoOpenerInLabel();
    SearchBefore(OPENER, policy, '"', list);
    OpenerAt(tools);
    ListLabel(tools);
    FoundAfter(OPENER, "\n  ", "allowed_tools: [" + tools);
  }

  lemma ListLabel(tools: string)
    ensures "\n  allowed_tools: [" + tools == "\n  " + ("allowed_tools: [" + tools)
  {
    assert "\n  allowed_tools: [" == "\n  " + "allowed_tools: [";
    Assoc("\n  ", "allowed_tools: [", tools);
  }

  lemma NoOpenerInLabel()
    ensures Search(OPENER, "\n  policy: ").None?
  {
    SkipText(OPENER, "\n  policy: ", "");
    assert "\n  policy: " + "" == "\n  policy: ";
    NothingInNothing(OPENER);
  }

  /** In a printed body the first opener is in the policy if there is one, and else the printed one. */
  lemma FirstOpener(skill: SkillDefinition)
    requires WellFormed(skill)
    ensures var tools := ToolsThen(skill.allowedTools, "") + "]\n";
            Search(OPENER, BodyThen(skill, "")) ==
            if HasOpener(skill.policy)
            then FollowedBy(Search(OPENER, skill.policy), "\"" + ("\n  allowed_tools: [" + tools))
            else Some(Match([], tools))
  {
    hide MatchHere, Search, ToolsThen, WellFormed, HasOpener;
    HasTools(skill);
    ToolsTail(skill.allowedTools, "", "]\n");
    assert "" + "]\n" == "]\n" && "]\n" + "" == "]\n";
    OpenerInPieces(skill.policy, ToolsThen(skill.allowedTools, "]\n"));
  }

  lemma ListWithoutOpener(skill: SkillDefinition)
    requires WellFormed(skill) && !HasOpener(skill.policy)
    ensures Search(TOOLS, BodyThen(skill, "")).Some?
    ensures Search(TOOLS, BodyThen(skill, "")).value.groups == [ToolsThen(skill.allowedTools, "")]
  {
    FirstOpener(skill);
    ListAfterOpener(BodyThen(skill, ""));
    ToolsAvoid(skill.allowedTools, ']');
    hide MatchHere, Search, ToolsThen, BodyThen, CanonicalTool;
    var tools := ToolsThen(skill.allowedTools, "");
    assert (tools + "]\n")[|tools|] == ']';
    assert (tools + "]\n")[..|tools|] == tools;
    RunLengthIs(tools + "]\n", ']', |tools|);
  }

  /** An opener in the policy swallows the closing quote, so no printed tool is read as one. */
  lemma ListWithOpener(skill: SkillDefinition)
    requires WellFormed(skill) && HasOpener(skill.policy)
    ensures Search(TOOLS, BodyThen(skill, "")).Some? ==>
              var r := ToolsIn(Search(TOOLS, BodyThen(skill, "")).value.groups[0]);
              r.Ok? ==> r.value == []
  {
    hide MatchHere, Search, ToolsThen, BodyThen, CanonicalTool, ToolsIn;
    FirstOpener(skill);
    ListAfterOpener(BodyThen(skill, ""));
    ToolsAvoid(skill.allowedTools, ']');
    ToolsAreQuoted(skill.allowedTools, "");
    var u := Search(OPENER, skill.policy).value.rest;
    SearchEndsInside(OPENER, skill.policy);
    SuffixAvoids(u, skill.policy, '"');
    SwallowedList(u, ToolsThen(skill.allowedTools, ""));
  }

  lemma SuffixAvoids(t: string, s: string, c: char)
    requires IsSuffix(t, s) && c !in s
    ensures c !in t
  {
  }

  lemma ToolsAreQuoted(tools: seq<string>, tail: string)
    requires tools != []
    ensures ToolsThen(tools, tail) != "" && ToolsThen(tools, tail)[0] == '"'
  {
  }

  lemma SwallowedList(u: string, tools: string)
    requires '"' !in u && tools != "" && tools[0] == '"' && ']' !in tools
    ensures var rest := u + ("\"" + ("\n  allowed_tools: [" + (tools + "]\n")));
            && ']' in rest
            && var r := ToolsIn(rest[..RunLength(rest, ']')]);
               r.Ok? ==> r.value == []
  {
    hide MatchHere, Search, ToolsIn;
    var g := "\n  allowed_tools: [";
    var before := u + ("\"" + (g + tools));
    var rest := u + ("\"" + (g + (tools + "]\n")));
    assert rest == before + "]\n";
    assert rest[|before|] == ']';
    if ']' in u {
      var n := RunLength(u, ']');
      assert rest[..n] == u[..n];
      RunLengthIs(rest, ']', n);
      NoQuoteNoTools(u[..n]);
    } else {
      assert rest[..|before|] == before;
      RunLengthIs(rest, ']', |before|);
      HeadTail(tools);
      assert before == u + ("\"" + (g + ("\"" + tools[1..])));
      QuotedAt(g, tools[1..]);
      FoundAfter(QUOTED, u, "\"" + (g + ("\"" + tools[1..])));
      GapIsNoTool();
      FirstToolBad(before);
    }
  }

  lemma NoQuoteNoTools(s: string)
    requires '"' !in s
    ensures ToolsIn(s) == Ok([])
  {
    SkipText(QUOTED, s, "");
    NothingInNothing(QUOTED);
    assert s + "" == s;
  }

  lemma FirstToolBad(s: string)
    requires Search(QUOTED, s).Some? && Q.Parse(Search(QUOTED, s).value.groups[0]).Err?
    ensures ToolsIn(s).Err?
  {
  }

  lemma GapIsNoTool()
    ensures Q.Parse("\n  allowed_tools: [").Err?
  {
    var g := "\n  allowed_tools: [";
    Q.ParseIffTwoSegments(g);
    TrimIsTrimmed(g);
    hide Q.Parse, Trim;
    assert '.' !in g;
    forall server: string, tool: string
      ensures !Q.IsQualified(Trim(g), server, tool)
    {
      assert (server + "." + tool)[|server|] == '.';
    }
  }

  // ----- the round trip

  /** A printed skill is read back as it was exactly when its policy is neither empty nor has an opener. */
  lemma PrintedSkillIff(skill: SkillDefinition)
    requires WellFormed(skill)
    ensures BlockSkill(skill.name, BodyThen(skill, "")) == Ok(skill) <==>
            skill.policy != "" && !HasOpener(skill.policy)
  {
    var body := BodyThen(skill, "");
    TrimIsTrimmed(skill.name);
    TrimIsTrimmed(skill.policy);
    hide Trim, Search, BodyThen, CanonicalTool, ToolsIn, ToolsThen;
    if skill.policy == "" {
      NoEmptyPolicy(skill);
    } else {
      PolicyAt(skill);
      if HasOpener(skill.policy) {
        ListWithOpener(skill);
      } else {
        ListWithoutOpener(skill);
        PrintedTools(skill.allowedTools);
      }
    }
  }

  predicate GoodPolicy(skill: SkillDefinition) {
    skill.policy != "" && !HasOpener(skill.policy)
  }

  lemma SkillsAfter(skill: SkillDefinition, tail: string)
    requires WellFormed(skill) && skill.name != ""
    ensures SkillsIn(SkillThen(skill, tail)) ==
            match BlockSkill(skill.name, BodyThen(skill, ""))
            case Err(e) => Err(e)
            case Ok(first) =>
              match SkillsIn(tail)
              case Err(e) => Err(e)
              case Ok(later) => Ok([first] + later)
  {
    BodyAvoidsBrace(skill);
    BlockAt(skill, tail);
    hide MatchHere, BlockSkill, Search, BodyThen, SkillThen;
    var text := SkillThen(skill, tail);
    FoundAfter(BLOCK, "", text);
    assert "" + text == text;
  }

  lemma {:induction false} PrintedSkillsIff(skills: seq<SkillDefinition>)
    requires skills != [] && AllWellFormed(skills)
    requires forall i :: 0 <= i < |skills| ==> skills[i].name != ""
    ensures SkillsIn(SkillsText(skills)) == Ok(skills) <==>
            forall i :: 0 <= i < |skills| ==> GoodPolicy(skills[i])
  {
    hide BlockSkill, Search, WellFormed, GoodPolicy, SkillsIn, BodyThen, SkillThen;
    forall i | 0 <= i < |skills|
      ensures skills[i].allowedTools != []
    {
      HasTools(skills[i]);
    }
    var tail := if |skills| == 1 then "" else "\n\n" + SkillsText(skills[1..]);
    SkillsAfter(skills[0], tail);
    PrintedSkillIff(skills[0]);
    GoodPolicyIs(skills[0]);
    HeadTail(skills);
    if |skills| == 1 {
      NoSkillsInNothing();
    } else {
      PrintedSkillsIff(skills[1..]);
      SkillsAfterGap(SkillsText(skills[1..]));
      assert forall i :: 1 <= i < |skills| ==> skills[i] == skills[1..][i - 1];
      assert forall i :: 0 <= i < |skills| - 1 ==> skills[1..][i] == skills[i + 1];
    }
  }

  lemma HasTools(skill: SkillDefinition)
    requires WellFormed(skill)
    ensures skill.allowedTools != []
  {
  }

  lemma GoodPolicyIs(skill: SkillDefinition)
    ensures GoodPolicy(skill) <==> skill.policy != "" && !HasOpener(skill.policy)
  {
  }

  lemma NoSkillsInNothing()
    ensures SkillsIn("") == Ok([])
  {
    NothingInNothing(BLOCK);
  }

  lemma SkillsAfterGap(s: string)
    ensures SkillsIn("\n\n" + s) == SkillsIn(s)
  {
    SkipText(BLOCK, "\n\n", s);
    hide BlockSkill, Search;
  }

  /** What a caller can check of a catalog before printing it. */
  predicate Representable(c: SkillsCatalog) {
    && c.skills != []
    && forall i :: 0 <= i < |c.skills| ==>
         && WellFormed(c.skills[i]) && c.skills[i].name != "" && GoodPolicy(c.skills[i])
  }

  /** Printing a catalog and parsing the text gives the catalog back if and only if it is representable. */
  lemma RoundTripIff(c: SkillsCatalog)
    ensures Parse(Render(c)) == Ok(c) <==> Representable(c)
  {
    hide SkillsIn, Render, WellFormed, GoodPolicy;
    ParsedSkillsAreWellFormed(Render(c));
    if c.skills != [] && AllWellFormed(c.skills) {
      forall i | 0 <= i < |c.skills|
        ensures c.skills[i].allowedTools != []
      {
        HasTools(c.skills[i]);
      }
      RenderedText(c.skills);
      SkillsShow(c.skills);
      var text := SkillsText(c.skills);
      assert LaterPiecesShow(text);
      NoBlankNames(text);
      if forall i :: 0 <= i < |c.skills| ==> c.skills[i].name != "" {
        PrintedSkillsIff(c.skills);
      }
    }
  }

  /**
   * For a catalog that came from parsing some text only three things can go wrong: a name that
   * was blank, a policy that was blank, and a policy in which a tool list seems to start.
   */
  lemma ReparsedIff(source: string)
    requires Parse(source).Ok?
    ensures var c := Parse(source).value;
            Parse(Render(c)) == Ok(c) <==>
            forall i :: 0 <= i < |c.skills| ==>
              c.skills[i].name != "" && c.skills[i].policy != "" && !HasOpener(c.skills[i].policy)
  {
    hide SkillsIn, Render, WellFormed, HasOpener;
    ParsedSkillsAreWellFormed(source);
    RoundTripIff(Parse(source).value);
  }

  const UNNAMED: SkillDefinition := SkillDefinition("", "p", ["a.b"])

  /** Such a text: a blank name parses to an empty one, which cannot be printed. */
  lemma BlankNameIsLost()
    ensures var source := SkillThen(UNNAMED.(name := " "), "");
            var c := SkillsCatalog([UNNAMED]);
            Parse(source) == Ok(c) && Parse(Render(c)) != Ok(c)
  {
    hide Trim, Search, MatchHere, BlockSkill, SkillsIn, Render, Q.Parse, BodyThen, SkillThen, WellFormed;
    UnnamedIsWellFormed();
    BodyAvoidsBrace(UNNAMED);
    SameBody(UNNAMED, " ");
    BlockAt(UNNAMED.(name := " "), "");
    PrintedSkillIff(UNNAMED);
    BlankNamedParses(SkillThen(UNNAMED.(name := " "), ""), BodyThen(UNNAMED, ""));
    var c := SkillsCatalog([UNNAMED]);
    RoundTripIff(c);
    assert c.skills[0].name == "";
  }

  lemma UnnamedIsWellFormed()
    ensures WellFormed(UNNAMED) && GoodPolicy(UNNAMED)
  {
    hide CanonicalTool, HasOpener;
    ToolIsCanonical();
    PolicyHasNoOpener();
  }

  lemma ToolIsCanonical()
    ensures CanonicalTool("a.b")
  {
    hide Q.Parse, Find, TrimStart, TrimEnd;
    var t := Q.QualifiedTool("a", "b");
    assert Q.Qualified(t) == "a.b";
    Q.QualifiedParses(t);
  }

  lemma PolicyHasNoOpener()
    ensures !HasOpener("p")
  {
    hide Search, MatchHere;
    SkipText(OPENER, "p", "");
    NothingInNothing(OPENER);
    assert "p" + "" == "p";
  }

  lemma SameBody(skill: SkillDefinition, name: string)
    requires skill.allowedTools != []
    ensures BodyThen(skill.(name := name), "") == BodyThen(skill, "")
  {
  }

  lemma BlankNamedParses(text: string, body: string)
    requires MatchHere(BLOCK, text) == Some(Match([" ", body], ""))
    requires BlockSkill("", body) == Ok(UNNAMED)
    ensures Parse(text) == Ok(SkillsCatalog([UNNAMED]))
  {
    hide Trim, MatchHere, ToolsIn, BlockSkill, Search;
    SameTrimmedName(" ", "", body);
    FoundAfter(BLOCK, "", text);
    assert "" + text == text;
    NoSkillsInNothing();
    assert [UNNAMED] + [] == [UNNAMED];
  }

  lemma SameTrimmedName(a: string, b: string, body: string)
    ensures a == " " && b == "" ==> BlockSkill(a, body) == BlockSkill(b, body)
  {
    assert TrimStart(" ") == TrimStart(" "[1..]);
    assert Trim(" ") == Trim("");
    hide Trim, Search, ToolsIn;
  }
}
