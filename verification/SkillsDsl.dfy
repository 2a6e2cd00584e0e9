/** The skills DSL: parsing skill blocks out of a text, and printing a catalog as such a text. */
module SkillsDsl {
  import opened Common
  import opened Text
  import opened Patterns
  import Q = QualifiedTools

  datatype SkillDefinition = SkillDefinition(name: string, policy: string, allowedTools: seq<string>)

  datatype SkillsCatalog = SkillsCatalog(skills: seq<SkillDefinition>)

  datatype DslError =
    | MissingPolicy(name: string)
    | MissingTools(name: string)
    | BadTool(name: string, reason: Q.NameError)
    | EmptyTools(name: string)
    | NoBlocks

  // ----- the four patterns

  const QUOTED: Pattern := Lit("\"", Run('"', 1, Lit("\"", End)))

  const POLICY: Pattern := Lit("policy", Spaces(0, Lit(":", Spaces(0, QUOTED))))

  const TOOL_LIST: Pattern := Run(']', 0, Lit("]", End))

  const TOOLS: Pattern := Lit("allowed_tools", Spaces(0, Lit(":", Spaces(0, Lit("[", TOOL_LIST)))))

  const BLOCK_TAIL: Pattern := Spaces(0, Lit("{", Lazy(Lit("}", End))))

  const BLOCK: Pattern := Lit("skill", Spaces(1, Lit("\"", Run('"', 1, Lit("\"", BLOCK_TAIL)))))

  /** No run needs backtracking, so the matcher finds what the regular expression denotes. */
  lemma PatternsAreExact(s: string, m: Match)
    ensures Derives(BLOCK, s, m) <==> MatchHere(BLOCK, s) == Some(m)
    ensures Derives(POLICY, s, m) <==> MatchHere(POLICY, s) == Some(m)
    ensures Derives(TOOLS, s, m) <==> MatchHere(TOOLS, s) == Some(m)
    ensures Derives(QUOTED, s, m) <==> MatchHere(QUOTED, s) == Some(m)
  {
    hide MatchHere, Derives;
    MatchIsExact(BLOCK, s, m);
    MatchIsExact(POLICY, s, m);
    MatchIsExact(TOOLS, s, m);
    MatchIsExact(QUOTED, s, m);
  }

  /** The head of a block, up to its opening brace. */
  const BLOCK_HEAD: Pattern :=
    Lit("skill", Spaces(1, Lit("\"", Run('"', 1, Lit("\"", Spaces(0, Lit("{", End)))))))

  const BODY: Pattern := Run('}', 0, Lit("}", End))

  /** The lazy body of a block is the text up to its first closing brace. */
  lemma BlockBody(s: string)
    ensures MatchHere(BLOCK, s) == Then(MatchHere(BLOCK_HEAD, s), BODY)
  {
    hide MatchHere;
    var lazy := Lazy(Lit("}", End));
    assert BLOCK == Append(BLOCK_HEAD, lazy);
    MatchAppend(BLOCK_HEAD, lazy, s);
    if MatchHere(BLOCK_HEAD, s).Some? {
      LazyIsRun('}', MatchHere(BLOCK_HEAD, s).value.rest);
    }
  }

  lemma BlockBodies(s: string)
    ensures MatchHere(BLOCK, s) == MatchHere(Append(BLOCK_HEAD, BODY), s)
  {
    hide MatchHere;
    BlockBody(s);
    MatchAppend(BLOCK_HEAD, BODY, s);
  }

  lemma {:induction false} BlocksFound(s: string)
    ensures Search(BLOCK, s) == Search(Append(BLOCK_HEAD, BODY), s)
    decreases |s|
  {
    hide MatchHere, Append;
    BlockBodies(s);
    if s != "" {
      BlocksFound(s[1..]);
    }
  }

  // ----- parsing

  /** The quoted names of a tool list, in order, up to the first that is not `server.tool`. */
  function ToolsIn(s: string): Result<seq<string>, Q.NameError>
    decreases |s|
  {
    match Search(QUOTED, s)
    case None => Ok([])
    case Some(m) =>
      match Q.Parse(m.groups[0])
      case Err(e) => Err(e)
      case Ok(tool) =>
        match ToolsIn(m.rest)
        case Err(e) => Err(e)
        case Ok(later) => Ok([Q.Qualified(tool)] + later)
  }

  function BlockSkill(rawName: string, body: string): Result<SkillDefinition, DslError> {
    var name := Trim(rawName);
    match Search(POLICY, body)
    case None => Err(MissingPolicy(name))
    case Some(policy) =>
      match Search(TOOLS, body)
      case None => Err(MissingTools(name))
      case Some(list) =>
        match ToolsIn(list.groups[0])
        case Err(e) => Err(BadTool(name, e))
        case Ok(tools) =>
          if tools == [] then Err(EmptyTools(name)) else Ok(SkillDefinition(name, Trim(policy.groups[0]), tools))
  }

  function SkillsIn(s: string): Result<seq<SkillDefinition>, DslError>
    decreases |s|
  {
    match Search(BLOCK, s)
    case None => Ok([])
    case Some(m) =>
      match BlockSkill(m.groups[0], m.groups[1])
      case Err(e) => Err(e)
      case Ok(skill) =>
        match SkillsIn(m.rest)
        case Err(e) => Err(e)
        case Ok(later) => Ok([skill] + later)
  }

  function Parse(s: string): Result<SkillsCatalog, DslError> {
    match SkillsIn(s)
    case Err(e) => Err(e)
    case Ok(skills) => if skills == [] then Err(NoBlocks) else Ok(SkillsCatalog(skills))
  }

  method ParseTools(name: string, toolsBlock: string) returns (r: Result<seq<string>, DslError>)
    ensures r == match ToolsIn(toolsBlock)
                 case Err(e) => Err(BadTool(name, e))
                 case Ok(tools) => Ok(tools)
  {
    var allowedTools: seq<string> := [];
    var rest := toolsBlock;
    ghost var all := ToolsIn(toolsBlock);
    assert all.Ok? ==> [] + all.value == all.value;
    while true
      invariant ToolsIn(rest).Err? <==> all.Err?
      invariant all.Err? ==> ToolsIn(rest) == all
      invariant all.Ok? ==> all.value == allowedTools + ToolsIn(rest).value
      decreases |rest|
    {
      var found := Search(QUOTED, rest);
      if found.None? {
        assert all.Ok? ==> allowedTools + [] == allowedTools;
        return Ok(allowedTools);
      }
      var tool := Q.Parse(found.value.groups[0]);
      if tool.Err? {
        return Err(BadTool(name, tool.error));
      }
      ghost var later := ToolsIn(found.value.rest);
      if later.Ok? {
        Assoc(allowedTools, [Q.Qualified(tool.value)], later.value);
      }
      allowedTools := allowedTools + [Q.Qualified(tool.value)];
      rest := found.value.rest;
    }
  }

  method ParseBlock(rawName: string, body: string) returns (r: Result<SkillDefinition, DslError>)
    ensures r == BlockSkill(rawName, body)
  {
    var name := Trim(rawName);
    var policy := Search(POLICY, body);
    if policy.None? {
      return Err(MissingPolicy(name));
    }
    var toolsBlock := Search(TOOLS, body);
    if toolsBlock.None? {
      return Err(MissingTools(name));
    }
    var allowedTools := ParseTools(name, toolsBlock.value.groups[0]);
    if allowedTools.Err? {
      return Err(allowedTools.error);
    }
    if allowedTools.value == [] {
      return Err(EmptyTools(name));
    }
    return Ok(SkillDefinition(name, Trim(policy.value.groups[0]), allowedTools.value));
  }

  method ParseSource(source: string) returns (r: Result<SkillsCatalog, DslError>)
    ensures r == Parse(source)
  {
    hide BlockSkill;
    var skills: seq<SkillDefinition> := [];
    var rest := source;
    ghost var all := SkillsIn(source);
    assert all.Ok? ==> [] + all.value == all.value;
    while true
      invariant SkillsIn(rest).Err? <==> all.Err?
      invariant all.Err? ==> SkillsIn(rest) == all
      invariant all.Ok? ==> all.value == skills + SkillsIn(rest).value
      decreases |rest|
    {
      var found := Search(BLOCK, rest);
      if found.None? {
        assert all.Ok? ==> skills + [] == skills;
        return if skills == [] then Err(NoBlocks) else Ok(SkillsCatalog(skills));
      }
      var skill := ParseBlock(found.value.groups[0], found.value.groups[1]);
      if skill.Err? {
        return Err(skill.error);
      }
      ghost var later := SkillsIn(found.value.rest);
      if later.Ok? {
        Assoc(skills, [skill.value], later.value);
      }
      skills := skills + [skill.value];
      rest := found.value.rest;
    }
  }

  // ----- printing

  function Quote(s: string): string {
    "\"" + s + "\""
  }

  function Quoted(tools: seq<string>): seq<string> {
    if tools == [] then [] else [Quote(tools[0])] + Quoted(tools[1..])
  }

  function RenderSkill(skill: SkillDefinition): string {
    "skill \"" + skill.name + "\" {\n  policy: \"" + skill.policy + "\"\n  allowed_tools: ["
    + Join(Quoted(skill.allowedTools), ", ") + "]\n}"
  }

  function RenderedSkills(skills: seq<SkillDefinition>): seq<string> {
    if skills == [] then [] else [RenderSkill(skills[0])] + RenderedSkills(skills[1..])
  }

  function Render(c: SkillsCatalog): string {
    Join(RenderedSkills(c.skills), "\n\n")
  }

  lemma {:induction false} QuotedAppend(tools: seq<string>, tool: string)
    ensures Quoted(tools + [tool]) == Quoted(tools) + [Quote(tool)]
  {
    if tools == [] {
      assert [tool][1..] == [] && tools + [tool] == [tool];
    } else {
      assert (tools + [tool])[1..] == tools[1..] + [tool];
      QuotedAppend(tools[1..], tool);
      Assoc([Quote(tools[0])], Quoted(tools[1..]), [Quote(tool)]);
    }
  }

  lemma {:induction false} RenderedAppend(skills: seq<SkillDefinition>, skill: SkillDefinition)
    ensures RenderedSkills(skills + [skill]) == RenderedSkills(skills) + [RenderSkill(skill)]
  {
    hide RenderSkill;
    if skills == [] {
      assert [skill][1..] == [] && skills + [skill] == [skill];
    } else {
      assert (skills + [skill])[1..] == skills[1..] + [skill];
      RenderedAppend(skills[1..], skill);
      Assoc([RenderSkill(skills[0])], RenderedSkills(skills[1..]), [RenderSkill(skill)]);
    }
  }

  method RenderCatalog(c: SkillsCatalog) returns (text: string)
    ensures text == Render(c)
  {
    hide RenderSkill, Join;
    var blocks: seq<string> := [];
    for i := 0 to |c.skills|
      invariant blocks == RenderedSkills(c.skills[..i])
    {
      var block := RenderBlock(c.skills[i]);
      assert c.skills[..i + 1] == c.skills[..i] + [c.skills[i]];
      RenderedAppend(c.skills[..i], c.skills[i]);
      blocks := blocks + [block];
    }
    assert c.skills[..|c.skills|] == c.skills;
    text := Join(blocks, "\n\n");
  }

  method RenderBlock(skill: SkillDefinition) returns (block: string)
    ensures block == RenderSkill(skill)
  {
    var quoted: seq<string> := [];
    for i := 0 to |skill.allowedTools|
      invariant quoted == Quoted(skill.allowedTools[..i])
    {
      assert skill.allowedTools[..i + 1] == skill.allowedTools[..i] + [skill.allowedTools[i]];
      QuotedAppend(skill.allowedTools[..i], skill.allowedTools[i]);
      quoted := quoted + ["\"" + skill.allowedTools[i] + "\""];
    }
    assert skill.allowedTools[..|skill.allowedTools|] == skill.allowedTools;
    var tools := Join(quoted, ", ");
    block := "skill \"" + skill.name + "\" {\n  policy: \"" + skill.policy + "\"\n  allowed_tools: [" + tools + "]\n}";
  }
}
