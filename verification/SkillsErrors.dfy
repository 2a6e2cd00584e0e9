/** What makes a skills text fail to parse, and what it parses to otherwise, block by block. */
module SkillsErrors {
  import opened Common
  import opened Text
  import opened Patterns
  import opened SkillsDsl
  import Q = QualifiedTools

  ghost predicate Occurs(p: Pattern, s: string) {
    exists i: nat :: MatchesAt(p, s, i)
  }

  lemma SearchFindsIff(p: Pattern, s: string)
    ensures Search(p, s).Some? <==> Occurs(p, s)
  {
    hide MatchHere, Search, MatchesAt;
    SearchIsLeftmost(p, s);
  }

  /** The `i`-th element is the first that fails, and with `e`. */
  ghost predicate FirstFailure<T, E>(results: seq<Result<T, E>>, i: nat, e: E) {
    && i < |results| && results[i] == Err(e)
    && forall j :: 0 <= j < i ==> results[j].Ok?
  }

  /** Every element succeeds, with these values. */
  predicate AllSucceed<T(==), E>(results: seq<Result<T, E>>, values: seq<T>) {
    |values| == |results| && forall j :: 0 <= j < |results| ==> results[j].Ok? && results[j].value == values[j]
  }

  /** The first failure, or all the values. */
  ghost predicate Collected<T(!new), E(!new)>(results: seq<Result<T, E>>, r: Result<seq<T>, E>) {
    && (forall e :: r == Err(e) <==> exists i: nat :: FirstFailure(results, i, e))
    && (forall values :: r == Ok(values) <==> AllSucceed(results, values))
  }

  function Collect<T, E>(head: Result<T, E>, tail: Result<seq<T>, E>): Result<seq<T>, E> {
    match head
    case Err(e) => Err(e)
    case Ok(x) =>
      match tail
      case Err(e) => Err(e)
      case Ok(later) => Ok([x] + later)
  }

  lemma CollectedNothing<T(!new), E(!new)>()
    ensures Collected<T, E>([], Ok([]))
  {
  }

  lemma CollectedMore<T(!new), E(!new)>(head: Result<T, E>, results: seq<Result<T, E>>, tail: Result<seq<T>, E>)
    requires Collected(results, tail)
    ensures Collected([head] + results, Collect(head, tail))
  {
    var all, r := [head] + results, Collect(head, tail);
    forall e
      ensures r == Err(e) <==> exists i: nat :: FirstFailure(all, i, e)
    {
      FailureMore(head, results, e);
    }
    forall values
      ensures r == Ok(values) <==> AllSucceed(all, values)
    {
      if AllSucceed(all, values) {
        assert all[0] == head;
        assert forall j :: 0 <= j < |results| ==> results[j] == all[j + 1];
        assert AllSucceed(results, values[1..]);
        HeadTail(values);
      }
      if r == Ok(values) {
        assert AllSucceed(results, tail.value);
        assert forall j :: 1 <= j < |all| ==> all[j] == results[j - 1];
      }
    }
  }

  lemma FailureMore<T, E>(head: Result<T, E>, results: seq<Result<T, E>>, e: E)
    ensures (exists i: nat :: FirstFailure([head] + results, i, e)) <==>
            head == Err(e) || (head.Ok? && exists i: nat :: FirstFailure(results, i, e))
  {
    var all := [head] + results;
    assert forall j :: 1 <= j < |all| ==> all[j] == results[j - 1];
    assert forall j :: 0 <= j < |results| ==> results[j] == all[j + 1];
    if head == Err(e) {
      assert FirstFailure(all, 0, e);
    }
    if i: nat :| FirstFailure(results, i, e) {
      assert head.Ok? ==> FirstFailure(all, i + 1, e);
    }
    if i: nat :| FirstFailure(all, i, e) {
      assert all[0] == head;
      if i > 0 {
        assert FirstFailure(results, i - 1, e);
      }
    }
  }

  // ----- tools

  function ToolOf(m: Match): Result<string, Q.NameError>
    requires m.groups != []
  {
    match Q.Parse(m.groups[0])
    case Err(e) => Err(e)
    case Ok(tool) => Ok(tool.server + "." + tool.tool)
  }

  function ToolResults(s: string): seq<Result<string, Q.NameError>>
    decreases |s|
  {
    match Search(QUOTED, s)
    case None => []
    case Some(m) => [ToolOf(m)] + ToolResults(m.rest)
  }

  lemma {:induction false} ToolsAreCollected(s: string)
    ensures Collected(ToolResults(s), ToolsIn(s))
    decreases |s|
  {
    hide Collected, MatchHere, Search;
    match Search(QUOTED, s) {
      case None => CollectedNothing<string, Q.NameError>();
      case Some(m) =>
        ToolsAreCollected(m.rest);
        CollectedMore(ToolOf(m), ToolResults(m.rest), ToolsIn(m.rest));
    }
  }

  // ----- one block

  /**
   * What a block lacks is reported in this order: a policy, a tool list, a tool that does not
   * parse, the first one, any tool at all. Otherwise the skill has the trimmed name and policy
   * and all the tools.
   */
  lemma BlockIsTold(rawName: string, body: string)
    ensures var r := BlockSkill(rawName, body); var name := Trim(rawName);
            && (r == Err(MissingPolicy(name)) <==> !Occurs(POLICY, body))
            && (r == Err(MissingTools(name)) <==> Occurs(POLICY, body) && !Occurs(TOOLS, body))
            && (Occurs(POLICY, body) && Occurs(TOOLS, body) ==>
                  && Search(POLICY, body).Some? && Search(TOOLS, body).Some?
                  && var tools := ToolResults(Search(TOOLS, body).value.groups[0]);
                  && (forall e :: r == Err(BadTool(name, e)) <==> exists i: nat :: FirstFailure(tools, i, e))
                  && (r == Err(EmptyTools(name)) <==> tools == [])
                  && (forall values :: AllSucceed(tools, values) && values != [] ==>
                        r == Ok(SkillDefinition(name, Trim(Search(POLICY, body).value.groups[0]), values))))
  {
    hide MatchHere, Search, Occurs, Trim, ToolResults, ToolsIn, FirstFailure, AllSucceed;
    SearchFindsIff(POLICY, body);
    SearchFindsIff(TOOLS, body);
    if Search(POLICY, body).Some? && Search(TOOLS, body).Some? {
      var list := Search(TOOLS, body).value.groups[0];
      ToolsAreCollected(list);
      NothingIsAllOfNothing(ToolResults(list));
      forall e
        ensures BlockSkill(rawName, body) == Err(BadTool(Trim(rawName), e)) <==>
                exists i: nat :: FirstFailure(ToolResults(list), i, e)
      {
        assert ToolsIn(list) == Err(e) <==> exists i: nat :: FirstFailure(ToolResults(list), i, e);
      }
    }
  }

  lemma NothingIsAllOfNothing<T, E>(results: seq<Result<T, E>>)
    ensures AllSucceed(results, []) <==> results == []
  {
  }

  // ----- all blocks

  function SkillOf(m: Match): Result<SkillDefinition, DslError>
    requires |m.groups| == 2
  {
    BlockSkill(m.groups[0], m.groups[1])
  }

  function SkillResults(s: string): seq<Result<SkillDefinition, DslError>>
    decreases |s|
  {
    match Search(BLOCK, s)
    case None => []
    case Some(m) => [SkillOf(m)] + SkillResults(m.rest)
  }

  lemma {:induction false} SkillsAreCollected(s: string)
    ensures Collected(SkillResults(s), SkillsIn(s))
    decreases |s|
  {
    hide Collected, MatchHere, Search, BlockSkill;
    match Search(BLOCK, s) {
      case None => CollectedNothing<SkillDefinition, DslError>();
      case Some(m) =>
        SkillsAreCollected(m.rest);
        CollectedMore(SkillOf(m), SkillResults(m.rest), SkillsIn(m.rest));
    }
  }

  /** A text without any block is refused; else the first block that fails decides, or there is a skill for each. */
  lemma ParseIsTold(s: string)
    ensures Parse(s) == Err(NoBlocks) <==> !Occurs(BLOCK, s)
    ensures Occurs(BLOCK, s) ==>
              && (forall e :: Parse(s) == Err(e) <==> exists i: nat :: FirstFailure(SkillResults(s), i, e))
              && forall skills :: Parse(s) == Ok(SkillsCatalog(skills)) <==> AllSucceed(SkillResults(s), skills)
  {
    SearchFindsIff(BLOCK, s);
    SkillsAreCollected(s);
    NothingIsAllOfNothing(SkillResults(s));
    BlocksDoNotSayNoBlocks(s);
    hide MatchHere, Search, Occurs, SkillsIn, FirstFailure, AllSucceed, BlockSkill;
  }

  lemma {:induction false} BlocksDoNotSayNoBlocks(s: string)
    ensures SkillsIn(s) != Err(NoBlocks)
    ensures SkillResults(s) == [] <==> Search(BLOCK, s).None?
    decreases |s|
  {
    hide MatchHere, Search, BlockSkill;
    match Search(BLOCK, s) {
      case None =>
      case Some(m) =>
        BlocksDoNotSayNoBlocks(m.rest);
        BlockErrorsNameTheSkill(m.groups[0], m.groups[1]);
    }
  }

  lemma BlockErrorsNameTheSkill(rawName: string, body: string)
    ensures BlockSkill(rawName, body) != Err(NoBlocks)
  {
  }
}
