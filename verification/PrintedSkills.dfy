/** The text a catalog prints to, taken apart into the pieces a parser meets one after the other. */
module PrintedSkills {
  import opened Common
  import opened Text
  import opened SkillsDsl

  function ToolsThen(tools: seq<string>, tail: string): string
    requires tools != []
  {
    "\"" + (tools[0] + ("\"" + (if |tools| == 1 then tail else ", " + ToolsThen(tools[1..], tail))))
  }

  function ListThen(skill: SkillDefinition, tail: string): string
    requires skill.allowedTools != []
  {
    "\n  allowed_tools: [" + ToolsThen(skill.allowedTools, "]\n" + tail)
  }

  function BodyThen(skill: SkillDefinition, tail: string): string
    requires skill.allowedTools != []
  {
    "\n  policy: " + ("\"" + (skill.policy + ("\"" + ListThen(skill, tail))))
  }

  function SkillThen(skill: SkillDefinition, tail: string): string
    requires skill.allowedTools != []
  {
    "skill" + (" " + ("\"" + (skill.name + ("\"" + (" " + ("{" + BodyThen(skill, "}" + tail)))))))
  }

  function SkillsText(skills: seq<SkillDefinition>): string
    requires skills != [] && forall i :: 0 <= i < |skills| ==> skills[i].allowedTools != []
  {
    SkillThen(skills[0], if |skills| == 1 then "" else "\n\n" + SkillsText(skills[1..]))
  }

  lemma {:induction false} ToolsTail(tools: seq<string>, a: string, b: string)
    requires tools != []
    ensures ToolsThen(tools, a + b) == ToolsThen(tools, a) + b
  {
    if |tools| == 1 {
      Join4("\"", tools[0], "\"", a, b);
    } else {
      var later := ToolsThen(tools[1..], a);
      ToolsTail(tools[1..], a, b);
      Assoc(", ", later, b);
      Join4("\"", tools[0], "\"", ", " + later, b);
    }
  }

  lemma Join4(w: string, x: string, y: string, z: string, tail: string)
    ensures (w + (x + (y + z))) + tail == w + (x + (y + (z + tail)))
  {
    Assoc(y, z, tail);
    Assoc(x, y + z, tail);
    Assoc(w, x + (y + z), tail);
  }

  lemma BodyTail(skill: SkillDefinition, a: string, b: string)
    requires skill.allowedTools != []
    ensures BodyThen(skill, a + b) == BodyThen(skill, a) + b
  {
    hide ToolsThen;
    var tools := ToolsThen(skill.allowedTools, "]\n" + a);
    Assoc("]\n", a, b);
    ToolsTail(skill.allowedTools, "]\n" + a, b);
    Assoc("\n  allowed_tools: [", tools, b);
    Join4("\"", skill.policy, "\"", ListThen(skill, a), b);
    Assoc("\n  policy: ", "\"" + (skill.policy + ("\"" + ListThen(skill, a))), b);
  }

  lemma {:induction false} JoinedTools(tools: seq<string>, tail: string)
    requires tools != []
    ensures Join(Quoted(tools), ", ") + tail == ToolsThen(tools, tail)
  {
    var quoted := Quoted(tools);
    Assoc("\"", tools[0], "\"");
    if |tools| == 1 {
      assert tools[1..] == [] && Quoted(tools[1..]) == [];
      assert quoted == [Quote(tools[0])];
      Join4("\"", tools[0], "\"", "", tail);
      assert "\"" + "" == "\"" && "" + tail == tail;
    } else {
      assert quoted[1..] == Quoted(tools[1..]);
      var later := Join(Quoted(tools[1..]), ", ");
      JoinedTools(tools[1..], tail);
      assert Quoted(tools[1..]) != [];
      assert Join(quoted, ", ") == Quote(tools[0]) + ", " + later;
      Assoc(Quote(tools[0]), ", ", later);
      Assoc(Quote(tools[0]), ", " + later, tail);
      Assoc(", ", later, tail);
      Join4("\"", tools[0], "\"", "", ", " + (later + tail));
      assert "\"" + "" == "\"" && "" + (", " + (later + tail)) == ", " + (later + tail);
    }
  }

  lemma RenderedSkillThen(skill: SkillDefinition, tail: string)
    requires skill.allowedTools != []
    ensures RenderSkill(skill) + tail == SkillThen(skill, tail)
  {
    hide Join, ToolsThen;
    var tools := Join(Quoted(skill.allowedTools), ", ");
    var end := "]\n" + ("}" + tail);
    JoinedTools(skill.allowedTools, end);
    EndOfSkill(tail);
    SevenPieces("skill \"", skill.name, "\" {\n  policy: \"", skill.policy, "\"\n  allowed_tools: [", tools, "]\n}",
                tail);
    EndOfPolicy(tools + end);
    EndOfName(skill.policy + ("\"" + ListThen(skill, "}" + tail)));
    StartOfSkill(skill.name + ("\"" + (" " + ("{" + BodyThen(skill, "}" + tail)))));
  }

  lemma EndOfSkill(s: string)
    ensures "]\n}" + s == "]\n" + ("}" + s)
  {
    Assoc("]\n", "}", s);
  }

  lemma EndOfPolicy(s: string)
    ensures "\"\n  allowed_tools: [" + s == "\"" + ("\n  allowed_tools: [" + s)
  {
    assert "\"\n  allowed_tools: [" == "\"" + "\n  allowed_tools: [";
    Assoc("\"", "\n  allowed_tools: [", s);
  }

  lemma EndOfName(s: string)
    ensures "\" {\n  policy: \"" + s == "\"" + (" " + ("{" + ("\n  policy: " + ("\"" + s))))
  {
    assert "\" {\n  policy: \"" == "\"" + (" " + ("{" + ("\n  policy: " + "\"")));
    Join4("\"", " ", "{", "\n  policy: " + "\"", s);
    Assoc("\n  policy: ", "\"", s);
  }

  lemma StartOfSkill(s: string)
    ensures "skill \"" + s == "skill" + (" " + ("\"" + s))
  {
    assert "skill \"" == "skill" + (" " + "\"");
    Assoc("skill", " " + "\"", s);
    Assoc(" ", "\"", s);
  }

  lemma SevenPieces(a: string, n: string, b: string, p: string, c: string, t: string, d: string, tail: string)
    ensures (a + n + b + p + c + t + d) + tail == a + (n + (b + (p + (c + (t + (d + tail))))))
  {
    Assoc(a + n + b + p + c + t, d, tail);
    Assoc(a + n + b + p + c, t, d + tail);
    Assoc(a + n + b + p, c, t + (d + tail));
    Assoc(a + n + b, p, c + (t + (d + tail)));
    Assoc(a + n, b, p + (c + (t + (d + tail))));
    Assoc(a, n, b + (p + (c + (t + (d + tail)))));
  }

  lemma {:induction false} RenderedText(skills: seq<SkillDefinition>)
    requires skills != [] && forall i :: 0 <= i < |skills| ==> skills[i].allowedTools != []
    ensures Render(SkillsCatalog(skills)) == SkillsText(skills)
  {
    hide RenderSkill, SkillThen;
    var rendered := RenderedSkills(skills);
    if |skills| == 1 {
      assert skills[1..] == [] && RenderedSkills(skills[1..]) == [];
      assert rendered == [RenderSkill(skills[0])];
      RenderedSkillThen(skills[0], "");
      assert RenderSkill(skills[0]) + "" == RenderSkill(skills[0]);
    } else {
      var later := skills[1..];
      RenderedText(later);
      assert rendered[1..] == RenderedSkills(later) && RenderedSkills(later) != [];
      Assoc(RenderSkill(skills[0]), "\n\n", SkillsText(later));
      RenderedSkillThen(skills[0], "\n\n" + SkillsText(later));
    }
  }
}
