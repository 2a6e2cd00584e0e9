/** What the executor reports of a task, told by the actions of the run it was part of. */
module A2aReports {
  import opened Common
  import opened Text
  import opened A2aExecutor

  // ----- what happened to an entry, over the actions of a run from the start

  /** A deadline of entry `n`, or a cancel request that finds its token. */
  predicate SetsToken(s: State, a: Action, n: nat) {
    && n < |s.tasks|
    && match a
       case Deadline(m) => m == n
       case Cancel(id) => Acknowledged(s, id) && s.registry[id] == n
       case _ => false
  }

  predicate Steps(s: State, a: Action, n: nat) {
    a.StepTask? && a.n == n && n < |s.tasks|
  }

  /** The two looks at the token before the agent runs: before and after Working is sent. */
  predicate LooksBeforeRun(s: State, a: Action, n: nat) {
    Steps(s, a, n) && (s.tasks[n].pc.Inserted? || s.tasks[n].pc.WorkingSent?)
  }

  /** And the look that decides what is reported, after the agent has run. */
  predicate LooksAfterRun(s: State, a: Action, n: nat) {
    Steps(s, a, n) && s.tasks[n].pc.Deciding?
  }

  predicate EndsRun(s: State, a: Action, n: nat) {
    Steps(s, a, n) && s.tasks[n].pc.Running?
  }

  function Front(actions: seq<Action>): seq<Action>
    requires actions != []
  {
    actions[..|actions| - 1]
  }

  function Last(actions: seq<Action>): Action
    requires actions != []
  {
    actions[|actions| - 1]
  }

  /** The token of entry `n` was set at some point. */
  predicate TokenSet(actions: seq<Action>, n: nat) {
    actions != []
    && (TokenSet(Front(actions), n) || SetsToken(Run(INIT, Front(actions)), Last(actions), n))
  }

  /** The entry looked at its token before the agent ran, and it had been set. */
  predicate SetBeforeRun(actions: seq<Action>, n: nat) {
    actions != []
    && (SetBeforeRun(Front(actions), n)
        || (TokenSet(Front(actions), n) && LooksBeforeRun(Run(INIT, Front(actions)), Last(actions), n)))
  }

  /** The entry looked at its token, before the agent ran or after, and it had been set. */
  predicate SetInTime(actions: seq<Action>, n: nat) {
    actions != []
    && (SetInTime(Front(actions), n)
        || (TokenSet(Front(actions), n)
            && (LooksBeforeRun(Run(INIT, Front(actions)), Last(actions), n)
                || LooksAfterRun(Run(INIT, Front(actions)), Last(actions), n))))
  }

  /** What the agent's run ended with. */
  function Ended(actions: seq<Action>, n: nat): Option<RunResult> {
    if actions == [] then None
    else if EndsRun(Run(INIT, Front(actions)), Last(actions), n) then Some(Last(actions).env.result)
    else Ended(Front(actions), n)
  }

  // ----- the entry tells its history

  predicate EndedWell(result: Option<RunResult>) {
    result == Some(Output(GoalReached)) || result == Some(Output(LimitReached))
  }

  predicate EndedBadly(result: Option<RunResult>) {
    result == Some(Output(StopError)) || result == Some(RunFailed)
  }

  predicate Fits(state: TaskState, inTime: bool, result: Option<RunResult>) {
    && (state == Canceled <==> inTime)
    && (state == Completed <==> !inTime && EndedWell(result))
    && (state == Failed <==> !inTime && EndedBadly(result))
  }

  predicate Tells(t: Task, early: bool, inTime: bool, result: Option<RunResult>) {
    && (early ==> inTime && result.None?)
    && match t.pc
       case Refused | Acquired | Inserted | Spawned | SendFailed | WorkingSent | Running => !inTime && result.None?
       case EarlyCanceled | EarlyRemoved | CancelSeen => early
       case Ran(r) => !inTime && result == Some(r)
       case Deciding(r) => !inTime && result == Some(r)
       case Reporting(state) => Fits(state, inTime, result)
       case Reported | Finished => Terminal(t.stream).Some? ==> Fits(Terminal(t.stream).value, inTime, result)
  }

  lemma RunLast(actions: seq<Action>)
    requires actions != []
    ensures Run(INIT, actions) == Next(Run(INIT, Front(actions)), Last(actions))
  {
    hide Run, Next;
    assert actions == Front(actions) + [Last(actions)];
    RunConcat(INIT, Front(actions), [Last(actions)]);
    RunOne(Run(INIT, Front(actions)), Last(actions));
  }

  /** Nothing has happened to an entry that is not there yet. */
  lemma {:induction false} NothingYet(actions: seq<Action>, n: nat)
    requires n >= |Run(INIT, actions).tasks|
    ensures !TokenSet(actions, n) && !SetBeforeRun(actions, n) && !SetInTime(actions, n) && Ended(actions, n).None?
  {
    hide Run;
    if actions != [] {
      RunLast(actions);
      NextAddsOnly(Run(INIT, Front(actions)), Last(actions));
      hide Next;
      NothingYet(Front(actions), n);
    }
  }

  lemma NextAddsOnly(s: State, a: Action)
    ensures |s.tasks| <= |Next(s, a).tasks| <= |s.tasks| + 1
    ensures !a.Execute? ==> |Next(s, a).tasks| == |s.tasks|
    ensures a.Execute? ==> |Next(s, a).tasks| == |s.tasks| + 1 && s.tasks <= Next(s, a).tasks
  {
    hide ExtractPrompt, TaskStep;
  }

  /** One action, as it concerns entry `n`. */
  lemma NextForEntry(s: State, a: Action, n: nat)
    requires Inv(s) && n < |s.tasks|
    ensures n < |Next(s, a).tasks|
    ensures Next(s, a).tasks[n] ==
            if SetsToken(s, a, n) then s.tasks[n].(cancelled := true)
            else if Steps(s, a, n) then TaskStep(s.tasks[n], a.env)
            else s.tasks[n]
  {
    hide ExtractPrompt, TaskStep, StreamFits, Held, Registered;
  }

  lemma StepTells(t: Task, env: Env, early: bool, inTime: bool, result: Option<RunResult>)
    requires StreamFits(t) && Tells(t, early, inTime, result)
    ensures var looksBefore := t.pc.Inserted? || t.pc.WorkingSent?;
            Tells(TaskStep(t, env),
                  early || (t.cancelled && looksBefore),
                  inTime || (t.cancelled && (looksBefore || t.pc.Deciding?)),
                  if t.pc.Running? then Some(env.result) else result)
  {
    if t.pc.Deciding? {
      DecidedState(t.pc.result, t.cancelled);
    }
  }

  lemma DecidedState(result: RunResult, cancelled: bool)
    ensures Fits(FinalState(result, cancelled), cancelled, Some(result))
  {
    match result
    case RunFailed =>
    case Output(stop) => match stop {
      case GoalReached =>
      case LimitReached =>
      case StopError =>
    }
  }

  lemma TokenTells(t: Task, early: bool, inTime: bool, result: Option<RunResult>)
    requires Tells(t, early, inTime, result)
    ensures Tells(t.(cancelled := true), early, inTime, result)
  {
  }

  lemma NewEntryTells(s: State, a: Action)
    requires a.Execute?
    ensures var t := Next(s, a).tasks[|s.tasks|];
            !t.cancelled && Tells(t, false, false, None)
  {
    hide ExtractPrompt;
  }

  lemma {:induction false} EntryTells(actions: seq<Action>, n: nat)
    requires n < |Run(INIT, actions).tasks|
    ensures var t := Run(INIT, actions).tasks[n];
            && (t.cancelled <==> TokenSet(actions, n))
            && Tells(t, SetBeforeRun(actions, n), SetInTime(actions, n), Ended(actions, n))
  {
    hide Run, Next, Tells, TaskStep, StreamFits;
    if actions == [] {
      NoTasks();
    } else {
      var s, a := Run(INIT, Front(actions)), Last(actions);
      RunLast(actions);
      ReachableInv(Front(actions));
      NextAddsOnly(s, a);
      if n < |s.tasks| {
        EntryTells(Front(actions), n);
        NextForEntry(s, a, n);
        var t := s.tasks[n];
        TokenTells(t, SetBeforeRun(Front(actions), n), SetInTime(Front(actions), n), Ended(Front(actions), n));
        if Steps(s, a, n) {
          FitsThere(s, n);
          StepTells(t, a.env, SetBeforeRun(Front(actions), n), SetInTime(Front(actions), n),
                    Ended(Front(actions), n));
          StepKeepsToken(t, a.env);
        }
      } else {
        NothingYet(Front(actions), n);
        NewEntryTells(s, a);
      }
    }
  }

  lemma NoTasks()
    ensures |Run(INIT, []).tasks| == 0
  {
  }

  lemma FitsThere(s: State, n: nat)
    requires Inv(s) && n < |s.tasks|
    ensures StreamFits(s.tasks[n])
  {
    hide StreamFits;
  }

  lemma StepKeepsToken(t: Task, env: Env)
    ensures TaskStep(t, env).cancelled == t.cancelled
  {
  }

  /**
   * Over every run: a final state that is reported is Canceled if and only if the token had been
   * set, by a deadline or by a cancel that found it, when the entry looked at it; otherwise it is
   * Completed when the agent's run reached its goal or a limit, and Failed when it ended in an
   * error or did not run at all. A token set before the agent ran keeps it from running.
   */
  lemma ReportTellsTheRun(actions: seq<Action>, n: nat)
    requires n < |Run(INIT, actions).tasks|
    ensures var t := Run(INIT, actions).tasks[n];
            var reported := Terminal(t.stream);
            && (reported.Some? ==>
                  && (reported.value == Canceled <==> SetInTime(actions, n))
                  && (reported.value == Completed <==> !SetInTime(actions, n) && EndedWell(Ended(actions, n)))
                  && (reported.value == Failed <==> !SetInTime(actions, n) && EndedBadly(Ended(actions, n))))
            && (t.pc.Finished? && !t.lost ==>
                  && reported.Some?
                  && (t.stream == [StatusUpdate(Working), TaskResult(reported.value)]
                      || t.stream == [StatusUpdate(Canceled)]))
            && (SetBeforeRun(actions, n) ==> Ended(actions, n).None?)
  {
    hide Run, Next, TaskStep, SetInTime, SetBeforeRun, Ended;
    EntryTells(actions, n);
    ReachableInv(actions);
    FitsThere(Run(INIT, actions), n);
  }

  // ----- what a call is answered at once

  predicate AllTexts(parts: seq<Part>) {
    forall i :: 0 <= i < |parts| ==> parts[i].TextPart?
  }

  predicate AllBlank(parts: seq<Part>) {
    forall i :: 0 <= i < |parts| ==> parts[i].TextPart? && Blank(parts[i].text)
  }

  function TextsOf(parts: seq<Part>): seq<string>
    requires AllTexts(parts)
  {
    seq(|parts|, i requires 0 <= i < |parts| => parts[i].text)
  }

  lemma {:induction false} JoinedTexts(parts: seq<Part>)
    ensures AllTexts(parts) ==> JoinTexts(parts) == Ok(TextsOf(parts))
    ensures !AllTexts(parts) ==> JoinTexts(parts) == Err(ContentTypeNotSupported)
  {
    if parts != [] {
      JoinedTexts(parts[1..]);
      assert forall i :: 1 <= i < |parts| ==> parts[i] == parts[1..][i - 1];
      if AllTexts(parts) {
        assert TextsOf(parts) == [parts[0].text] + TextsOf(parts[1..]);
      } else {
        assert parts[0].TextPart? ==> !AllTexts(parts[1..]);
      }
    }
  }

  lemma {:induction false} JoinedIsBlank(texts: seq<string>)
    ensures Blank(Join(texts, "\n")) <==> forall i :: 0 <= i < |texts| ==> Blank(texts[i])
  {
    if |texts| > 1 {
      var rest := texts[1..];
      JoinedIsBlank(rest);
      assert forall i :: 1 <= i < |texts| ==> texts[i] == rest[i - 1];
      assert forall i :: 0 <= i < |rest| ==> rest[i] == texts[i + 1];
      hide Blank;
      BlankLine();
      BlankConcat(texts[0], "\n");
      BlankConcat(texts[0] + "\n", Join(rest, "\n"));
      assert texts[0] + ("\n" + Join(rest, "\n")) == texts[0] + "\n" + Join(rest, "\n");
    }
  }

  lemma BlankLine()
    ensures Blank("\n")
  {
  }

  lemma BlankConcat(a: string, b: string)
    ensures Blank(a + b) <==> Blank(a) && Blank(b)
  {
    if Blank(a + b) {
      assert forall i :: 0 <= i < |a| ==> a[i] == (a + b)[i];
      assert forall i :: 0 <= i < |b| ==> b[i] == (a + b)[|a| + i];
    }
  }

  lemma BlankTexts(parts: seq<Part>)
    requires AllTexts(parts)
    ensures AllBlank(parts) <==> forall i :: 0 <= i < |TextsOf(parts)| ==> Blank(TextsOf(parts)[i])
  {
    hide Blank;
    assert forall i :: 0 <= i < |parts| ==> TextsOf(parts)[i] == parts[i].text;
  }

  /** A message is refused for being absent, for a part that is no text, or for being blank, in that order. */
  lemma PromptIff(message: Option<seq<Part>>)
    ensures ExtractPrompt(message) == Err(MessageRequired) <==> message.None?
    ensures ExtractPrompt(message) == Err(ContentTypeNotSupported) <==> message.Some? && !AllTexts(message.value)
    ensures ExtractPrompt(message) == Err(NoTextParts) <==> message.Some? && AllBlank(message.value)
    ensures forall p :: ExtractPrompt(message) == Ok(p) <==>
              && message.Some? && AllTexts(message.value) && !AllBlank(message.value)
              && p == Join(TextsOf(message.value), "\n")
  {
    if message.Some? {
      JoinedTexts(message.value);
      if AllTexts(message.value) {
        var texts := TextsOf(message.value);
        JoinedIsBlank(texts);
        TrimmedAway(Join(texts, "\n"));
        BlankTexts(message.value);
      }
    }
    hide Blank, Join, Trim, JoinTexts;
  }

  /**
   * A call is refused for its message, or because 256 accepted entries have not given their
   * permit back; and then it says so and holds nothing. Otherwise it is accepted.
   */
  lemma CallIsAnswered(s: State, id: string, message: Option<seq<Part>>)
    requires Inv(s)
    ensures var d := Next(s, Execute(id, message));
            var prompt := ExtractPrompt(message);
            && |d.tasks| == |s.tasks| + 1 && d.tasks[..|s.tasks|] == s.tasks && d.registry == s.registry
            && var t := d.tasks[|s.tasks|];
            && t.id == id && !t.cancelled
            && if prompt.Err? then t.pc.Refused? && t.stream == [Error(prompt.error)] && d.permits == s.permits
               else if Held(s.tasks) == 256 then
                 t.pc.Refused? && t.stream == [Error(TooManyTasks)] && d.permits == s.permits
               else t.pc.Acquired? && t.stream == [] && d.permits == s.permits - 1
  {
    hide ExtractPrompt, Held, StreamFits;
  }
}
