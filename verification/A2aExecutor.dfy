/**
 * The A2A executor as a transition system. One `execute` call and the task it spawns are
 * one entry of `tasks`, stepped one shared access at a time; entries and cancel requests
 * interleave freely. Task ids are the peer's and may repeat.
 */
module A2aExecutor {
  import opened Common
  import opened Text

  const MAX_IN_FLIGHT_TASKS: nat := 256

  datatype Part = TextPart(text: string) | OtherPart

  datatype RequestError = MessageRequired | ContentTypeNotSupported | NoTextParts | TooManyTasks

  datatype StopReason = GoalReached | LimitReached | StopError

  /** What the agent run ends with; `RunFailed` is a wiring error. */
  datatype RunResult = Output(stop: StopReason) | RunFailed

  datatype TaskState = Working | Completed | Canceled | Failed

  /** What a peer reads from the stream of one `execute` call. */
  datatype Item = Error(e: RequestError) | StatusUpdate(state: TaskState) | TaskResult(state: TaskState)

  /** The next shared access of an `execute` call or of the task it spawned. */
  datatype Pc =
    | Refused               // answered with an error, nothing is held
    | Acquired              // permit held, token not registered yet
    | Inserted              // token registered, about to be checked
    | EarlyCanceled         // token seen set, about to be removed
    | EarlyRemoved          // about to drop the permit and answer
    | Spawned               // about to send Working
    | SendFailed            // receiver gone, about to be removed
    | WorkingSent           // about to check the token
    | CancelSeen            // token seen set, about to be removed
    | Running
    | Ran(result: RunResult)       // about to be removed
    | Deciding(result: RunResult)  // removed, about to check the token
    | Reporting(state: TaskState)  // about to send the final task
    | Reported                     // about to drop the permit
    | Finished

  datatype Task = Task(id: string, cancelled: bool, pc: Pc, stream: seq<Item>, lost: bool)

  /** `registry` maps a task id to the entry whose token it holds. */
  datatype State = State(permits: nat, registry: map<string, nat>, tasks: seq<Task>)

  const INIT: State := State(MAX_IN_FLIGHT_TASKS, map[], [])

  // ----- pure parts

  function JoinTexts(parts: seq<Part>): Result<seq<string>, RequestError> {
    if parts == [] then Ok([])
    else match parts[0]
      case OtherPart => Err(ContentTypeNotSupported)
      case TextPart(t) =>
        match JoinTexts(parts[1..])
        case Err(e) => Err(e)
        case Ok(later) => Ok([t] + later)
  }

  function ExtractPrompt(message: Option<seq<Part>>): Result<string, RequestError> {
    if message.None? then Err(MessageRequired)
    else match JoinTexts(message.value)
      case Err(e) => Err(e)
      case Ok(texts) =>
        var prompt := Join(texts, "\n");
        if Trim(prompt) == "" then Err(NoTextParts) else Ok(prompt)
  }

  /** `map_run_output` and its error branch: a set token always means Canceled. */
  function FinalState(result: RunResult, cancelled: bool): TaskState {
    if cancelled then Canceled
    else match result
      case Output(GoalReached) => Completed
      case Output(LimitReached) => Completed
      case Output(StopError) => Failed
      case RunFailed => Failed
  }

  // ----- transitions

  /** What the outside decides in one step: whether the receiver is gone, how the run ended. */
  datatype Env = Env(receiverGone: bool, result: RunResult)

  datatype Action =
    | Execute(id: string, message: Option<seq<Part>>)
    | StepTask(n: nat, env: Env)
    | Cancel(id: string)
    | Deadline(n: nat)

  function WithTask(s: State, n: nat, t: Task): State
    requires n < |s.tasks|
  {
    s.(tasks := s.tasks[n := t])
  }

  function Send(t: Task, env: Env, item: Item, next: Pc): Task {
    if env.receiverGone then t.(pc := next, lost := true) else t.(pc := next, stream := t.stream + [item])
  }

  /** What one step does to the entry itself. */
  function TaskStep(t: Task, env: Env): Task {
    match t.pc
    case Refused => t
    case Acquired => t.(pc := Inserted)
    case Inserted => t.(pc := if t.cancelled then EarlyCanceled else Spawned)
    case EarlyCanceled => t.(pc := EarlyRemoved)
    case EarlyRemoved => t.(pc := Finished, stream := t.stream + [StatusUpdate(Canceled)])
    case Spawned => Send(t, env, StatusUpdate(Working), if env.receiverGone then SendFailed else WorkingSent)
    case SendFailed => t.(pc := Reported)
    case WorkingSent => t.(pc := if t.cancelled then CancelSeen else Running)
    case CancelSeen => t.(pc := Reporting(Canceled))
    case Running => t.(pc := Ran(env.result))
    case Ran(result) => t.(pc := Deciding(result))
    case Deciding(result) => t.(pc := Reporting(FinalState(result, t.cancelled)))
    case Reporting(state) => Send(t, env, TaskResult(state), Reported)
    case Reported => t.(pc := Finished)
    case Finished => t
  }

  /** The steps that remove the entry's id from the registry. */
  predicate Removes(pc: Pc) {
    pc.EarlyCanceled? || pc.SendFailed? || pc.CancelSeen? || pc.Ran?
  }

  /** The steps that give the permit back. */
  predicate Releases(pc: Pc) {
    pc.EarlyRemoved? || pc.Reported?
  }

  function StepOf(s: State, n: nat, env: Env): State
    requires n < |s.tasks|
  {
    var t := s.tasks[n];
    State(
      if Releases(t.pc) then s.permits + 1 else s.permits,
      if t.pc.Acquired? then s.registry[t.id := n] else if Removes(t.pc) then s.registry - {t.id} else s.registry,
      s.tasks[n := TaskStep(t, env)])
  }

  function Next(s: State, a: Action): State {
    match a
    case Execute(id, message) =>
      var prompt := ExtractPrompt(message);
      if prompt.Err? then s.(tasks := s.tasks + [Task(id, false, Refused, [Error(prompt.error)], false)])
      else if s.permits == 0 then s.(tasks := s.tasks + [Task(id, false, Refused, [Error(TooManyTasks)], false)])
      else s.(permits := s.permits - 1, tasks := s.tasks + [Task(id, false, Acquired, [], false)])
    case StepTask(n, env) => if n < |s.tasks| then StepOf(s, n, env) else s
    case Cancel(id) =>
      if id in s.registry && s.registry[id] < |s.tasks| then
        WithTask(s, s.registry[id], s.tasks[s.registry[id]].(cancelled := true))
      else s
    case Deadline(n) => if n < |s.tasks| then WithTask(s, n, s.tasks[n].(cancelled := true)) else s
  }

  /** The answer to a cancel request: acknowledged exactly when the id is registered. */
  predicate Acknowledged(s: State, id: string) {
    id in s.registry
  }

  function Run(s: State, actions: seq<Action>): State
    decreases |actions|
  {
    if actions == [] then s else Run(Next(s, actions[0]), actions[1..])
  }

  // ----- what every reachable state satisfies

  predicate HoldsPermit(pc: Pc) {
    !pc.Refused? && !pc.Finished?
  }

  /** Between the insertion of the token and its removal. */
  predicate Registered(pc: Pc) {
    || pc.Inserted? || pc.EarlyCanceled? || pc.Spawned? || pc.SendFailed? || pc.WorkingSent?
    || pc.CancelSeen? || pc.Running? || pc.Ran?
  }

  function Held(tasks: seq<Task>): nat {
    if tasks == [] then 0 else Held(tasks[..|tasks| - 1]) + (if HoldsPermit(tasks[|tasks| - 1].pc) then 1 else 0)
  }

  /** What has been sent at each point; `lost` marks streams whose receiver went away. */
  predicate StreamFits(t: Task) {
    match t.pc
    case Refused => |t.stream| == 1 && t.stream[0].Error? && !t.lost
    case Acquired | Inserted | EarlyCanceled | EarlyRemoved | Spawned => t.stream == [] && !t.lost
    case SendFailed => t.stream == [] && t.lost
    case WorkingSent | CancelSeen | Running | Ran(_) | Deciding(_) => t.stream == [StatusUpdate(Working)] && !t.lost
    case Reporting(state) => t.stream == [StatusUpdate(Working)] && !t.lost && state != Working
    case Reported => EndedStream(t)
    case Finished => EndedStream(t) || (t.stream == [StatusUpdate(Canceled)] && !t.lost)
  }

  /** Nothing or Working alone when the receiver went away, else Working and one final task. */
  predicate EndedStream(t: Task) {
    if t.lost then t.stream == [] || t.stream == [StatusUpdate(Working)]
    else
      && |t.stream| == 2 && t.stream[0] == StatusUpdate(Working)
      && t.stream[1].TaskResult? && t.stream[1].state != Working
  }

  /** Every registered token belongs to an entry of that id that has not removed it yet. */
  predicate RegistrySound(s: State) {
    forall id :: id in s.registry ==>
      var n := s.registry[id]; n < |s.tasks| && s.tasks[n].id == id && Registered(s.tasks[n].pc)
  }

  ghost predicate Inv(s: State) {
    && s.permits + Held(s.tasks) == MAX_IN_FLIGHT_TASKS
    && (forall n :: 0 <= n < |s.tasks| ==> StreamFits(s.tasks[n]))
    && RegistrySound(s)
  }

  lemma {:induction false} HeldUpdate(tasks: seq<Task>, n: nat, t: Task)
    requires n < |tasks|
    ensures Held(tasks[n := t]) + (if HoldsPermit(tasks[n].pc) then 1 else 0) ==
            Held(tasks) + (if HoldsPermit(t.pc) then 1 else 0)
  {
    var last := |tasks| - 1;
    if n == last {
      assert tasks[n := t][..last] == tasks[..last];
    } else {
      assert tasks[n := t][..last] == tasks[..last][n := t];
      HeldUpdate(tasks[..last], n, t);
    }
  }

  lemma HeldAppend(tasks: seq<Task>, t: Task)
    ensures Held(tasks + [t]) == Held(tasks) + (if HoldsPermit(t.pc) then 1 else 0)
  {
    assert (tasks + [t])[..|tasks|] == tasks;
  }

  /** Everything the proofs need to know about one step of one entry. */
  lemma TaskStepFacts(t: Task, env: Env)
    requires StreamFits(t)
    ensures var d := TaskStep(t, env);
            && StreamFits(d) && d.id == t.id && d.cancelled == t.cancelled
            && (HoldsPermit(t.pc) <==> HoldsPermit(d.pc) || Releases(t.pc))
            && (Releases(t.pc) ==> !HoldsPermit(d.pc))
            && (Registered(d.pc) <==> t.pc.Acquired? || (Registered(t.pc) && !Removes(t.pc)))
            && (Removes(t.pc) ==> Registered(t.pc))
  {
  }

  lemma StepKeepsInv(s: State, n: nat, env: Env)
    requires Inv(s) && n < |s.tasks|
    ensures Inv(StepOf(s, n, env))
  {
    hide TaskStep, StreamFits, Held, HoldsPermit, Registered, Removes, Releases;
    var t := s.tasks[n];
    TaskStepFacts(t, env);
    HeldUpdate(s.tasks, n, TaskStep(t, env));
  }

  lemma NextKeepsInv(s: State, a: Action)
    requires Inv(s)
    ensures Inv(Next(s, a))
  {
    hide Held, ExtractPrompt;
    match a {
      case Execute(id, message) =>
        var d := Next(s, a);
        HeldAppend(s.tasks, d.tasks[|s.tasks|]);
      case StepTask(n, env) =>
        if n < |s.tasks| {
          StepKeepsInv(s, n, env);
        }
      case Cancel(id) =>
        if id in s.registry {
          SetToken(s, s.registry[id]);
        }
      case Deadline(n) =>
        if n < |s.tasks| {
          SetToken(s, n);
        }
    }
  }

  lemma SetToken(s: State, n: nat)
    requires Inv(s) && n < |s.tasks|
    ensures Inv(WithTask(s, n, s.tasks[n].(cancelled := true)))
  {
    hide Held;
    HeldUpdate(s.tasks, n, s.tasks[n].(cancelled := true));
    assert StreamFits(s.tasks[n]);
  }

  /**
   * In every interleaving: permits are conserved, every stream is a prefix of a legal one,
   * and every registered token belongs to an unfinished entry.
   */
  lemma {:induction false} RunKeepsInv(s: State, actions: seq<Action>)
    requires Inv(s)
    ensures Inv(Run(s, actions))
    decreases |actions|
  {
    hide Inv, Next;
    if actions != [] {
      NextKeepsInv(s, actions[0]);
      RunKeepsInv(Next(s, actions[0]), actions[1..]);
    }
  }

  lemma ReachableInv(actions: seq<Action>)
    ensures Inv(Run(INIT, actions))
  {
    RunKeepsInv(INIT, actions);
  }

  lemma {:induction false} NothingHeld(tasks: seq<Task>)
    requires forall n :: 0 <= n < |tasks| ==> !HoldsPermit(tasks[n].pc)
    ensures Held(tasks) == 0
  {
    if tasks != [] {
      NothingHeld(tasks[..|tasks| - 1]);
    }
  }

  /** All permits are free and no token is registered. */
  predicate Clean(s: State) {
    s.permits == MAX_IN_FLIGHT_TASKS && s.registry == map[]
  }

  predicate AllDone(s: State) {
    forall n :: 0 <= n < |s.tasks| ==> !HoldsPermit(s.tasks[n].pc)
  }

  /** When every entry is done, all permits are back and no token is left behind. */
  lemma NothingLeaks(s: State)
    requires Inv(s) && AllDone(s)
    ensures Clean(s)
  {
    NothingHeld(s.tasks);
    if id :| id in s.registry {
      assert false;
    }
  }

  // ----- every entry comes to its end

  /** Steps an entry can still take. */
  function Rank(pc: Pc): nat {
    match pc
    case Refused => 0
    case Acquired => 9
    case Inserted => 8
    case EarlyCanceled => 2
    case EarlyRemoved => 1
    case Spawned => 7
    case SendFailed => 2
    case WorkingSent => 6
    case CancelSeen => 3
    case Running => 5
    case Ran(_) => 4
    case Deciding(_) => 3
    case Reporting(_) => 2
    case Reported => 1
    case Finished => 0
  }

  lemma RankDrops(t: Task, env: Env)
    ensures Rank(t.pc) == 0 <==> !HoldsPermit(t.pc)
    ensures HoldsPermit(t.pc) ==> Rank(TaskStep(t, env).pc) < Rank(t.pc)
  {
  }

  function TotalRank(tasks: seq<Task>): nat {
    if tasks == [] then 0 else Rank(tasks[0].pc) + TotalRank(tasks[1..])
  }

  lemma {:induction false} TotalRankDrops(tasks: seq<Task>, n: nat, t: Task)
    requires n < |tasks| && Rank(t.pc) < Rank(tasks[n].pc)
    ensures TotalRank(tasks[n := t]) < TotalRank(tasks)
  {
    hide Rank;
    var next := tasks[n := t];
    if n == 0 {
      assert next[1..] == tasks[1..];
    } else {
      assert next[1..] == tasks[1..][n - 1 := t];
      TotalRankDrops(tasks[1..], n - 1, t);
    }
  }

  /** What the outside answers to each entry at each of its points. */
  type Answers = (nat, Pc) -> Env

  /** Only entries that hold a permit step, each under the answer it is given. */
  predicate OnlyWork(s: State, actions: seq<Action>, answers: Answers)
    decreases |actions|
  {
    actions == [] ||
    (&& actions[0].StepTask? && actions[0].n < |s.tasks|
     && HoldsPermit(s.tasks[actions[0].n].pc)
     && actions[0].env == answers(actions[0].n, s.tasks[actions[0].n].pc)
     && OnlyWork(Next(s, actions[0]), actions[1..], answers))
  }

  /** Work ends by itself: it takes no more steps than the entries have left, in whatever order. */
  lemma {:induction false} WorkIsBounded(s: State, actions: seq<Action>, answers: Answers)
    requires OnlyWork(s, actions, answers)
    ensures |actions| + TotalRank(Run(s, actions).tasks) <= TotalRank(s.tasks)
    decreases |actions|
  {
    hide StepOf, Rank, HoldsPermit;
    if actions != [] {
      WorkStep(s, actions[0].n, actions[0].env);
      WorkIsBounded(Next(s, actions[0]), actions[1..], answers);
    }
  }

  lemma WorkStep(s: State, n: nat, env: Env)
    requires n < |s.tasks| && HoldsPermit(s.tasks[n].pc)
    ensures TotalRank(Next(s, StepTask(n, env)).tasks) < TotalRank(s.tasks)
  {
    hide TaskStep, Rank, HoldsPermit, TotalRank;
    RankDrops(s.tasks[n], env);
    TotalRankDrops(s.tasks, n, TaskStep(s.tasks[n], env));
  }

  /**
   * From any state that can occur, whatever the outside answers: as long as an entry holds a
   * permit it can step, and working on ends with all 256 permits free and no token registered.
   */
  lemma {:induction false} WorkEndsClean(s: State, answers: Answers) returns (actions: seq<Action>)
    requires Inv(s)
    ensures OnlyWork(s, actions, answers) && |actions| <= TotalRank(s.tasks)
    ensures Inv(Run(s, actions)) && AllDone(Run(s, actions)) && Clean(Run(s, actions))
    decreases TotalRank(s.tasks)
  {
    hide Inv, Next, HoldsPermit, TotalRank, AllDone;
    if AllDone(s) {
      actions := [];
      NothingLeaks(s);
    } else {
      var n := SomeHolder(s);
      var a := StepTask(n, answers(n, s.tasks[n].pc));
      WorkStep(s, n, a.env);
      NextKeepsInv(s, a);
      var later := WorkEndsClean(Next(s, a), answers);
      actions := [a] + later;
      assert actions[1..] == later;
    }
  }

  lemma SomeHolder(s: State) returns (n: nat)
    requires !AllDone(s)
    ensures n < |s.tasks| && HoldsPermit(s.tasks[n].pc)
  {
    n :| n < |s.tasks| && HoldsPermit(s.tasks[n].pc);
  }

  // ----- acknowledged cancels

  /** The token is set in time: this entry can only end in Canceled, or without a final state. */
  predicate Doomed(t: Task) {
    match t.pc
    case Refused => false
    case Reporting(state) => state == Canceled
    case Reported | Finished => forall i :: 0 <= i < |t.stream| && t.stream[i] != StatusUpdate(Working) ==>
                                  t.stream[i] == TaskResult(Canceled) || t.stream[i] == StatusUpdate(Canceled)
    case _ => t.cancelled
  }

  lemma TaskStepKeepsDoomed(t: Task, env: Env)
    requires StreamFits(t) && Doomed(t)
    ensures Doomed(TaskStep(t, env)) && Doomed(t.(cancelled := true))
  {
  }

  lemma NextKeepsDoomed(s: State, a: Action, n: nat)
    requires Inv(s) && n < |s.tasks| && Doomed(s.tasks[n])
    ensures n < |Next(s, a).tasks| && Doomed(Next(s, a).tasks[n])
  {
    hide Held, ExtractPrompt, RegistrySound, TaskStep, StreamFits, Doomed, Removes, Releases;
    TaskStepKeepsDoomed(s.tasks[n], if a.StepTask? then a.env else Env(false, RunFailed));
  }

  lemma {:induction false} RunKeepsDoomed(s: State, actions: seq<Action>, n: nat)
    requires Inv(s) && n < |s.tasks| && Doomed(s.tasks[n])
    ensures n < |Run(s, actions).tasks| && Doomed(Run(s, actions).tasks[n])
    decreases |actions|
  {
    hide Inv, Next, Doomed;
    if actions != [] {
      NextKeepsInv(s, actions[0]);
      NextKeepsDoomed(s, actions[0], n);
      RunKeepsDoomed(Next(s, actions[0]), actions[1..], n);
    }
  }

  /** The final state a stream reports, if it has reported one. */
  function Terminal(stream: seq<Item>): Option<TaskState> {
    if stream == [] then None
    else match stream[|stream| - 1]
      case TaskResult(state) => Some(state)
      case StatusUpdate(state) => if state == Working then None else Some(state)
      case Error(_) => None
  }

  /**
   * Whatever happened before and whatever happens after: once a cancel request is
   * acknowledged, the entry whose token it set never reports anything but Canceled.
   */
  lemma AcknowledgedCancelIsHonoured(before: seq<Action>, id: string, after: seq<Action>)
    requires Acknowledged(Run(INIT, before), id)
    ensures var s := Run(INIT, before);
            var n := s.registry[id];
            var end := Run(Next(s, Cancel(id)), after);
            && n < |s.tasks| && s.tasks[n].id == id && Terminal(s.tasks[n].stream).None?
            && n < |end.tasks|
            && (Terminal(end.tasks[n].stream).None? || Terminal(end.tasks[n].stream) == Some(Canceled))
            && (end.tasks[n].pc.Finished? && !end.tasks[n].lost ==> Terminal(end.tasks[n].stream) == Some(Canceled))
  {
    hide Run, Held, ExtractPrompt;
    ReachableInv(before);
    var s := Run(INIT, before);
    var n := s.registry[id];
    assert StreamFits(s.tasks[n]);
    var d := Next(s, Cancel(id));
    NextKeepsInv(s, Cancel(id));
    RunKeepsDoomed(d, after, n);
    RunKeepsInv(d, after);
    assert StreamFits(Run(d, after).tasks[n]);
  }

  // ----- when the registry is exact

  /** Accepted, and the token not removed yet. */
  predicate Unremoved(pc: Pc) {
    pc.Acquired? || Registered(pc)
  }

  /** No two entries that have not removed their token share an id. */
  predicate DistinctIds(s: State) {
    forall m, n :: 0 <= m < n < |s.tasks| && Unremoved(s.tasks[m].pc) && Unremoved(s.tasks[n].pc) ==>
      s.tasks[m].id != s.tasks[n].id
  }

  /** The registered ids are exactly those of the entries that have not removed their token. */
  predicate RegistryExact(s: State) {
    && RegistrySound(s)
    && forall n :: 0 <= n < |s.tasks| && Registered(s.tasks[n].pc) ==>
         s.tasks[n].id in s.registry && s.registry[s.tasks[n].id] == n
  }

  /** All states along a run, its start included, have distinct ids in that sense. */
  predicate DistinctThroughout(s: State, actions: seq<Action>)
    decreases |actions|
  {
    DistinctIds(s) && (actions != [] ==> DistinctThroughout(Next(s, actions[0]), actions[1..]))
  }

  lemma NextKeepsExact(s: State, a: Action)
    requires Inv(s) && RegistryExact(s) && DistinctIds(s)
    ensures RegistryExact(Next(s, a))
  {
    hide Held, StreamFits, StepOf, WithTask, ExtractPrompt, DistinctIds, RegistryExact, Inv;
    match a {
      case Execute(id, message) =>
        NewTaskKeepsExact(s, Task(id, false, Acquired, [], false), s.permits - 1);
        if ExtractPrompt(message).Err? {
          NewTaskKeepsExact(s, Task(id, false, Refused, [Error(ExtractPrompt(message).error)], false), s.permits);
        }
        NewTaskKeepsExact(s, Task(id, false, Refused, [Error(TooManyTasks)], false), s.permits);
      case StepTask(n, env) =>
        if n < |s.tasks| {
          StepKeepsExact(s, n, env);
        }
      case Cancel(id) =>
        if id in s.registry && s.registry[id] < |s.tasks| {
          TokenKeepsExact(s, s.registry[id]);
        }
      case Deadline(n) =>
        if n < |s.tasks| {
          TokenKeepsExact(s, n);
        }
    }
  }

  lemma NewTaskKeepsExact(s: State, t: Task, permits: int)
    requires RegistryExact(s) && !Registered(t.pc)
    ensures permits >= 0 ==> RegistryExact(s.(permits := permits, tasks := s.tasks + [t]))
  {
  }

  lemma TokenKeepsExact(s: State, n: nat)
    requires RegistryExact(s) && n < |s.tasks|
    ensures RegistryExact(WithTask(s, n, s.tasks[n].(cancelled := true)))
  {
  }

  lemma StepKeepsExact(s: State, n: nat, env: Env)
    requires Inv(s) && RegistryExact(s) && DistinctIds(s) && n < |s.tasks|
    ensures RegistryExact(StepOf(s, n, env))
  {
    StepKeepsInv(s, n, env);
    hide TaskStep, StreamFits, Held, Removes, Releases;
    var t, d := s.tasks[n], StepOf(s, n, env);
    TaskStepFacts(t, env);
    forall m | 0 <= m < |d.tasks| && Registered(d.tasks[m].pc)
      ensures d.tasks[m].id in d.registry && d.registry[d.tasks[m].id] == m
    {
      if m != n && (t.pc.Acquired? || Removes(t.pc)) {
        assert s.tasks[m].id != t.id;
      }
    }
  }

  /** While those ids are distinct, a cancel request finds exactly the entries it could still stop. */
  lemma {:induction false} DistinctIdsKeepRegistryExact(s: State, actions: seq<Action>)
    requires Inv(s) && RegistryExact(s) && DistinctThroughout(s, actions)
    ensures RegistryExact(Run(s, actions))
    decreases |actions|
  {
    hide Inv, Next, RegistryExact, DistinctIds;
    if actions != [] {
      NextKeepsInv(s, actions[0]);
      NextKeepsExact(s, actions[0]);
      DistinctIdsKeepRegistryExact(Next(s, actions[0]), actions[1..]);
    }
  }

  lemma ReachableExact(actions: seq<Action>)
    requires DistinctThroughout(INIT, actions)
    ensures var s := Run(INIT, actions);
            forall id :: Acknowledged(s, id) <==>
                         exists n :: 0 <= n < |s.tasks| && s.tasks[n].id == id && Registered(s.tasks[n].pc)
  {
    hide Run, DistinctThroughout;
    assert Inv(INIT) && RegistryExact(INIT);
    DistinctIdsKeepRegistryExact(INIT, actions);
    var s := Run(INIT, actions);
    forall id | Acknowledged(s, id)
      ensures exists n :: 0 <= n < |s.tasks| && s.tasks[n].id == id && Registered(s.tasks[n].pc)
    {
      var n := s.registry[id];
      assert s.tasks[n].id == id && Registered(s.tasks[n].pc);
    }
  }

  // ----- exactly when no live entry can be hidden

  predicate NoneExecutes(actions: seq<Action>) {
    forall i :: 0 <= i < |actions| ==> !actions[i].Execute?
  }

  /** A cancel request for the id of any entry that still has its token is acknowledged. */
  predicate AllAcknowledged(s: State) {
    forall n :: 0 <= n < |s.tasks| && Registered(s.tasks[n].pc) ==> Acknowledged(s, s.tasks[n].id)
  }

  lemma NextKeepsDistinct(s: State, a: Action)
    requires DistinctIds(s) && !a.Execute?
    requires forall n :: 0 <= n < |s.tasks| ==> StreamFits(s.tasks[n])
    ensures DistinctIds(Next(s, a))
  {
    hide TaskStep, StreamFits, Registered, Removes, Releases, HoldsPermit;
    if a.StepTask? && a.n < |s.tasks| {
      TaskStepFacts(s.tasks[a.n], a.env);
      UnremovedOnlyEnds(s.tasks[a.n], a.env);
    }
  }

  lemma UnremovedOnlyEnds(t: Task, env: Env)
    ensures Unremoved(TaskStep(t, env).pc) ==> Unremoved(t.pc)
  {
  }

  lemma {:induction false} DistinctStaysExact(s: State, actions: seq<Action>)
    requires Inv(s) && RegistryExact(s) && DistinctIds(s) && NoneExecutes(actions)
    ensures RegistryExact(Run(s, actions)) && AllAcknowledged(Run(s, actions))
    decreases |actions|
  {
    hide Held, StreamFits, Next, DistinctIds, Unremoved, Registered;
    if actions != [] {
      NextKeepsInv(s, actions[0]);
      NextKeepsExact(s, actions[0]);
      NextKeepsDistinct(s, actions[0]);
      DistinctStaysExact(Next(s, actions[0]), actions[1..]);
    }
  }

  /** Two entries of one id, of which `n` will be hidden. */
  predicate Twins(s: State, m: nat, n: nat) {
    && m < |s.tasks| && n < |s.tasks| && m != n && s.tasks[m].id == s.tasks[n].id
    && Unremoved(s.tasks[m].pc) && Unremoved(s.tasks[n].pc)
  }

  predicate Hidden(s: State, n: nat) {
    n < |s.tasks| && Registered(s.tasks[n].pc) && !Acknowledged(s, s.tasks[n].id)
  }

  /** Step `n` until it is registered and then `m` until it has removed the token of their id. */
  lemma {:induction false} TwinIsHidden(s: State, m: nat, n: nat) returns (actions: seq<Action>)
    requires Inv(s) && Twins(s, m, n)
    ensures NoneExecutes(actions) && Hidden(Run(s, actions), n)
    decreases Rank(s.tasks[n].pc) + Rank(s.tasks[m].pc)
  {
    hide TaskStep, StreamFits, Held, Removes, Releases, Registered, HoldsPermit, Run, Rank;
    var i := if s.tasks[n].pc.Acquired? then n else m;
    var a := StepTask(i, QUIET);
    var t, d := s.tasks[i], Next(s, a);
    assert StreamFits(t);
    TaskStepFacts(t, QUIET);
    UnremovedRanks(t);
    RankDrops(t, QUIET);
    NextKeepsInv(s, a);
    if Removes(t.pc) && i == m {
      actions := [a];
      RunOne(s, a);
    } else {
      var later := TwinIsHidden(d, m, n);
      actions := [a] + later;
      RunCons(s, a, later);
    }
  }

  lemma UnremovedRanks(t: Task)
    requires Unremoved(t.pc)
    ensures HoldsPermit(t.pc) && (t.pc.Acquired? ==> !Removes(t.pc))
    ensures !Removes(t.pc) ==> Unremoved(TaskStep(t, QUIET).pc)
  {
  }

  lemma RunOne(s: State, a: Action)
    ensures Run(s, [a]) == Next(s, a)
  {
    RunCons(s, a, []);
  }

  lemma RunCons(s: State, a: Action, later: seq<Action>)
    ensures Run(s, [a] + later) == Run(Next(s, a), later)
  {
    hide Next;
    assert ([a] + later)[1..] == later;
  }

  /**
   * From any state that can occur: however the accepted entries go on, a cancel request finds
   * every one that could still stop, if and only if the registry is exact now and no two
   * entries that have not removed their token share an id.
   */
  lemma NoneHiddenIff(s: State)
    requires Inv(s)
    ensures RegistryExact(s) && DistinctIds(s) <==>
            forall actions :: NoneExecutes(actions) ==> AllAcknowledged(Run(s, actions))
    ensures RegistryExact(s) && DistinctIds(s) <==>
            forall actions :: NoneExecutes(actions) ==> RegistryExact(Run(s, actions))
  {
    hide Inv, Run, Registered, Unremoved, RegistryExact, Acknowledged;
    if RegistryExact(s) && DistinctIds(s) {
      forall actions | NoneExecutes(actions)
        ensures AllAcknowledged(Run(s, actions)) && RegistryExact(Run(s, actions))
      {
        DistinctStaysExact(s, actions);
      }
    } else if !DistinctIds(s) {
      var m, n := SomeTwins(s);
      var actions := TwinIsHidden(s, m, n);
      HiddenIsNotAcknowledged(Run(s, actions), n);
    } else {
      assert NoneExecutes([]) && Run(s, []) == s by {
        RunNothing(s);
      }
      if AllAcknowledged(s) {
        AcknowledgedIsExact(s);
      }
    }
  }

  /** No continuation of a state hides an entry. */
  ghost predicate NeverHides(s: State) {
    forall actions :: NoneExecutes(actions) ==> AllAcknowledged(Run(s, actions))
  }

  lemma {:induction false} DistinctAlong(s: State, actions: seq<Action>)
    ensures DistinctThroughout(s, actions) <==>
            forall i :: 0 <= i <= |actions| ==> DistinctIds(Run(s, actions[..i]))
    decreases |actions|
  {
    hide DistinctIds, Next;
    assert actions[..0] == [];
    if actions != [] {
      var d, rest := Next(s, actions[0]), actions[1..];
      DistinctAlong(d, rest);
      forall i | 0 <= i < |actions|
        ensures Run(s, actions[..i + 1]) == Run(d, rest[..i])
      {
        assert actions[..i + 1] == [actions[0]] + rest[..i];
        RunCons(s, actions[0], rest[..i]);
      }
      assert forall i :: 0 < i <= |actions| ==> Run(s, actions[..i]) == Run(d, rest[..i - 1]);
    }
  }

  lemma {:induction false} ExactAlong(s: State, actions: seq<Action>, i: nat)
    requires Inv(s) && RegistryExact(s) && DistinctThroughout(s, actions) && i <= |actions|
    ensures RegistryExact(Run(s, actions[..i])) && DistinctIds(Run(s, actions[..i]))
  {
    hide Inv, RegistryExact, DistinctIds, Run, DistinctThroughout;
    DistinctAlong(s, actions);
    forall k | 0 <= k <= i
      ensures DistinctIds(Run(s, actions[..i][..k]))
    {
      assert actions[..i][..k] == actions[..k];
    }
    DistinctAlong(s, actions[..i]);
    DistinctIdsKeepRegistryExact(s, actions[..i]);
  }

  /**
   * In terms of the peers' ids alone: at no point of a run can the accepted entries go on so
   * that one of them is hidden from a cancel request, if and only if at no point of the run two
   * entries that had not removed their token shared an id.
   */
  lemma NoneHiddenAlongIff(actions: seq<Action>)
    ensures DistinctThroughout(INIT, actions) <==>
            forall i :: 0 <= i <= |actions| ==> NeverHides(Run(INIT, actions[..i]))
  {
    assert Inv(INIT) && RegistryExact(INIT);
    hide Inv, RegistryExact, DistinctIds, Run, DistinctThroughout;
    DistinctAlong(INIT, actions);
    forall i | 0 <= i <= |actions|
      ensures NeverHides(Run(INIT, actions[..i])) ==> DistinctIds(Run(INIT, actions[..i]))
      ensures DistinctThroughout(INIT, actions) ==> NeverHides(Run(INIT, actions[..i]))
    {
      ReachableInv(actions[..i]);
      NoneHiddenIff(Run(INIT, actions[..i]));
      if DistinctThroughout(INIT, actions) {
        ExactAlong(INIT, actions, i);
      }
    }
  }

  lemma SomeTwins(s: State) returns (m: nat, n: nat)
    requires !DistinctIds(s)
    ensures Twins(s, m, n)
  {
    hide Unremoved;
    m, n :| m < n < |s.tasks| && Unremoved(s.tasks[m].pc) && Unremoved(s.tasks[n].pc)
            && s.tasks[m].id == s.tasks[n].id;
  }

  lemma HiddenIsNotAcknowledged(s: State, n: nat)
    requires Hidden(s, n)
    ensures !AllAcknowledged(s) && !RegistryExact(s)
  {
  }

  lemma RunNothing(s: State)
    ensures Run(s, []) == s
  {
  }

  /** With distinct ids, an acknowledged id leads to the entry it is asked for. */
  lemma AcknowledgedIsExact(s: State)
    requires Inv(s) && DistinctIds(s) && AllAcknowledged(s)
    ensures RegistryExact(s)
  {
    hide Held, StreamFits;
    forall n | 0 <= n < |s.tasks| && Registered(s.tasks[n].pc)
      ensures s.tasks[n].id in s.registry && s.registry[s.tasks[n].id] == n
    {
      assert Acknowledged(s, s.tasks[n].id);
      var m := s.registry[s.tasks[n].id];
      assert s.tasks[m].id == s.tasks[n].id && Unremoved(s.tasks[m].pc) && Unremoved(s.tasks[n].pc);
    }
  }

  // ----- what a repeated id does

  const QUIET: Env := Env(false, RunFailed)
  const GO: Action := Execute("t", Some([TextPart("go")]))

  /** Two calls with one id, both registered; then the first one runs and is removed. */
  const BOTH_REGISTERED: seq<Action> := [GO, StepTask(0, QUIET), GO, StepTask(1, QUIET)]

  function FirstSteps(n: nat): seq<Action> {
    if n == 0 then [] else [StepTask(0, QUIET)] + FirstSteps(n - 1)
  }

  lemma {:induction false} RunConcat(s: State, a: seq<Action>, b: seq<Action>)
    ensures Run(s, a + b) == Run(Run(s, a), b)
    decreases |a|
  {
    hide Next;
    if a == [] {
      assert a + b == b;
    } else {
      assert (a + b)[1..] == a[1..] + b;
      RunConcat(Next(s, a[0]), a[1..], b);
    }
  }

  /**
   * With an id in flight twice, the end of the first entry removes the token of the second:
   * that entry has yet to run, and a cancel request for it is refused.
   */
  lemma RepeatedIdHidesEntry()
    ensures var s := Run(INIT, BOTH_REGISTERED + FirstSteps(5));
            |s.tasks| == 2 && Registered(s.tasks[1].pc) && s.tasks[1].id == "t" && !Acknowledged(s, "t")
  {
    hide Run, Next;
    RunConcat(INIT, BOTH_REGISTERED, FirstSteps(5));
    ReachBothRegistered();
    ReachFirstRemoved();
  }

  lemma ReachBothRegistered()
    ensures Run(INIT, BOTH_REGISTERED) == State(254, map["t" := 1], [Entry(Inserted), Entry(Inserted)])
  {
    GoIsAPrompt();
    hide ExtractPrompt;
    var (none, one, two) := (map[], map["t" := 0], map["t" := 1]);
    var (x, y) := (Entry(Acquired), Entry(Inserted));
    assert [] + [x] == [x] && [y] + [x] == [y, x] && Next(INIT, GO) == State(255, none, [x]);
    StepFirst(255, none, [x], QUIET);
    assert TaskStep(x, QUIET) == y && [x][1..] == [] && [y] + [] == [y];
    assert Next(State(255, one, [y]), GO) == State(254, one, [y, x]);
    assert Next(State(254, one, [y, x]), StepTask(1, QUIET)) == State(254, two, [y, y]);
    hide Next;
    var all := BOTH_REGISTERED;
    var end := State(254, two, [y, y]);
    assert all[4..] == [] && Run(end, []) == end;
    RunStep(State(254, one, [y, x]), all, 3);
    RunStep(State(255, one, [y]), all, 2);
    RunStep(State(255, none, [x]), all, 1);
    RunStep(INIT, all, 0);
    assert all[0..] == all;
  }

  lemma RunFirst(permits: nat, registry: map<string, nat>, t: Task, other: Task, n: nat)
    requires n > 0 && !t.pc.Acquired? && !Releases(t.pc)
    ensures Run(State(permits, registry, [t, other]), FirstSteps(n)) ==
            Run(State(permits, if Removes(t.pc) then registry - {t.id} else registry, [TaskStep(t, QUIET), other]),
                FirstSteps(n - 1))
  {
    hide TaskStep, Removes, Releases;
    StepFirst(permits, registry, [t, other], QUIET);
    assert [t, other][1..] == [other] && [TaskStep(t, QUIET)] + [other] == [TaskStep(t, QUIET), other];
    hide Next;
    var actions := FirstSteps(n);
    assert actions[0] == StepTask(0, QUIET) && actions[1..] == FirstSteps(n - 1);
  }

  lemma ReachFirstRemoved()
    ensures var s := Run(State(254, map["t" := 1], [Entry(Inserted), Entry(Inserted)]), FirstSteps(5));
            |s.tasks| == 2 && s.tasks[1] == Entry(Inserted) && "t" !in s.registry
  {
    hide TaskStep, Run, FirstSteps;
    var (r, y) := (map["t" := 1], Entry(Inserted));
    var spawned, working, running, ran := FirstTaskRuns();
    RunFirst(254, r, y, y, 5);
    RunFirst(254, r, spawned, y, 4);
    RunFirst(254, r, working, y, 3);
    RunFirst(254, r, running, y, 2);
    RunFirst(254, r, ran, y, 1);
    NoSteps(State(254, r - {"t"}, [TaskStep(ran, QUIET), y]));
  }

  lemma FirstTaskRuns() returns (spawned: Task, working: Task, running: Task, ran: Task)
    ensures spawned == TaskStep(Entry(Inserted), QUIET) && spawned.pc == Spawned
    ensures working == TaskStep(spawned, QUIET) && working.pc == WorkingSent
    ensures running == TaskStep(working, QUIET) && running.pc == Running
    ensures ran == TaskStep(running, QUIET) && ran.pc == Ran(RunFailed) && ran.id == "t"
  {
    spawned := TaskStep(Entry(Inserted), QUIET);
    working := TaskStep(spawned, QUIET);
    running := TaskStep(working, QUIET);
    ran := TaskStep(running, QUIET);
  }

  lemma NoSteps(s: State)
    ensures Run(s, FirstSteps(0)) == s
  {
  }

  lemma RunStep(s: State, actions: seq<Action>, i: nat)
    requires i < |actions|
    ensures Run(s, actions[i..]) == Run(Next(s, actions[i]), actions[i + 1..])
  {
    hide Next;
    assert actions[i..][1..] == actions[i + 1..];
  }

  function Entry(pc: Pc): Task {
    Task("t", false, pc, [], false)
  }

  lemma StepFirst(permits: nat, registry: map<string, nat>, tasks: seq<Task>, e: Env)
    requires tasks != []
    ensures var t := tasks[0];
            Next(State(permits, registry, tasks), StepTask(0, e)) ==
            State(if Releases(t.pc) then permits + 1 else permits,
                  if t.pc.Acquired? then registry[t.id := 0]
                  else if Removes(t.pc) then registry - {t.id} else registry,
                  [TaskStep(t, e)] + tasks[1..])
  {
    hide TaskStep, Removes, Releases;
    assert tasks[0 := TaskStep(tasks[0], e)] == [TaskStep(tasks[0], e)] + tasks[1..];
  }

  lemma GoIsAPrompt()
    ensures ExtractPrompt(Some([TextPart("go")])).Ok?
  {
    var parts := [TextPart("go")];
    assert parts[1..] == [];
    assert JoinTexts(parts) == Ok(["go"] + []);
    assert Join(["go"], "\n") == "go";
    TrimIsTrimmed("go");
  }
}
