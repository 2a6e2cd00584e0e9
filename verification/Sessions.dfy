/**
 * The session table of the ACP server: a hash map whose entries carry touch numbers, which
 * must behave as a list ordered by last use. Each method is one critical section.
 */
module Sessions {
  import opened Common
  import opened Text

  const MAX_ACTIVE_SESSIONS: nat := 256

  /** `token` names a cancellation flag in the table's `cancelled`. */
  datatype SessionSlot = SessionSlot(token: nat, cwd: string, touchedSeq: nat)

  type Table = map<string, SessionSlot>

  function SessionId(n: nat): string {
    "kuib-" + PrintNat(n)
  }

  predicate HandedOut(id: string, sessionSeq: nat) {
    exists n :: 0 <= n < sessionSeq && id == SessionId(n)
  }

  lemma SessionIdsDiffer(m: nat, n: nat)
    requires SessionId(m) == SessionId(n)
    ensures m == n
  {
    PrintedDigits(m);
    PrintedDigits(n);
    assert SessionId(m)[5..] == PrintNat(m) && SessionId(n)[5..] == PrintNat(n);
  }

  // ----- the list the table stands for, least recently used first

  predicate NoDuplicates(order: seq<string>) {
    order == [] || (order[0] !in order[1..] && NoDuplicates(order[1..]))
  }

  function Without(order: seq<string>, id: string): seq<string> {
    if order == [] then []
    else if order[0] == id then order[1..]
    else [order[0]] + Without(order[1..], id)
  }

  /** A full list drops its head for a new session. */
  function Created(order: seq<string>, id: string): seq<string> {
    (if |order| >= MAX_ACTIVE_SESSIONS then order[1..] else order) + [id]
  }

  function Touched(order: seq<string>, id: string): seq<string> {
    if id in order then Without(order, id) + [id] else order
  }

  lemma {:induction false} AppendNew(order: seq<string>, id: string)
    requires NoDuplicates(order) && id !in order
    ensures NoDuplicates(order + [id])
  {
    if order != [] {
      AppendNew(order[1..], id);
      assert (order + [id])[1..] == order[1..] + [id];
    }
  }

  /** What taking one entry out of a list without duplicates leaves. */
  lemma {:induction false} WithoutEffect(order: seq<string>, id: string)
    requires NoDuplicates(order) && id in order
    ensures var rest := Without(order, id);
            && NoDuplicates(rest) && |rest| == |order| - 1
            && (forall k :: k in rest <==> k in order && k != id)
  {
    if order[0] != id {
      WithoutEffect(order[1..], id);
      var rest := Without(order, id);
      assert rest[1..] == Without(order[1..], id) && rest[0] == order[0];
      assert forall k :: k in order <==> k == order[0] || k in order[1..];
      assert forall k :: k in rest <==> k == rest[0] || k in rest[1..];
    } else {
      assert forall k :: k in order <==> k == order[0] || k in order[1..];
    }
  }

  lemma {:induction false} SetOfDistinct(order: seq<string>)
    requires NoDuplicates(order)
    ensures |set x | x in order| == |order|
  {
    if order != [] {
      SetOfDistinct(order[1..]);
      assert (set x | x in order) == {order[0]} + (set x | x in order[1..]);
    }
  }

  // ----- touch numbers along the list

  /** The keys of the table are the entries of the list. */
  ghost predicate SameKeys(order: seq<string>, table: Table) {
    forall id :: id in table <==> id in order
  }

  /** Touch numbers increase from the head of the list to its end. */
  ghost predicate Ascending(order: seq<string>, table: Table) {
    order == [] ||
    (&& order[0] in table
     && (forall k :: k in order[1..] ==> k in table && table[order[0]].touchedSeq < table[k].touchedSeq)
     && Ascending(order[1..], table))
  }

  lemma {:induction false} AscendingAppend(order: seq<string>, table: Table, id: string)
    requires Ascending(order, table) && id in table
    requires forall k :: k in order ==> k in table && table[k].touchedSeq < table[id].touchedSeq
    ensures Ascending(order + [id], table)
  {
    var more := order + [id];
    if order != [] {
      AscendingAppend(order[1..], table, id);
      assert more[1..] == order[1..] + [id];
    }
  }

  lemma {:induction false} AscendingElsewhere(order: seq<string>, table: Table, other: Table)
    requires Ascending(order, table)
    requires forall k :: k in order && k in table ==> k in other && other[k] == table[k]
    ensures Ascending(order, other)
  {
    if order != [] {
      AscendingElsewhere(order[1..], table, other);
    }
  }

  lemma {:induction false} AscendingWithout(order: seq<string>, table: Table, id: string)
    requires Ascending(order, table) && NoDuplicates(order)
    ensures Ascending(Without(order, id), table)
  {
    if order != [] && order[0] != id {
      AscendingWithout(order[1..], table, id);
      if id in order[1..] {
        WithoutEffect(order[1..], id);
      } else {
        WithoutNothing(order[1..], id);
      }
      var rest := Without(order, id);
      assert rest[1..] == Without(order[1..], id);
    }
  }

  lemma {:induction false} WithoutNothing(order: seq<string>, id: string)
    requires id !in order
    ensures Without(order, id) == order
  {
    if order != [] {
      WithoutNothing(order[1..], id);
      HeadTail(order);
    }
  }

  // ----- numbers handed out

  ghost predicate NumbersBelow(table: Table, sessionSeq: nat, touchSeq: nat, tokens: nat) {
    && TouchesBelow(table, touchSeq)
    && (forall id :: id in table ==> table[id].token < tokens)
    && (forall id :: id in table ==> HandedOut(id, sessionSeq))
  }

  ghost predicate TouchesBelow(table: Table, touchSeq: nat) {
    forall id :: id in table ==> table[id].touchedSeq < touchSeq
  }

  lemma NumbersAfterSet(table: Table, id: string, slot: SessionSlot, sessionSeq: nat, later: nat, touchSeq: nat,
                        tokens: nat)
    requires NumbersBelow(table, sessionSeq, touchSeq, tokens) && sessionSeq <= later && HandedOut(id, later)
    requires slot.touchedSeq == touchSeq && slot.token == tokens
    ensures NumbersBelow(table[id := slot], later, touchSeq + 1, tokens + 1)
  {
    hide HandedOut;
    forall k | k in table
      ensures HandedOut(k, later)
    {
      HandedOutLater(k, sessionSeq, later);
    }
  }

  lemma NumbersAfterRemove(table: Table, id: string, sessionSeq: nat, touchSeq: nat, tokens: nat)
    requires NumbersBelow(table, sessionSeq, touchSeq, tokens)
    ensures NumbersBelow(table - {id}, sessionSeq, touchSeq, tokens)
  {
    hide HandedOut;
  }

  lemma HandedOutLater(id: string, sessionSeq: nat, later: nat)
    requires HandedOut(id, sessionSeq) && sessionSeq <= later
    ensures HandedOut(id, later)
  {
  }

  // ----- the table

  class SessionTable {
    var sessions: Table
    var sessionSeq: nat
    var touchSeq: nat
    var cancelled: seq<bool>
    /** The keys of the table, least recently used first. */
    ghost var order: seq<string>

    ghost predicate Ordered()
      reads this
    {
      && NoDuplicates(order) && SameKeys(order, sessions) && Ascending(order, sessions)
    }

    /** Every number in the table has been handed out already. */
    ghost predicate Numbered()
      reads this
    {
      NumbersBelow(sessions, sessionSeq, touchSeq, |cancelled|)
    }

    ghost predicate Valid()
      reads this
    {
      Ordered() && Numbered() && |order| <= MAX_ACTIVE_SESSIONS
    }

    constructor ()
      ensures Valid() && order == [] && sessions == map[]
    {
      sessions, sessionSeq, touchSeq, cancelled, order := map[], 1, 1, [], [];
    }

    lemma TableSize()
      requires Ordered()
      ensures |sessions| == |order|
    {
      assert sessions.Keys == set id | id in order;
      SetOfDistinct(order);
    }

    lemma NextIdIsNew()
      requires Numbered()
      ensures SessionId(sessionSeq) !in sessions
    {
      if SessionId(sessionSeq) in sessions {
        var n :| 0 <= n < sessionSeq && SessionId(sessionSeq) == SessionId(n);
        SessionIdsDiffer(sessionSeq, n);
      }
    }

    /** Creates a session; a full table gives up its least recently used one for it. */
    method NewSession(cwd: string) returns (id: string, evicted: Option<string>)
      requires Valid()
      modifies this
      ensures Valid()
      ensures id !in old(sessions) && id == SessionId(old(sessionSeq)) && sessionSeq == old(sessionSeq) + 1
      ensures order == Created(old(order), id)
      ensures evicted == if |old(order)| == MAX_ACTIVE_SESSIONS then Some(old(order)[0]) else None
      ensures cancelled == old(cancelled) + [false]
      ensures id in sessions
      ensures var added := old(sessions)[id := SessionSlot(|old(cancelled)|, cwd, old(touchSeq))];
              sessions == if evicted.Some? then added - {evicted.value} else added
    {
      hide NoDuplicates, Ascending, SessionId, SameKeys, HandedOut, NumbersBelow;
      NextIdIsNew();
      id := SessionId(sessionSeq);
      var slot := SessionSlot(|cancelled|, cwd, touchSeq);
      TouchesAreBelow();
      assert HandedOut(id, sessionSeq + 1) by {
        IdHandedOut();
      }
      NumbersAfterSet(sessions, id, slot, sessionSeq, sessionSeq + 1, touchSeq, |cancelled|);
      cancelled := cancelled + [false];
      sessionSeq := sessionSeq + 1;
      Insert(id, slot);
      evicted := None;
      TableSize();
      if |sessions| > MAX_ACTIVE_SESSIONS {
        NumbersAfterRemove(sessions, order[0], sessionSeq, touchSeq, |cancelled|);
        evicted := EvictLruSessionIfNeeded(id, MAX_ACTIVE_SESSIONS);
        assert (old(order) + [id])[1..] == old(order)[1..] + [id];
      }
    }

    lemma IdHandedOut()
      ensures HandedOut(SessionId(sessionSeq), sessionSeq + 1)
    {
    }

    lemma TouchesAreBelow()
      requires Numbered()
      ensures TouchesBelow(sessions, touchSeq)
    {
    }

    /** `HashMap::insert` of a new key with the next touch number. */
    method Insert(id: string, slot: SessionSlot)
      requires Ordered() && id !in sessions && slot.touchedSeq == touchSeq
      requires TouchesBelow(sessions, touchSeq)
      modifies this`sessions, this`touchSeq, this`order
      ensures Ordered() && order == old(order) + [id]
      ensures sessions == old(sessions)[id := slot] && touchSeq == old(touchSeq) + 1
    {
      AppendNew(order, id);
      AscendingElsewhere(order, sessions, sessions[id := slot]);
      AscendingAppend(order, sessions[id := slot], id);
      sessions := sessions[id := slot];
      touchSeq := touchSeq + 1;
      order := order + [id];
    }

    /** Removes the entry with the least touch number, other than `keepId`, from a table over `maxSessions`. */
    method EvictLruSessionIfNeeded(keepId: string, maxSessions: nat) returns (evicted: Option<string>)
      requires Ordered() && |order| >= 2 && order[|order| - 1] == keepId
      modifies this`sessions, this`order
      ensures Ordered()
      ensures |old(order)| <= maxSessions ==>
                evicted == None && order == old(order) && sessions == old(sessions)
      ensures |old(order)| > maxSessions ==>
                && evicted == Some(old(order)[0]) && old(order)[0] != keepId && order == old(order)[1..]
                && sessions == old(sessions) - {old(order)[0]}
    {
      TableSize();
      if |sessions| <= maxSessions {
        return None;
      }
      var oldest := OldestOtherThan(keepId);
      AscendingElsewhere(order[1..], sessions, sessions - {oldest});
      assert forall k :: k in order <==> k == order[0] || k in order[1..];
      sessions := sessions - {oldest};
      order := order[1..];
      return Some(oldest);
    }

    /** `min_by_key` over the entries in whatever order the map yields them. */
    method OldestOtherThan(keepId: string) returns (oldest: string)
      requires Ordered() && |order| >= 2 && order[|order| - 1] == keepId
      ensures oldest == order[0]
    {
      hide Ascending, NoDuplicates;
      HeadIsOldest();
      var keys := sessions.Keys - {keepId};
      assert order[0] in keys;
      oldest :| oldest in keys;
      keys := keys - {oldest};
      while keys != {}
        invariant keys <= sessions.Keys - {keepId} && oldest in sessions && oldest != keepId
        invariant forall k :: k in sessions && k != keepId && k !in keys ==>
                    sessions[oldest].touchedSeq <= sessions[k].touchedSeq
        decreases keys
      {
        var k :| k in keys;
        if sessions[k].touchedSeq < sessions[oldest].touchedSeq {
          oldest := k;
        }
        keys := keys - {k};
      }
    }

    lemma HeadIsOldest()
      requires Ordered() && |order| >= 2
      ensures order[0] in sessions && order[0] != order[|order| - 1]
      ensures forall k :: k in sessions && k != order[0] ==>
                sessions[order[0]].touchedSeq < sessions[k].touchedSeq
    {
      assert order[|order| - 1] in order[1..];
      assert forall k :: k in order <==> k == order[0] || k in order[1..];
    }

    /** Starts a prompt: a fresh cancellation flag, and the session becomes the most recent. */
    method Prompt(id: string) returns (prompt: Option<(nat, string)>)
      requires Valid()
      modifies this
      ensures Valid()
      ensures order == Touched(old(order), id) && sessionSeq == old(sessionSeq)
      ensures id !in old(sessions) ==> prompt == None && sessions == old(sessions) && cancelled == old(cancelled)
      ensures id in old(sessions) ==>
                var cwd := old(sessions)[id].cwd;
                && prompt == Some((|old(cancelled)|, cwd)) && cancelled == old(cancelled) + [false]
                && sessions == old(sessions)[id := SessionSlot(|old(cancelled)|, cwd, old(touchSeq))]
    {
      hide NoDuplicates, Ascending, SessionId, HandedOut, NumbersBelow;
      if id !in sessions {
        return None;
      }
      var slot := SessionSlot(|cancelled|, sessions[id].cwd, touchSeq);
      TouchesAreBelow();
      assert HandedOut(id, sessionSeq) by {
        KeyHandedOut(id);
      }
      NumbersAfterSet(sessions, id, slot, sessionSeq, sessionSeq, touchSeq, |cancelled|);
      cancelled := cancelled + [false];
      MoveToEnd(id, slot);
      return Some((slot.token, slot.cwd));
    }

    lemma KeyHandedOut(id: string)
      requires Numbered() && id in sessions
      ensures HandedOut(id, sessionSeq)
    {
    }

    /** Replacing an entry by one with the next touch number moves it to the end. */
    method MoveToEnd(id: string, slot: SessionSlot)
      requires Ordered() && id in sessions && slot.touchedSeq == touchSeq
      requires TouchesBelow(sessions, touchSeq)
      modifies this`sessions, this`touchSeq, this`order
      ensures Ordered() && order == Touched(old(order), id) && |order| == |old(order)|
      ensures sessions == old(sessions)[id := slot] && touchSeq == old(touchSeq) + 1
    {
      ghost var rest := Without(order, id);
      WithoutEffect(order, id);
      AscendingWithout(order, sessions, id);
      AppendNew(rest, id);
      AscendingElsewhere(rest, sessions, sessions[id := slot]);
      AscendingAppend(rest, sessions[id := slot], id);
      sessions := sessions[id := slot];
      touchSeq := touchSeq + 1;
      order := rest + [id];
    }

    /** Cancels the session's current prompt and nothing else; recency does not change. */
    method Cancel(id: string) returns (found: bool)
      requires Valid()
      modifies this`cancelled
      ensures Valid()
      ensures found <==> id in sessions
      ensures cancelled == if id in sessions then old(cancelled)[sessions[id].token := true] else old(cancelled)
    {
      if id !in sessions {
        return false;
      }
      cancelled := cancelled[sessions[id].token := true];
      return true;
    }
  }

  // ----- which sessions survive a run

  datatype Op = Create(id: string) | Touch(id: string) | CancelOp(id: string)

  function Apply(order: seq<string>, op: Op): seq<string> {
    match op
    case Create(id) => Created(order, id)
    case Touch(id) => Touched(order, id)
    case CancelOp(_) => order
  }

  function RunOps(order: seq<string>, ops: seq<Op>): seq<string>
    decreases |ops|
  {
    if ops == [] then order else RunOps(Apply(order, ops[0]), ops[1..])
  }

  /** The session an operation creates, or prompts while it is in the table. */
  function Used(order: seq<string>, op: Op): set<string> {
    match op
    case Create(id) => {id}
    case Touch(id) => if id in order then {id} else {}
    case CancelOp(_) => {}
  }

  function UsedDuring(order: seq<string>, ops: seq<Op>): set<string>
    decreases |ops|
  {
    if ops == [] then {} else Used(order, ops[0]) + UsedDuring(Apply(order, ops[0]), ops[1..])
  }

  /** Operations that create only new sessions and do not prompt `mine`. */
  predicate LeavesAlone(order: seq<string>, mine: string, op: Op) {
    match op
    case Create(id) => id != mine && id !in order
    case Touch(id) => id != mine
    case CancelOp(_) => true
  }

  predicate AllLeaveAlone(order: seq<string>, mine: string, ops: seq<Op>)
    decreases |ops|
  {
    ops == [] || (LeavesAlone(order, mine, ops[0]) && AllLeaveAlone(Apply(order, ops[0]), mine, ops[1..]))
  }

  predicate FitsTable(order: seq<string>) {
    NoDuplicates(order) && |order| <= MAX_ACTIVE_SESSIONS
  }

  lemma ApplyFits(order: seq<string>, mine: string, op: Op)
    requires FitsTable(order) && LeavesAlone(order, mine, op)
    ensures FitsTable(Apply(order, op))
    ensures mine !in order ==> mine !in Apply(order, op)
  {
    match op {
      case Create(id) =>
        var front := if |order| >= MAX_ACTIVE_SESSIONS then order[1..] else order;
        AppendNew(front, id);
      case Touch(id) =>
        if id in order {
          WithoutEffect(order, id);
          AppendNew(Without(order, id), id);
        }
      case CancelOp(_) =>
    }
  }

  /** The sessions used more recently than `mine`. */
  function After(order: seq<string>, mine: string): set<string> {
    if order == [] then {}
    else if order[0] == mine then set x | x in order[1..]
    else After(order[1..], mine)
  }

  lemma {:induction false} AfterAppend(order: seq<string>, mine: string, id: string)
    requires mine in order
    ensures After(order + [id], mine) == After(order, mine) + {id}
  {
    assert (order + [id])[1..] == order[1..] + [id];
    if order[0] != mine {
      AfterAppend(order[1..], mine, id);
    }
  }

  lemma {:induction false} AfterWithout(order: seq<string>, mine: string, id: string)
    requires NoDuplicates(order) && mine in order && id in order && id != mine
    ensures mine in Without(order, id)
    ensures After(Without(order, id), mine) == After(order, mine) - {id}
  {
    WithoutEffect(order, id);
    if order[0] == mine {
      WithoutEffect(order[1..], id);
      assert Without(order, id)[1..] == Without(order[1..], id);
    } else if order[0] != id {
      AfterWithout(order[1..], mine, id);
      assert Without(order, id)[1..] == Without(order[1..], id);
    } else {
      NotAfter(order[1..], mine, id);
    }
  }

  lemma {:induction false} NotAfter(order: seq<string>, mine: string, id: string)
    requires id !in order
    ensures id !in After(order, mine)
  {
    if order != [] && order[0] != mine {
      NotAfter(order[1..], mine, id);
    }
  }

  /** Fewer sessions are behind `mine` than fit beside it; all of them exactly when it is the head. */
  lemma {:induction false} AfterSize(order: seq<string>, mine: string)
    requires NoDuplicates(order) && mine in order
    ensures |After(order, mine)| < |order|
    ensures |After(order, mine)| == |order| - 1 <==> order[0] == mine
  {
    if order[0] == mine {
      SetOfDistinct(order[1..]);
    } else {
      AfterSize(order[1..], mine);
    }
  }

  /** One operation keeps `mine` and puts what it used behind it, or evicts it from a full table. */
  lemma ApplyAfter(order: seq<string>, mine: string, op: Op)
    requires FitsTable(order) && mine in order && LeavesAlone(order, mine, op)
    ensures var next := Apply(order, op);
            if op.Create? && |order| == MAX_ACTIVE_SESSIONS && order[0] == mine then
              mine !in next && After(order, mine) + Used(order, op) == set x | x in next
            else mine in next && After(next, mine) == After(order, mine) + Used(order, op)
  {
    match op {
      case CancelOp(_) =>
      case Create(id) =>
        if |order| == MAX_ACTIVE_SESSIONS {
          if order[0] != mine {
            AfterAppend(order[1..], mine, id);
          }
        } else {
          AfterAppend(order, mine, id);
        }
      case Touch(id) =>
        if id in order {
          AfterWithout(order, mine, id);
          AfterAppend(Without(order, id), mine, id);
        }
    }
  }

  /** A session that is gone stays gone: nothing creates it again. */
  lemma {:induction false} GoneStaysGone(order: seq<string>, mine: string, ops: seq<Op>)
    requires mine !in order && AllLeaveAlone(order, mine, ops) && FitsTable(order)
    ensures mine !in RunOps(order, ops)
    decreases |ops|
  {
    hide Apply, NoDuplicates, LeavesAlone, FitsTable;
    if ops != [] {
      ApplyFits(order, mine, ops[0]);
      GoneStaysGone(Apply(order, ops[0]), mine, ops[1..]);
    }
  }

  lemma SubsetSize(a: set<string>, b: set<string>)
    requires a <= b
    ensures |a| <= |b|
  {
    assert b == a + (b - a);
  }

  lemma {:induction false} SurvivesFrom(order: seq<string>, mine: string, ops: seq<Op>)
    requires FitsTable(order) && mine in order && AllLeaveAlone(order, mine, ops)
    ensures mine in RunOps(order, ops) <==>
            |After(order, mine) + UsedDuring(order, ops)| < MAX_ACTIVE_SESSIONS
    decreases |ops|
  {
    hide Apply, NoDuplicates, LeavesAlone, After, Used;
    AfterSize(order, mine);
    if ops == [] {
      assert After(order, mine) + {} == After(order, mine);
    } else {
      var op, next := ops[0], Apply(order, ops[0]);
      ApplyAfter(order, mine, op);
      ApplyFits(order, mine, op);
      var used, later := Used(order, op), UsedDuring(next, ops[1..]);
      assert After(order, mine) + (used + later) == (After(order, mine) + used) + later;
      if op.Create? && |order| == MAX_ACTIVE_SESSIONS && order[0] == mine {
        GoneStaysGone(next, mine, ops[1..]);
        SetOfDistinct(next);
        CreatedIsFull(order, op);
        SubsetSize(After(order, mine) + used, After(order, mine) + (used + later));
      } else {
        SurvivesFrom(next, mine, ops[1..]);
      }
    }
  }

  lemma CreatedIsFull(order: seq<string>, op: Op)
    requires op.Create? && |order| == MAX_ACTIVE_SESSIONS
    ensures |Apply(order, op)| == MAX_ACTIVE_SESSIONS
  {
  }

  /**
   * Over every run, the table keeps a session just used as long as fewer than 256 other
   * sessions are created or prompted, and no longer.
   */
  lemma SurvivesIffFewUsedSince(order: seq<string>, mine: string, ops: seq<Op>)
    requires FitsTable(order + [mine]) && mine !in order && AllLeaveAlone(order + [mine], mine, ops)
    ensures mine in RunOps(order + [mine], ops) <==>
            |UsedDuring(order + [mine], ops)| < MAX_ACTIVE_SESSIONS
  {
    hide NoDuplicates, AllLeaveAlone, RunOps, UsedDuring;
    SurvivesFrom(order + [mine], mine, ops);
    NothingAfterLast(order, mine);
    assert {} + UsedDuring(order + [mine], ops) == UsedDuring(order + [mine], ops);
  }

  lemma {:induction false} NothingAfterLast(order: seq<string>, mine: string)
    requires mine !in order
    ensures After(order + [mine], mine) == {}
  {
    assert (order + [mine])[1..] == if order == [] then [] else order[1..] + [mine];
    if order != [] {
      NothingAfterLast(order[1..], mine);
    }
  }
}
