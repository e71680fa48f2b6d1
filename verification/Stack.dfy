/** The stack of primitives: clients push, one consumer executes, a reader asks
    whether everything pushed has been executed. Transactions are interleaved step
    by step. */
module Stack {
  import opened FlowTypes

  /** The push transaction that holds the lock on the row STACK_TOP, if any: it has
      locked the row, then drawn an id and inserted its primitive, then updated
      STACK_TOP. */
  datatype Push = NoPush | Locked | Inserted(id: int) | Topped(id: int)

  /** The consumer has deleted the primitive and executes it; nothing is committed. */
  datatype Consumer = Waiting | Processing(id: int)

  /** A primitive has been executed, at a time of the clock. */
  datatype Execution = Execution(id: int, now: int)

  /** The clock, the calls of the clients that have passed the check of their access
      and do not hold the lock yet, the committed tables, the sequence, the open
      transactions, and two histories: the ids in the order of their commit, and the
      executions. */
  datatype System = System(
    clock: int,
    calls: nat,
    top: int,
    exe: int,
    next: int,
    stack: set<int>,
    push: Push,
    consumer: Consumer,
    log: seq<int>,
    done: seq<Execution>)

  function Ids(es: seq<Execution>): (ids: seq<int>)
    ensures |ids| == |es| && forall i :: 0 <= i < |es| ==> ids[i] == es[i].id
  {
    seq(|es|, i requires 0 <= i < |es| => es[i].id)
  }

  /** Whether the execution of a primitive succeeds at a time, after the executions
      given. Otherwise it raises an exception. */
  type Success = (seq<Execution>, int, int) -> bool

  datatype Action =
    | Advance(to: int)
    | Call
    | Leave
    | Lock
    | Insert
    | SetTop
    | Commit
    | Abort
    | Take(id: int)
    | Finish
    | Fail

  predicate IsFirst(stack: set<int>, id: int) {
    id in stack && forall j :: j in stack ==> id <= j
  }

  predicate Enabled(ok: Success, s: System, a: Action) {
    match a
    case Advance(to) => s.clock <= to
    case Call => true
    case Leave => s.calls > 0
    case Lock => s.calls > 0 && s.push == NoPush
    case Insert => s.push.Locked?
    case SetTop => s.push.Inserted?
    case Commit => s.push.Topped?
    case Abort => s.push != NoPush
    case Take(id) => s.consumer == Waiting && IsFirst(s.stack, id)
    case Finish => s.consumer.Processing? && ok(s.done, s.consumer.id, s.clock)
    case Fail => s.consumer.Processing?
  }

  /** One step. An id drawn by a push that aborts is lost. A primitive whose execution
      raises is put back, and STACK_EXECUTED is not changed; it is executed again
      later. An execution can also fail for a passing reason, such as a lock that is not
      acquired at once. */
  function Apply(ok: Success, s: System, a: Action): System
    requires Enabled(ok, s, a)
  {
    match a
    case Advance(to) => s.(clock := to)
    case Call => s.(calls := s.calls + 1)
    case Leave => s.(calls := s.calls - 1)
    case Lock => s.(calls := s.calls - 1, push := Locked)
    case Insert => s.(push := Inserted(s.next), next := s.next + 1)
    case SetTop => s.(push := Topped(s.push.id))
    case Commit =>
      s.(push := NoPush, top := s.push.id, stack := s.stack + {s.push.id}, log := s.log + [s.push.id])
    case Abort => s.(push := NoPush)
    case Take(id) => s.(consumer := Processing(id))
    case Finish =>
      var id := s.consumer.id;
      s.(consumer := Waiting, stack := s.stack - {id}, exe := id, done := s.done + [Execution(id, s.clock)])
    case Fail => s.(consumer := Waiting)
  }

  /** A day starts from equal counters, an empty stack and no transaction. */
  function Start(counter: int, next: int, now: int): System {
    System(now, 0, counter, counter, next, {}, NoPush, Waiting, [], [])
  }

  /** The state after a list of steps, when each is enabled at its turn. */
  function After(ok: Success, s: System, actions: seq<Action>): Option<System> {
    if |actions| == 0 then Some(s)
    else
      var n := |actions| - 1;
      match After(ok, s, actions[..n])
      case None => None
      case Some(t) => if Enabled(ok, t, actions[n]) then Some(Apply(ok, t, actions[n])) else None
  }

  // ---------------------------------------------------------------------------
  // The invariant

  ghost predicate StrictlyIncreasing(ids: seq<int>) {
    forall i, j :: 0 <= i < j < |ids| ==> ids[i] < ids[j]
  }

  /** The last id of a history, or the counter of the start of the day. */
  function Last(ids: seq<int>, counter: int): int {
    if |ids| == 0 then counter else ids[|ids| - 1]
  }

  /** The ids committed and not executed. */
  function Pending(s: System): seq<int> {
    if |s.done| <= |s.log| then s.log[|s.done|..] else []
  }

  /** Ids are committed in increasing order, between the start of the sequence and
      its next value. */
  ghost predicate LogInv(s: System, first: int) {
    StrictlyIncreasing(s.log) && first <= s.next && forall i :: 0 <= i < |s.log| ==> first <= s.log[i] < s.next
  }

  /** The id drawn by the push in flight is above those committed. */
  ghost predicate PushInv(s: System, first: int) {
    s.push.Inserted? || s.push.Topped? ==>
      first <= s.push.id < s.next && forall i :: 0 <= i < |s.log| ==> s.log[i] < s.push.id
  }

  /** What was executed is the beginning of what was committed, in the same order,
      and the stack holds the rest. */
  ghost predicate FifoInv(s: System) {
    && Ids(s.done) <= s.log
    && (forall id :: id in s.stack <==> id in Pending(s))
    && (s.consumer.Processing? ==> |s.done| < |s.log| && s.consumer.id == s.log[|s.done|])
  }

  ghost predicate CounterInv(s: System, counter: int) {
    s.top == Last(s.log, counter) && s.exe == Last(Ids(s.done), counter)
  }

  ghost predicate Inv(s: System, counter: int, first: int) {
    LogInv(s, first) && PushInv(s, first) && FifoInv(s) && CounterInv(s, counter)
  }

  lemma StartInv(counter: int, first: int, now: int)
    ensures Inv(Start(counter, first, now), counter, first)
  {}

  lemma PendingFirst(s: System, id: int)
    requires StrictlyIncreasing(s.log) && FifoInv(s) && IsFirst(s.stack, id)
    ensures |s.done| < |s.log| && id == s.log[|s.done|]
  {
    assert id in Pending(s);
    assert s.log[|s.done|] == Pending(s)[0];
    assert s.log[|s.done|] in s.stack;
  }

  lemma CommitKeepsFifo(ok: Success, s: System, first: int)
    requires LogInv(s, first) && PushInv(s, first) && FifoInv(s) && s.push.Topped?
    ensures FifoInv(Apply(ok, s, Commit))
  {
    assert Pending(Apply(ok, s, Commit)) == Pending(s) + [s.push.id];
  }

  lemma PendingStep(s: System, t: System)
    requires Ids(s.done) <= s.log && |s.done| < |s.log| && t.log == s.log
    requires |t.done| == |s.done| + 1 && s.done <= t.done && t.done[|s.done|].id == s.log[|s.done|]
    ensures Ids(t.done) <= t.log && Pending(s) == [s.log[|s.done|]] + Pending(t)
  {}

  lemma FinishKeepsFifo(ok: Success, s: System, first: int)
    requires LogInv(s, first) && FifoInv(s) && Enabled(ok, s, Finish)
    ensures FifoInv(Apply(ok, s, Finish))
  {
    var t := Apply(ok, s, Finish);
    PendingStep(s, t);
    NotInRest(s.log, |t.done|);
    assert Pending(t) == t.log[|t.done|..];
    hide Pending, LogInv;
    forall id
      ensures id in t.stack <==> id in Pending(t)
    {
      assert id in s.stack <==> id in Pending(s);
    }
  }

  lemma NotInRest(ids: seq<int>, n: nat)
    requires StrictlyIncreasing(ids) && 0 < n <= |ids|
    ensures ids[n - 1] !in ids[n..]
  {}

  lemma StepKeepsInv(ok: Success, s: System, a: Action, counter: int, first: int)
    requires Inv(s, counter, first) && Enabled(ok, s, a)
    ensures Inv(Apply(ok, s, a), counter, first)
  {
    hide Pending;
    match a {
      case Commit =>
        CommitKeepsFifo(ok, s, first);
        hide FifoInv, Pending;
      case Take(id) =>
        PendingFirst(s, id);
        PendingSame(s, Apply(ok, s, a));
      case Finish =>
        FinishKeepsFifo(ok, s, first);
        hide FifoInv;
      case _ =>
        PendingSame(s, Apply(ok, s, a));
        OtherKeepsInv(ok, s, a, counter, first);
    }
  }

  /** The steps that neither commit, nor start or end an execution. */
  lemma OtherKeepsInv(ok: Success, s: System, a: Action, counter: int, first: int)
    requires Inv(s, counter, first) && Enabled(ok, s, a) && !a.Commit? && !a.Take? && !a.Finish?
    requires Pending(Apply(ok, s, a)) == Pending(s)
    ensures Inv(Apply(ok, s, a), counter, first)
  {
    hide Pending;
  }

  lemma PendingSame(s: System, t: System)
    requires s.log == t.log && s.done == t.done
    ensures Pending(s) == Pending(t)
  {}

  lemma {:induction false} ReachableInv(ok: Success, s: System, actions: seq<Action>, counter: int, first: int)
    requires Inv(s, counter, first) && After(ok, s, actions).Some?
    ensures Inv(After(ok, s, actions).value, counter, first)
  {
    hide Inv, Apply, Enabled;
    if |actions| > 0 {
      var n := |actions| - 1;
      ReachableInv(ok, s, actions[..n], counter, first);
      StepKeepsInv(ok, After(ok, s, actions[..n]).value, actions[n], counter, first);
    }
  }

  /** What was executed succeeded, each primitive at its turn. */
  ghost predicate Succeeded(ok: Success, done: seq<Execution>) {
    forall i :: 0 <= i < |done| ==> ok(done[..i], done[i].id, done[i].now)
  }

  /** The times of the executions, since the start of the day. */
  ghost predicate Timed(s: System, start: int) {
    && start <= s.clock
    && (forall i :: 0 <= i < |s.done| ==> start <= s.done[i].now <= s.clock)
    && (forall i, j :: 0 <= i < j < |s.done| ==> s.done[i].now <= s.done[j].now)
  }

  lemma StepSucceeds(ok: Success, s: System, a: Action)
    requires Succeeded(ok, s.done) && Enabled(ok, s, a)
    ensures Succeeded(ok, Apply(ok, s, a).done)
  {
    var t := Apply(ok, s, a);
    if a == Finish {
      forall i | 0 <= i < |t.done|
        ensures ok(t.done[..i], t.done[i].id, t.done[i].now)
      {
        if i < |s.done| { assert t.done[..i] == s.done[..i]; } else { assert t.done[..i] == s.done; }
      }
    }
  }

  lemma {:induction false} ReachableSucceeded(ok: Success, s: System, actions: seq<Action>, start: int)
    requires Succeeded(ok, s.done) && Timed(s, start) && After(ok, s, actions).Some?
    ensures var t := After(ok, s, actions).value;
            Succeeded(ok, t.done) && Timed(t, start) && s.done <= t.done && s.log <= t.log && s.clock <= t.clock
  {
    hide Succeeded;
    if |actions| > 0 {
      var n := |actions| - 1;
      ReachableSucceeded(ok, s, actions[..n], start);
      StepSucceeds(ok, After(ok, s, actions[..n]).value, actions[n]);
    }
  }

  /** In every interleaving of a day, with aborts and failures, ids are committed in
      increasing order; what has been executed is exactly what was committed first,
      once each and in that order, at times that do not decrease, and each succeeded
      at its turn; the stack holds the rest. */
  lemma Fifo(ok: Success, counter: int, first: int, now: int, actions: seq<Action>)
    requires After(ok, Start(counter, first, now), actions).Some?
    ensures var s := After(ok, Start(counter, first, now), actions).value;
            && StrictlyIncreasing(s.log) && StrictlyIncreasing(Ids(s.done))
            && Ids(s.done) <= s.log && Succeeded(ok, s.done) && Timed(s, now)
            && (forall i :: 0 <= i < |s.log| ==> s.log[i] >= first)
            && forall id :: id in s.stack <==> id in s.log[|s.done|..]
  {
    StartInv(counter, first, now);
    ReachableInv(ok, Start(counter, first, now), actions, counter, first);
    ReachableSucceeded(ok, Start(counter, first, now), actions, now);
  }

  // ---------------------------------------------------------------------------
  // Whether everything gets executed

  /** Which primitives can be executed at all. */
  type Acceptance = int -> bool

  /** It is the turn of a primitive: those given have been executed before it. */
  ghost predicate AtTurn(ok: Success, done: seq<Execution>, id: int, first: int) {
    && Succeeded(ok, done)
    && StrictlyIncreasing(Ids(done) + [id])
    && forall i :: 0 <= i <= |done| ==> (Ids(done) + [id])[i] >= first
  }

  ghost predicate SucceedsLater(ok: Success, done: seq<Execution>, id: int, now: int) {
    exists t :: now <= t && ok(done, id, t)
  }

  /** A primitive that is not accepted raises at any time, whatever was executed before it. */
  ghost predicate Rejects(ok: Success, accepts: Acceptance) {
    forall done, id, now :: ok(done, id, now) ==> accepts(id)
  }

  /** Any other one, at its turn, succeeds sooner or later. */
  ghost predicate Grants(ok: Success, accepts: Acceptance, first: int) {
    forall done, id, now :: AtTurn(ok, done, id, first) && accepts(id) ==> SucceedsLater(ok, done, id, now)
  }

  ghost predicate AllAccepted(accepts: Acceptance, s: System) {
    forall i :: |s.done| <= i < |s.log| ==> accepts(s.log[i])
  }

  /** The primitive at place i of the log is pending, and is not accepted. */
  ghost predicate Blocked(accepts: Acceptance, s: System, i: nat, id: int) {
    |s.done| <= i < |s.log| && s.log[i] == id && !accepts(id)
  }

  lemma StepKeepsBlocked(ok: Success, accepts: Acceptance, s: System, a: Action, i: nat, id: int)
    requires Rejects(ok, accepts) && FifoInv(s) && Enabled(ok, s, a) && Blocked(accepts, s, i, id)
    ensures Blocked(accepts, Apply(ok, s, a), i, id)
  {
    hide Pending;
  }

  lemma {:induction false} BlockedForEver(ok: Success, accepts: Acceptance, s: System, more: seq<Action>, i: nat,
                                          id: int, counter: int, first: int)
    requires Rejects(ok, accepts) && Inv(s, counter, first) && Blocked(accepts, s, i, id) && After(ok, s, more).Some?
    ensures Blocked(accepts, After(ok, s, more).value, i, id)
  {
    hide Apply, Enabled, Blocked, FifoInv, LogInv, PushInv, CounterInv, Rejects;
    if |more| > 0 {
      var n := |more| - 1;
      BlockedForEver(ok, accepts, s, more[..n], i, id, counter, first);
      ReachableInv(ok, s, more[..n], counter, first);
      StepKeepsBlocked(ok, accepts, After(ok, s, more[..n]).value, more[n], i, id);
    }
  }

  lemma BlockedIsPending(accepts: Acceptance, s: System, i: nat, id: int)
    requires FifoInv(s) && Blocked(accepts, s, i, id)
    ensures id in s.stack
  {
    assert Pending(s)[i - |s.done|] == id;
  }

  /** Once a primitive that is not accepted is pending, neither it nor anything committed after
      it is executed, in any continuation and at any time: the consumer puts it back
      and finds it again. */
  lemma NothingAfterRaising(ok: Success, accepts: Acceptance, s: System, more: seq<Action>, i: nat,
                            counter: int, first: int)
    requires Rejects(ok, accepts) && Inv(s, counter, first)
    requires |s.done| <= i < |s.log| && !accepts(s.log[i]) && After(ok, s, more).Some?
    ensures var t := After(ok, s, more).value;
            |t.done| <= i && s.log[i] in t.stack && (i == |s.done| ==> t.done == s.done && t.exe == s.exe)
  {
    var id := s.log[i];
    BlockedForEver(ok, accepts, s, more, i, id, counter, first);
    ReachableInv(ok, s, more, counter, first);
    var t := After(ok, s, more).value;
    DoneGrows(ok, s, more);
    BlockedIsPending(accepts, t, i, id);
  }

  lemma {:induction false} DoneGrows(ok: Success, s: System, more: seq<Action>)
    requires After(ok, s, more).Some?
    ensures s.done <= After(ok, s, more).value.done
  {
    if |more| > 0 { DoneGrows(ok, s, more[..|more| - 1]); }
  }

  lemma AfterAppend(ok: Success, s: System, actions: seq<Action>, a: Action)
    requires After(ok, s, actions).Some? && Enabled(ok, After(ok, s, actions).value, a)
    ensures After(ok, s, actions + [a]) == Some(Apply(ok, After(ok, s, actions).value, a))
  {
    assert (actions + [a])[..|actions|] == actions;
  }

  lemma SomeElement(ids: set<int>) returns (id: int)
    requires ids != {}
    ensures id in ids
  {
    NoElement(ids);
    id :| id in ids;
  }

  lemma NoElement(ids: set<int>)
    ensures (forall id :: id !in ids) ==> ids == {}
  {
    if forall id :: id !in ids { assert ids == {}; }
  }

  lemma FirstIsFirst(s: System, counter: int, first: int)
    requires Inv(s, counter, first) && s.stack != {}
    ensures |s.done| < |s.log| && IsFirst(s.stack, s.log[|s.done|])
  {
    var id := SomeElement(s.stack);
    assert id in Pending(s);
    assert s.log[|s.done|] == Pending(s)[0];
    forall j | j in s.stack
      ensures s.log[|s.done|] <= j
    {
      assert j in Pending(s);
    }
  }

  lemma AfterConcat(ok: Success, s: System, a: seq<Action>, b: seq<Action>)
    requires After(ok, s, a).Some?
    ensures After(ok, s, a + b) == After(ok, After(ok, s, a).value, b)
    decreases |b|
  {
    hide Apply, Enabled;
    if |b| == 0 {
      assert a + b == a;
    } else {
      assert (a + b)[..|a + b| - 1] == a + b[..|b| - 1];
      AfterConcat(ok, s, a, b[..|b| - 1]);
    }
  }

  /** The state of the day to come: its invariant, and what has succeeded. */
  ghost predicate Sound(ok: Success, s: System, counter: int, first: int) {
    Inv(s, counter, first) && Succeeded(ok, s.done)
  }

  lemma SoundAfter(ok: Success, s: System, actions: seq<Action>, counter: int, first: int)
    requires Sound(ok, s, counter, first) && After(ok, s, actions).Some?
    ensures Sound(ok, After(ok, s, actions).value, counter, first)
    decreases |actions|
  {
    hide Inv, Succeeded, Apply, Enabled;
    if |actions| > 0 {
      var n := |actions| - 1;
      SoundAfter(ok, s, actions[..n], counter, first);
      StepKeepsInv(ok, After(ok, s, actions[..n]).value, actions[n], counter, first);
      StepSucceeds(ok, After(ok, s, actions[..n]).value, actions[n]);
    }
  }

  lemma SoundStart(ok: Success, counter: int, first: int, now: int)
    ensures Sound(ok, Start(counter, first, now), counter, first)
  {
    StartInv(counter, first, now);
  }

  lemma FirstAtTurn(ok: Success, s: System, counter: int, first: int)
    requires Sound(ok, s, counter, first) && |s.done| < |s.log|
    ensures AtTurn(ok, s.done, s.log[|s.done|], first)
  {
    hide Succeeded, FifoInv, CounterInv, PushInv;
    assert Ids(s.done) <= s.log by { FifoPrefix(s); }
    assert Ids(s.done) + [s.log[|s.done|]] == s.log[..|s.done| + 1];
  }

  lemma FifoPrefix(s: System)
    requires FifoInv(s)
    ensures Ids(s.done) <= s.log
    ensures s.consumer.Processing? ==> |s.done| < |s.log| && s.consumer.id == s.log[|s.done|]
  {}

  /** The consumer does nothing else. */
  predicate Consuming(a: Action) {
    a == Finish || a.Take? || a.Advance?
  }

  /** Nobody but the consumer and the clock has moved. */
  ghost predicate SameOthers(s: System, t: System) {
    t.push == s.push && t.calls == s.calls && t.log == s.log
  }

  /** The first pending primitive is executed, after the time it takes to succeed. */
  lemma ExecuteNext(ok: Success, accepts: Acceptance, s: System, counter: int, first: int) returns (more: seq<Action>)
    requires Sound(ok, s, counter, first) && Grants(ok, accepts, first) && AllAccepted(accepts, s) && |s.done| < |s.log|
    ensures After(ok, s, more).Some? && forall i :: 0 <= i < |more| ==> Consuming(more[i])
    ensures var t := After(ok, s, more).value;
            SameOthers(s, t) && |t.done| == |s.done| + 1
  {
    hide *;
    var id := s.log[|s.done|];
    FirstAtTurn(ok, s, counter, first);
    var t := LaterAt(ok, accepts, s, id, first);
    var taken: seq<Action> := if s.consumer == Waiting then [Take(id)] else [];
    TakesFirst(ok, s, taken, counter, first);
    FinishesAt(ok, s, s.(consumer := Processing(id)), taken, t);
    more := taken + [Advance(t)] + [Finish];
    ConsumingOnly(taken, id, t);
  }

  lemma LaterAt(ok: Success, accepts: Acceptance, s: System, id: int, first: int) returns (t: int)
    requires Grants(ok, accepts, first) && AllAccepted(accepts, s) && AtTurn(ok, s.done, id, first)
    requires |s.done| < |s.log| && id == s.log[|s.done|]
    ensures s.clock <= t && ok(s.done, id, t)
  {
    hide AtTurn;
    assert SucceedsLater(ok, s.done, id, s.clock);
    t :| s.clock <= t && ok(s.done, id, t);
  }

  lemma ConsumingOnly(taken: seq<Action>, id: int, t: int)
    requires taken == [] || taken == [Take(id)]
    ensures forall i :: 0 <= i < |taken + [Advance(t)] + [Finish]| ==> Consuming((taken + [Advance(t)] + [Finish])[i])
  {}

  /** The execution of a primitive that has been taken, at the time t. */
  lemma FinishesAt(ok: Success, s: System, u: System, taken: seq<Action>, t: int)
    requires After(ok, s, taken) == Some(u) && u == s.(consumer := u.consumer) && u.consumer.Processing?
    requires s.clock <= t && ok(s.done, u.consumer.id, t)
    ensures After(ok, s, taken + [Advance(t)] + [Finish]).Some?
    ensures var w := After(ok, s, taken + [Advance(t)] + [Finish]).value;
            SameOthers(s, w) && |w.done| == |s.done| + 1
  {
    hide After;
    AfterAppend(ok, s, taken, Advance(t));
    AfterAppend(ok, s, taken + [Advance(t)], Finish);
  }

  lemma TakesFirst(ok: Success, s: System, taken: seq<Action>, counter: int, first: int)
    requires Sound(ok, s, counter, first) && |s.done| < |s.log|
    requires taken == if s.consumer == Waiting then [Take(s.log[|s.done|])] else []
    ensures After(ok, s, taken) == Some(s.(consumer := Processing(s.log[|s.done|])))
  {
    hide Succeeded;
    FifoPrefix(s);
    if s.consumer == Waiting {
      PendingInStack(s);
      FirstIsFirst(s, counter, first);
      hide Inv;
      assert [] + taken == taken;
      AfterAppend(ok, s, [], Take(s.log[|s.done|]));
    }
  }

  /** The stack is empty and nobody else has moved. */
  ghost predicate Emptied(s: System, t: System) {
    t.stack == {} && t.consumer == Waiting && SameOthers(s, t)
  }

  lemma {:induction false} Empties(ok: Success, accepts: Acceptance, s: System, counter: int, first: int)
    returns (more: seq<Action>)
    requires Sound(ok, s, counter, first) && Grants(ok, accepts, first) && AllAccepted(accepts, s)
    ensures After(ok, s, more).Some? && Emptied(s, After(ok, s, more).value)
    ensures forall i :: 0 <= i < |more| ==> Consuming(more[i])
    decreases |s.log| - |s.done|
  {
    hide Grants, Succeeded;
    FifoPrefix(s);
    if |s.done| == |s.log| {
      NothingPending(s);
      more := [];
    } else {
      var next := ExecuteNext(ok, accepts, s, counter, first);
      SoundAfter(ok, s, next, counter, first);
      hide Sound, Inv;
      var t := After(ok, s, next).value;
      var rest := Empties(ok, accepts, t, counter, first);
      more := next + rest;
      AfterConcat(ok, s, next, rest);
    }
  }

  lemma NothingPending(s: System)
    requires FifoInv(s) && |s.done| == |s.log|
    ensures s.stack == {} && s.consumer == Waiting
  {
    assert Pending(s) == [];
    forall id
      ensures id !in s.stack
    {
      assert id in s.stack <==> id in Pending(s);
    }
  }

  lemma PendingInStack(s: System)
    requires FifoInv(s)
    ensures |s.done| < |s.log| ==> s.stack != {}
  {
    if |s.done| < |s.log| {
      var id := Pending(s)[0];
      assert id in Pending(s);
    }
  }

  ghost predicate CanEmpty(ok: Success, s: System) {
    exists more :: After(ok, s, more).Some? && After(ok, s, more).value.stack == {}
  }

  lemma NotAllAccepted(accepts: Acceptance, s: System) returns (i: nat, id: int)
    requires !AllAccepted(accepts, s)
    ensures Blocked(accepts, s, i, id)
  {
    i :| |s.done| <= i < |s.log| && !accepts(s.log[i]);
    id := s.log[i];
  }

  /** From a state of any day, some continuation executes all that is pending if and
      only if each pending primitive is accepted. */
  lemma CanEmptyIff(ok: Success, accepts: Acceptance, counter: int, first: int, now: int, actions: seq<Action>)
    requires Rejects(ok, accepts) && Grants(ok, accepts, first)
    requires After(ok, Start(counter, first, now), actions).Some?
    ensures var s := After(ok, Start(counter, first, now), actions).value;
            CanEmpty(ok, s) <==> AllAccepted(accepts, s)
  {
    hide Rejects, Grants, Inv, Succeeded;
    var s := After(ok, Start(counter, first, now), actions).value;
    SoundStart(ok, counter, first, now);
    SoundAfter(ok, Start(counter, first, now), actions, counter, first);
    if AllAccepted(accepts, s) {
      var more := Empties(ok, accepts, s, counter, first);
    } else {
      var i, id := NotAllAccepted(accepts, s);
      forall more | After(ok, s, more).Some?
        ensures After(ok, s, more).value.stack != {}
      {
        StaysPending(ok, accepts, s, more, i, id, counter, first);
      }
    }
  }

  lemma StaysPending(ok: Success, accepts: Acceptance, s: System, more: seq<Action>, i: nat, id: int,
                     counter: int, first: int)
    requires Rejects(ok, accepts) && Inv(s, counter, first) && Blocked(accepts, s, i, id) && After(ok, s, more).Some?
    ensures id in After(ok, s, more).value.stack
  {
    hide Rejects;
    BlockedForEver(ok, accepts, s, more, i, id, counter, first);
    ReachableInv(ok, s, more, counter, first);
    BlockedIsPending(accepts, After(ok, s, more).value, i, id);
  }

  // ---------------------------------------------------------------------------
  // fstackdone

  predicate StackDone(s: System) {
    s.top == s.exe
  }

  /** The counters tell whether a committed primitive is pending. */
  ghost predicate DoneTells(s: System) {
    StackDone(s) <==> s.stack == {}
  }

  lemma InvDoneTells(s: System, counter: int, first: int)
    requires Inv(s, counter, first) && counter < first
    ensures DoneTells(s)
  {
    if |s.done| < |s.log| {
      assert s.log[|s.done|] in Pending(s);
      assert s.top != s.exe by {
        if |s.done| > 0 { assert Ids(s.done)[|s.done| - 1] == s.log[|s.done| - 1]; }
      }
    } else {
      NothingPending(s);
      assert Ids(s.done) == s.log;
    }
  }

  /** Pushes that abort lose ids: any next id can be reached with nothing committed. */
  lemma {:induction false} LoseIds(ok: Success, counter: int, first: int, now: int, n: nat)
    returns (actions: seq<Action>)
    ensures After(ok, Start(counter, first, now), actions) == Some(Start(counter, first + n, now))
  {
    NothingHappened(ok, Start(counter, first, now));
    hide After;
    if n == 0 {
      actions := [];
    } else {
      var before := LoseIds(ok, counter, first, now, n - 1);
      var s := Start(counter, first, now);
      AfterAppend(ok, s, before, Call);
      AfterAppend(ok, s, before + [Call], Lock);
      AfterAppend(ok, s, before + [Call] + [Lock], Insert);
      AfterAppend(ok, s, before + [Call] + [Lock] + [Insert], Abort);
      actions := before + [Call] + [Lock] + [Insert] + [Abort];
    }
  }

  lemma NothingHappened(ok: Success, s: System)
    ensures After(ok, s, []) == Some(s)
  {}

  /** The state in which the first primitive of the day has the id given. */
  function OnePushed(counter: int, id: int, now: int): System {
    System(now, 0, id, counter, id + 1, {id}, NoPush, Waiting, [id], [])
  }

  lemma PushOne(ok: Success, counter: int, first: int, now: int, id: int) returns (actions: seq<Action>)
    requires first <= id
    ensures After(ok, Start(counter, first, now), actions) == Some(OnePushed(counter, id, now))
  {
    hide After;
    var before := LoseIds(ok, counter, first, now, id - first);
    var s := Start(counter, first, now);
    AfterAppend(ok, s, before, Call);
    AfterAppend(ok, s, before + [Call], Lock);
    AfterAppend(ok, s, before + [Call] + [Lock], Insert);
    AfterAppend(ok, s, before + [Call] + [Lock] + [Insert], SetTop);
    AfterAppend(ok, s, before + [Call] + [Lock] + [Insert] + [SetTop], Commit);
    actions := before + [Call] + [Lock] + [Insert] + [SetTop] + [Commit];
    assert {} + {id} == {id} && [] + [id] == [id];
  }

  /** Over a day, the counters tell whether a committed primitive is pending, in
      every interleaving, exactly when the sequence starts above the counters. When
      it was restarted at or below them, a push can draw the very id that they hold:
      it is pending, and the stack looks done. */
  lemma StackDoneIff(ok: Success, counter: int, first: int, now: int)
    ensures counter < first <==>
            forall actions :: After(ok, Start(counter, first, now), actions).Some? ==>
              DoneTells(After(ok, Start(counter, first, now), actions).value)
  {
    if counter < first {
      forall actions | After(ok, Start(counter, first, now), actions).Some?
        ensures DoneTells(After(ok, Start(counter, first, now), actions).value)
      {
        StartInv(counter, first, now);
        ReachableInv(ok, Start(counter, first, now), actions, counter, first);
        InvDoneTells(After(ok, Start(counter, first, now), actions).value, counter, first);
      }
    } else {
      var actions := PushOne(ok, counter, first, now, counter);
      assert counter in OnePushed(counter, counter, now).stack;
    }
  }

  // ---------------------------------------------------------------------------
  // STACK_EXECUTED

  /** No step of the run decreases STACK_EXECUTED. */
  ghost predicate NeverDecreases(ok: Success, s: System, actions: seq<Action>) {
    forall n :: 0 <= n < |actions| && After(ok, s, actions[..n + 1]).Some? && After(ok, s, actions[..n]).Some? ==>
      After(ok, s, actions[..n]).value.exe <= After(ok, s, actions[..n + 1]).value.exe
  }

  /** Some id below the counters is executed first, at a time of the day. */
  ghost predicate StartsBelow(ok: Success, counter: int, first: int, now: int) {
    exists id, t :: first <= id < counter && now <= t && ok([], id, t)
  }

  lemma StepExecutes(ok: Success, s: System, a: Action, counter: int, first: int, now: int)
    requires Inv(s, counter, first) && Enabled(ok, s, a) && now <= s.clock && !StartsBelow(ok, counter, first, now)
    ensures s.exe <= Apply(ok, s, a).exe
  {
    if a == Finish {
      if |s.done| > 0 {
        assert Ids(s.done)[|s.done| - 1] == s.log[|s.done| - 1];
      } else {
        assert ok([], s.log[0], s.clock);
      }
    }
  }

  /** STACK_EXECUTED never decreases, in any interleaving of a day, if and only if no
      primitive with an id below the counters can be the first one executed; so it
      never does when the sequence starts at the counters or above. */
  lemma ExecutedGrowsIff(ok: Success, counter: int, first: int, now: int)
    ensures (forall actions :: NeverDecreases(ok, Start(counter, first, now), actions)) <==>
            !StartsBelow(ok, counter, first, now)
    ensures counter <= first ==> !StartsBelow(ok, counter, first, now)
  {
    if StartsBelow(ok, counter, first, now) {
      var actions := Decreasing(ok, counter, first, now);
    } else {
      forall actions
        ensures NeverDecreases(ok, Start(counter, first, now), actions)
      {
        GrowsAlong(ok, counter, first, now, actions);
      }
    }
  }

  /** The primitives that are accepted start below the counters. */
  lemma StartsBelowIff(ok: Success, accepts: Acceptance, counter: int, first: int, now: int)
    requires Rejects(ok, accepts) && Grants(ok, accepts, first)
    ensures StartsBelow(ok, counter, first, now) <==> exists id :: first <= id < counter && accepts(id)
  {
    if id :| first <= id < counter && accepts(id) {
      assert AtTurn(ok, [], id, first);
      assert SucceedsLater(ok, [], id, now);
    }
  }

  lemma Decreasing(ok: Success, counter: int, first: int, now: int) returns (actions: seq<Action>)
    requires StartsBelow(ok, counter, first, now)
    ensures !NeverDecreases(ok, Start(counter, first, now), actions)
  {
    hide After;
    var s := Start(counter, first, now);
    var id, t :| first <= id < counter && now <= t && ok([], id, t);
    var before := PushOne(ok, counter, first, now, id);
    AfterAppend(ok, s, before, Take(id));
    AfterAppend(ok, s, before + [Take(id)], Advance(t));
    var early := before + [Take(id)] + [Advance(t)];
    AfterAppend(ok, s, early, Finish);
    actions := early + [Finish];
    var n := |actions| - 1;
    assert actions[..n] == early && actions[..n + 1] == actions;
  }

  lemma GrowsAlong(ok: Success, counter: int, first: int, now: int, actions: seq<Action>)
    requires !StartsBelow(ok, counter, first, now)
    ensures NeverDecreases(ok, Start(counter, first, now), actions)
  {
    var s := Start(counter, first, now);
    StartInv(counter, first, now);
    hide Apply, Enabled, Inv, StartsBelow;
    forall n | 0 <= n < |actions| && After(ok, s, actions[..n + 1]).Some? && After(ok, s, actions[..n]).Some?
      ensures After(ok, s, actions[..n]).value.exe <= After(ok, s, actions[..n + 1]).value.exe
    {
      assert actions[..n + 1][..n] == actions[..n];
      ReachableInv(ok, s, actions[..n], counter, first);
      ReachableSucceeded(ok, s, actions[..n], now);
      StepExecutes(ok, After(ok, s, actions[..n]).value, actions[n], counter, first, now);
    }
  }
}
