/** A day of the market: the primitives pushed by the clients, in any interleaving,
    are executed on the order book by the consumer of the stack. */
module MarketDay {
  import opened Numeric
  import opened MarketRuns
  import opened Conservation
  import opened Primitives
  import opened Runs
  import opened Histories
  import Stack
  import Phases

  /** What was pushed under each id. */
  type Pushed = int -> Entry

  ghost predicate Identified(pushed: Pushed) {
    forall id: int {:trigger pushed(id)} :: pushed(id).id == id
  }

  /** The executions of the stack, as executions on the market. */
  function Executions(pushed: Pushed, done: seq<Stack.Execution>): (es: seq<Execution>)
    ensures |es| == |done| && forall i :: 0 <= i < |done| ==> es[i] == Execution(pushed(done[i].id), done[i].now)
  {
    seq(|done|, i requires 0 <= i < |done| => Execution(pushed(done[i].id), done[i].now))
  }

  /** The primitive id can be executed at a time after those of `done`, on the market
      they left. */
  ghost predicate ExecutesAfter(root: RootFunction, pushed: Pushed, first: int, done: seq<Stack.Execution>,
                                id: int, now: int)
    requires IsRoot(root)
  {
    IsRun(root, pushed, first, done + [Stack.Execution(id, now)])
  }

  /** The executions are a run of the market from the empty book. */
  ghost predicate IsRun(root: RootFunction, pushed: Pushed, first: int, done: seq<Stack.Execution>)
    requires IsRoot(root)
  {
    var es := Executions(pushed, done);
    && Increasing(es, first)
    && ReadyFor(NO_MARKET, first)
    && Runs.Run(root, NO_MARKET, first, es).Ok?
  }

  /** The outcome of the executions of a day, as the stack sees it. */
  ghost function Outcomes(root: RootFunction, pushed: Pushed, first: int): Stack.Success
    requires IsRoot(root)
  {
    (done: seq<Stack.Execution>, id: int, now: int) => ExecutesAfter(root, pushed, first, done, id, now)
  }

  /** The primitives that do not ask for what they provide. It is known when they are
      submitted. */
  function Acceptable(pushed: Pushed): Stack.Acceptance {
    (id: int) => Accepted(OrderOf(pushed(id)))
  }

  // ---------------------------------------------------------------------------
  // What is executed is a run of the market

  lemma ExecutedRun(root: RootFunction, pushed: Pushed, first: int, done: seq<Stack.Execution>)
    requires IsRoot(root) && Stack.Succeeded(Outcomes(root, pushed, first), done)
    ensures IsRun(root, pushed, first, done)
  {
    if |done| > 0 {
      hide *;
      OutcomeOfLast(root, pushed, first, done);
    } else {
      EmptyIsReady(first);
      NothingRuns(root, first);
      hide Runs.Run, Increasing, ReadyFor;
      assert Executions(pushed, done) == [];
    }
  }

  lemma OutcomeOfLast(root: RootFunction, pushed: Pushed, first: int, done: seq<Stack.Execution>)
    requires IsRoot(root) && Stack.Succeeded(Outcomes(root, pushed, first), done) && |done| > 0
    ensures IsRun(root, pushed, first, done)
  {
    hide IsRun;
    var n := |done| - 1;
    LastSucceeds(Outcomes(root, pushed, first), done);
    assert done[..n] + [Stack.Execution(done[n].id, done[n].now)] == done;
  }

  lemma LastSucceeds(ok: Stack.Success, done: seq<Stack.Execution>)
    requires Stack.Succeeded(ok, done) && |done| > 0
    ensures ok(done[..|done| - 1], done[|done| - 1].id, done[|done| - 1].now)
  {}

  lemma NothingRuns(root: RootFunction, first: int)
    requires IsRoot(root) && ReadyFor(NO_MARKET, first)
    ensures Increasing([], first) && Runs.Run(root, NO_MARKET, first, []).Ok?
  {
    hide ReadyFor;
  }

  /** In every interleaving of a day, what has been executed is a run of the market
      from the empty book: its books are well formed, and for each quality what the
      executed orders submitted is what remains in the stocks and what has been
      moved. */
  lemma DayConserves(root: RootFunction, pushed: Pushed, counter: int, first: int, now: int,
                     actions: seq<Stack.Action>, q: string)
    requires IsRoot(root)
    requires Stack.After(Outcomes(root, pushed, first), Stack.Start(counter, first, now), actions).Some?
    ensures var s := Stack.After(Outcomes(root, pushed, first), Stack.Start(counter, first, now), actions).value;
            var es := Executions(pushed, s.done);
            && IsRun(root, pushed, first, s.done)
            && var m := Runs.Run(root, NO_MARKET, first, es).value;
               ValidBook(m.torder) && Submitted(es, q) == Remaining(m.torder, q) + Moved(m.tmsg, q)
  {
    hide *;
    var ok := Outcomes(root, pushed, first);
    Stack.Fifo(ok, counter, first, now, actions);
    var s := Stack.After(ok, Stack.Start(counter, first, now), actions).value;
    ExecutedRun(root, pushed, first, s.done);
    RunParts(root, pushed, first, s.done);
    MarketConserves(root, first, Executions(pushed, s.done), q);
    RunConserves(root, NO_MARKET, first, Executions(pushed, s.done), q);
  }

  /** In every interleaving of a day, for each order that has been executed, in the terms
      of its submission: its row is in the book, it has given what is missing from its
      stock, each of its messages tells its terms, and if it is LIMIT it has given at
      most its price for what it has received, over all the cycles of the day. */
  lemma DayKeepsLimits(root: RootFunction, pushed: Pushed, counter: int, first: int, now: int,
                       actions: seq<Stack.Action>, i: nat)
    requires IsRoot(root)
    requires Stack.After(Outcomes(root, pushed, first), Stack.Start(counter, first, now), actions).Some?
    requires var s := Stack.After(Outcomes(root, pushed, first), Stack.Start(counter, first, now), actions).value;
             i < |s.done| && pushed(s.done[i].id).isOrder
    ensures var s := Stack.After(Outcomes(root, pushed, first), Stack.Start(counter, first, now), actions).value;
            && IsRun(root, pushed, first, s.done)
            && var m := Runs.Run(root, NO_MARKET, first, Executions(pushed, s.done)).value;
               exists k: nat :: Accounted(m, pushed(s.done[i].id), k)
  {
    hide *;
    var ok := Outcomes(root, pushed, first);
    Stack.Fifo(ok, counter, first, now, actions);
    var s := Stack.After(ok, Stack.Start(counter, first, now), actions).value;
    ExecutedRun(root, pushed, first, s.done);
    RunParts(root, pushed, first, s.done);
    ExecutionAt(pushed, s.done, i);
    OrdersAccount(root, first, Executions(pushed, s.done), i);
  }

  lemma ExecutionAt(pushed: Pushed, done: seq<Stack.Execution>, i: nat)
    requires i < |done|
    ensures Executions(pushed, done)[i].entry == pushed(done[i].id)
  {}

  lemma RunParts(root: RootFunction, pushed: Pushed, first: int, done: seq<Stack.Execution>)
    requires IsRoot(root) && IsRun(root, pushed, first, done)
    ensures var es := Executions(pushed, done);
            Increasing(es, first) && ReadyFor(NO_MARKET, first) && Runs.Run(root, NO_MARKET, first, es).Ok?
  {
    hide Runs.Run, Increasing, ReadyFor;
  }

  // ---------------------------------------------------------------------------
  // Which primitives are executed

  /** A primitive is executed only if it does not ask for what it provides. */
  lemma OutcomesReject(root: RootFunction, pushed: Pushed, first: int)
    requires IsRoot(root)
    ensures Stack.Rejects(Outcomes(root, pushed, first), Acceptable(pushed))
  {
    hide Accepted, ExecutesAfter;
    forall done, id, now | Outcomes(root, pushed, first)(done, id, now)
      ensures Acceptable(pushed)(id)
    {
      ExecutedIsAccepted(root, pushed, first, done, id, now);
    }
  }

  lemma ExecutedIsAccepted(root: RootFunction, pushed: Pushed, first: int, done: seq<Stack.Execution>, id: int,
                           now: int)
    requires IsRoot(root) && ExecutesAfter(root, pushed, first, done, id, now)
    ensures Accepted(OrderOf(pushed(id)))
  {
    var es := Executions(pushed, done + [Stack.Execution(id, now)]);
    hide Execute, Accepted, ReadyFor;
    IncreasingInit(es, first);
    var before := Runs.Run(root, NO_MARKET, first, es[..|es| - 1]).value;
    ReadyLater(before, NextId(es[..|es| - 1], first), pushed(id).id);
    var cs := ExecutesIff(root, before, pushed(id), now);
  }

  /** Any other primitive is executed at its turn, sooner or later: at the latest when
      the orders of the book are outdated. */
  lemma OutcomesGrant(root: RootFunction, pushed: Pushed, first: int)
    requires IsRoot(root) && Identified(pushed)
    ensures Stack.Grants(Outcomes(root, pushed, first), Acceptable(pushed), first)
  {
    var ok, accepts := Outcomes(root, pushed, first), Acceptable(pushed);
    hide Outcomes, Stack.AtTurn, Stack.SucceedsLater, Acceptable, Identified;
    forall done, id, now | Stack.AtTurn(ok, done, id, first) && accepts(id)
      ensures Stack.SucceedsLater(ok, done, id, now)
    {
      AcceptableExecutes(root, pushed, first, done, id, now);
    }
  }

  lemma AcceptableExecutes(root: RootFunction, pushed: Pushed, first: int, done: seq<Stack.Execution>, id: int,
                           now: int)
    requires IsRoot(root) && Identified(pushed) && Acceptable(pushed)(id)
    requires Stack.AtTurn(Outcomes(root, pushed, first), done, id, first)
    ensures Stack.SucceedsLater(Outcomes(root, pushed, first), done, id, now)
  {
    hide *;
    TurnParts(Outcomes(root, pushed, first), done, id, first);
    ExecutedRun(root, pushed, first, done);
    RunParts(root, pushed, first, done);
    EmptyExpires();
    var es := Executions(pushed, done);
    RunExpires(root, NO_MARKET, first, es);
    var m := Runs.Run(root, NO_MARKET, first, es).value;
    var t := Expiry(m.torder, now);
    ReadyAtTurn(pushed, first, done, id, t);
    ReadyLater(m, NextId(es, first), id);
    AcceptedIs(pushed, id);
    ExecutesLate(root, m, pushed(id), t);
    RunAppend(root, first, es, Execution(pushed(id), t));
    LaterIs(root, pushed, first, done, id, now, t);
  }

  lemma EmptyExpires()
    ensures Expires(NO_MARKET.torder)
  {}

  lemma AcceptedIs(pushed: Pushed, id: int)
    requires Identified(pushed)
    ensures Acceptable(pushed)(id) == Accepted(OrderOf(pushed(id))) && pushed(id).id == id
  {
    hide Accepted;
  }

  lemma TurnParts(ok: Stack.Success, done: seq<Stack.Execution>, id: int, first: int)
    requires Stack.AtTurn(ok, done, id, first)
    ensures Stack.Succeeded(ok, done) && Stack.StrictlyIncreasing(Stack.Ids(done) + [id])
    ensures forall i :: 0 <= i <= |done| ==> (Stack.Ids(done) + [id])[i] >= first
  {}

  /** The ids are in order, the one to come included. */
  lemma ReadyAtTurn(pushed: Pushed, first: int, done: seq<Stack.Execution>, id: int, t: int)
    requires Identified(pushed) && Stack.StrictlyIncreasing(Stack.Ids(done) + [id])
    requires forall i :: 0 <= i <= |done| ==> (Stack.Ids(done) + [id])[i] >= first
    ensures NextId(Executions(pushed, done), first) <= id
    ensures Executions(pushed, done + [Stack.Execution(id, t)]) ==
            Executions(pushed, done) + [Execution(pushed(id), t)]
    ensures Increasing(Executions(pushed, done) + [Execution(pushed(id), t)], first)
  {
    IdsIncrease(pushed, done, id);
    hide Stack.StrictlyIncreasing;
    var ids := Stack.Ids(done) + [id];
    var es := Executions(pushed, done) + [Execution(pushed(id), t)];
    assert |es| == |ids| && forall i :: 0 <= i < |es| ==> es[i].entry.id == ids[i];
    forall i, j | 0 <= i < j < |es|
      ensures es[i].entry.id < es[j].entry.id
    {
      assert ids[i] < ids[j];
    }
    assert forall i :: 0 <= i < |es| ==> es[i].entry.id >= first;
    assert ids[|done|] == id >= first;
    if |done| > 0 { assert ids[|done| - 1] == done[|done| - 1].id; }
    assert Executions(pushed, done + [Stack.Execution(id, t)]) == es;
  }

  /** The ids of the stack and those of the entries are the same. */
  lemma IdsIncrease(pushed: Pushed, done: seq<Stack.Execution>, id: int)
    requires Identified(pushed) && Stack.StrictlyIncreasing(Stack.Ids(done) + [id])
    ensures pushed(id).id == id && forall i :: 0 <= i < |done| ==> Executions(pushed, done)[i].entry.id == done[i].id
    ensures var ids := Stack.Ids(done) + [id];
            && (forall i, j :: 0 <= i < j < |ids| ==> ids[i] < ids[j])
            && (forall i :: 0 <= i < |done| ==> ids[i] == done[i].id < id)
  {
    var ids := Stack.Ids(done) + [id];
    forall i | 0 <= i < |done|
      ensures ids[i] == done[i].id < id
    {
      assert ids[i] < ids[|done|];
    }
  }

  lemma RunAppend(root: RootFunction, first: int, es: seq<Execution>, e: Execution)
    requires IsRoot(root) && ReadyFor(NO_MARKET, first) && Increasing(es, first) && Increasing(es + [e], first)
    requires Runs.Run(root, NO_MARKET, first, es).Ok?
    requires ReadyFor(Runs.Run(root, NO_MARKET, first, es).value, e.entry.id)
    requires Execute(root, Runs.Run(root, NO_MARKET, first, es).value, e.entry, e.now).Ok?
    ensures Runs.Run(root, NO_MARKET, first, es + [e]).Ok?
  {
    hide Execute, ReadyFor, Increasing, IsRoot;
    assert (es + [e])[..|es|] == es;
  }

  lemma LaterIs(root: RootFunction, pushed: Pushed, first: int, done: seq<Stack.Execution>, id: int, now: int, t: int)
    requires IsRoot(root) && now <= t
    requires Executions(pushed, done + [Stack.Execution(id, t)]) ==
             Executions(pushed, done) + [Execution(pushed(id), t)]
    requires var es := Executions(pushed, done) + [Execution(pushed(id), t)];
             Increasing(es, first) && ReadyFor(NO_MARKET, first) && Runs.Run(root, NO_MARKET, first, es).Ok?
    ensures Stack.SucceedsLater(Outcomes(root, pushed, first), done, id, now)
  {
    hide Runs.Run, Increasing, ReadyFor;
    assert Outcomes(root, pushed, first)(done, id, t);
  }

  // ---------------------------------------------------------------------------
  // The stack and the phases of a day on the market

  /** No pending primitive asks for what it provides. */
  ghost predicate AllAcceptable(pushed: Pushed, s: Stack.System) {
    forall i :: |s.done| <= i < |s.log| ==> Accepted(OrderOf(pushed(s.log[i])))
  }

  lemma AllAcceptableIs(pushed: Pushed, s: Stack.System)
    ensures AllAcceptable(pushed, s) <==> Stack.AllAccepted(Acceptable(pushed), s)
  {
    hide Accepted;
  }

  /** From a state of any day, some continuation executes all that is pending if and
      only if no pending primitive asks for what it provides. */
  lemma CanEmptyIff(root: RootFunction, pushed: Pushed, counter: int, first: int, now: int,
                    actions: seq<Stack.Action>)
    requires IsRoot(root) && Identified(pushed)
    requires Stack.After(Outcomes(root, pushed, first), Stack.Start(counter, first, now), actions).Some?
    ensures var ok := Outcomes(root, pushed, first);
            var s := Stack.After(ok, Stack.Start(counter, first, now), actions).value;
            Stack.CanEmpty(ok, s) <==> AllAcceptable(pushed, s)
  {
    hide *;
    var ok := Outcomes(root, pushed, first);
    OutcomesReject(root, pushed, first);
    OutcomesGrant(root, pushed, first);
    Stack.CanEmptyIff(ok, Acceptable(pushed), counter, first, now, actions);
    AllAcceptableIs(pushed, Stack.After(ok, Stack.Start(counter, first, now), actions).value);
  }

  /** An order or a quote that asks for what it provides is never executed, nor is
      anything committed after it, in any continuation and at any time. */
  lemma RejectedBlocks(root: RootFunction, pushed: Pushed, counter: int, first: int, now: int,
                       actions: seq<Stack.Action>, more: seq<Stack.Action>, i: nat)
    requires IsRoot(root)
    requires var ok := Outcomes(root, pushed, first);
             && Stack.After(ok, Stack.Start(counter, first, now), actions).Some?
             && var s := Stack.After(ok, Stack.Start(counter, first, now), actions).value;
             && Stack.After(ok, s, more).Some?
             && i < |s.log| && !Accepted(OrderOf(pushed(s.log[i])))
    ensures var ok := Outcomes(root, pushed, first);
            var s := Stack.After(ok, Stack.Start(counter, first, now), actions).value;
            var t := Stack.After(ok, s, more).value;
            |t.done| <= i && s.log[i] in t.stack && (i == |s.done| ==> t.done == s.done && t.exe == s.exe)
  {
    hide *;
    var ok := Outcomes(root, pushed, first);
    var s := Stack.After(ok, Stack.Start(counter, first, now), actions).value;
    OutcomesReject(root, pushed, first);
    Stack.StartInv(counter, first, now);
    Stack.ReachableInv(ok, Stack.Start(counter, first, now), actions, counter, first);
    NotYetExecuted(root, pushed, counter, first, now, actions, i);
    NotAcceptable(pushed, s.log[i]);
    Stack.NothingAfterRaising(ok, Acceptable(pushed), s, more, i, counter, first);
  }

  lemma NotAcceptable(pushed: Pushed, id: int)
    requires !Accepted(OrderOf(pushed(id)))
    ensures !Acceptable(pushed)(id)
  {}

  lemma NotYetExecuted(root: RootFunction, pushed: Pushed, counter: int, first: int, now: int,
                       actions: seq<Stack.Action>, i: nat)
    requires IsRoot(root)
    requires Stack.After(Outcomes(root, pushed, first), Stack.Start(counter, first, now), actions).Some?
    requires var s := Stack.After(Outcomes(root, pushed, first), Stack.Start(counter, first, now), actions).value;
             i < |s.log| && !Accepted(OrderOf(pushed(s.log[i])))
    ensures |Stack.After(Outcomes(root, pushed, first), Stack.Start(counter, first, now), actions).value.done| <= i
  {
    var ok := Outcomes(root, pushed, first);
    hide Accepted, ExecutesAfter, Stack.After, Stack.Start, Stack.Timed;
    Stack.Fifo(ok, counter, first, now, actions);
    var s := Stack.After(ok, Stack.Start(counter, first, now), actions).value;
    if i < |s.done| {
      assert Stack.Ids(s.done)[i] == s.log[i];
      assert ok(s.done[..i], s.done[i].id, s.done[i].now);
      ExecutedIsAccepted(root, pushed, first, s.done[..i], s.done[i].id, s.done[i].now);
    }
  }

  /** Asking for the very quality provided is enough, and nothing at submission
      prevents it: once such a primitive is committed, neither it nor anything
      committed after it is ever executed. */
  lemma SameQualityBlocks(root: RootFunction, pushed: Pushed, counter: int, first: int, now: int,
                          actions: seq<Stack.Action>, more: seq<Stack.Action>, i: nat)
    requires IsRoot(root)
    requires var ok := Outcomes(root, pushed, first);
             && Stack.After(ok, Stack.Start(counter, first, now), actions).Some?
             && var s := Stack.After(ok, Stack.Start(counter, first, now), actions).value;
             && Stack.After(ok, s, more).Some?
             && i < |s.log| && pushed(s.log[i]).quaRequ == pushed(s.log[i]).quaProv
    ensures var ok := Outcomes(root, pushed, first);
            var s := Stack.After(ok, Stack.Start(counter, first, now), actions).value;
            var t := Stack.After(ok, s, more).value;
            |t.done| <= i && s.log[i] in t.stack
  {
    hide *;
    var s := Stack.After(Outcomes(root, pushed, first), Stack.Start(counter, first, now), actions).value;
    SameQualityIsRejected(pushed(s.log[i]));
    RejectedBlocks(root, pushed, counter, first, now, actions, more, i);
  }

  lemma SameQualityIsRejected(e: Entry)
    requires e.quaRequ == e.quaProv
    ensures !Accepted(OrderOf(e))
  {}

  /** STACK_EXECUTED never decreases, in any interleaving of a day, if and only if every
      primitive with an id below the counters asks for what it provides. */
  lemma ExecutedGrowsIff(root: RootFunction, pushed: Pushed, counter: int, first: int, now: int)
    requires IsRoot(root) && Identified(pushed)
    ensures (forall actions ::
               Stack.NeverDecreases(Outcomes(root, pushed, first), Stack.Start(counter, first, now), actions)) <==>
            forall id :: first <= id < counter ==> !Accepted(OrderOf(pushed(id)))
  {
    hide *;
    var ok := Outcomes(root, pushed, first);
    OutcomesReject(root, pushed, first);
    OutcomesGrant(root, pushed, first);
    Stack.ExecutedGrowsIff(ok, counter, first, now);
    Stack.StartsBelowIff(ok, Acceptable(pushed), counter, first, now);
    forall id
      ensures Acceptable(pushed)(id) <==> Accepted(OrderOf(pushed(id)))
    {
      AcceptedIs(pushed, id);
    }
  }

  /** After the revocation phase 121 is never left, at any time, while a pending
      primitive asks for what it provides. */
  lemma StaysInPhase121(root: RootFunction, pushed: Pushed, now: int, es: seq<Phases.Event>, more: seq<Phases.Event>)
    requires IsRoot(root)
    requires var ok := Outcomes(root, pushed, 1);
             && Phases.JustRevoked(ok, now, es)
             && !AllAcceptable(pushed, Phases.AfterEvents(ok, Phases.StartOfDay(now), es).value.sys)
             && Phases.AfterEvents(ok, Phases.StartOfDay(now), es + more).Some?
    ensures Phases.AfterEvents(Outcomes(root, pushed, 1), Phases.StartOfDay(now), es + more).value.phase == 121
  {
    hide *;
    var ok := Outcomes(root, pushed, 1);
    RevokedIsSome(ok, now, es);
    OutcomesReject(root, pushed, 1);
    AllAcceptableIs(pushed, Phases.AfterEvents(ok, Phases.StartOfDay(now), es).value.sys);
    Phases.StaysInPhase121(ok, Acceptable(pushed), now, es, more);
  }

  lemma RevokedIsSome(ok: Stack.Success, now: int, es: seq<Phases.Event>)
    requires Phases.JustRevoked(ok, now, es)
    ensures Phases.AfterEvents(ok, Phases.StartOfDay(now), es).Some?
  {}

  /** After the revocation of the access of the clients, the closing can reach phase
      202 if and only if no primitive then pending asks for what it provides. */
  lemma ClosesIff(root: RootFunction, pushed: Pushed, now: int, es: seq<Phases.Event>)
    requires IsRoot(root) && Identified(pushed) && Phases.JustRevoked(Outcomes(root, pushed, 1), now, es)
    ensures var ok := Outcomes(root, pushed, 1);
            && Phases.AfterEvents(ok, Phases.StartOfDay(now), es).Some?
            && (Phases.CanClose(ok, now, es) <==>
                AllAcceptable(pushed, Phases.AfterEvents(ok, Phases.StartOfDay(now), es).value.sys))
  {
    hide *;
    var ok := Outcomes(root, pushed, 1);
    RevokedIsSome(ok, now, es);
    OutcomesReject(root, pushed, 1);
    OutcomesGrant(root, pushed, 1);
    AllAcceptableIs(pushed, Phases.AfterEvents(ok, Phases.StartOfDay(now), es).value.sys);
    Phases.ClosesIff(ok, Acceptable(pushed), now, es);
  }

  /** When the access of the clients is revoked, a committed primitive can still be
      truncated later in the day if and only if a push is in flight at that moment
      and no primitive then pending asks for what it provides. */
  lemma TruncatedIff(root: RootFunction, pushed: Pushed, now: int, es: seq<Phases.Event>)
    requires IsRoot(root) && Identified(pushed) && Phases.JustRevoked(Outcomes(root, pushed, 1), now, es)
    ensures var ok := Outcomes(root, pushed, 1);
            && |es| > 0 && Phases.AfterEvents(ok, Phases.StartOfDay(now), es[..|es| - 1]).Some?
            && var s := Phases.AfterEvents(ok, Phases.StartOfDay(now), es[..|es| - 1]).value.sys;
               Phases.CanBeTruncated(ok, now, es) <==> Phases.InFlight(s) && AllAcceptable(pushed, s)
  {
    hide *;
    var ok := Outcomes(root, pushed, 1);
    RevokedIsLong(ok, now, es);
    OutcomesReject(root, pushed, 1);
    OutcomesGrant(root, pushed, 1);
    Phases.TruncatedIff(ok, Acceptable(pushed), now, es);
    AllAcceptableIs(pushed, Phases.AfterEvents(ok, Phases.StartOfDay(now), es[..|es| - 1]).value.sys);
  }

  lemma RevokedIsLong(ok: Stack.Success, now: int, es: seq<Phases.Event>)
    requires Phases.JustRevoked(ok, now, es)
    ensures |es| > 0
  {}
}
