/** The phases of the first market day, interleaved with the pushes of the clients
    and the consumer of the stack. */
module Phases {
  import opened FlowTypes
  import opened Stack

  /** The reader of the counters: openclose reads STACK_TOP, then STACK_EXECUTED. */
  datatype Reader = NotReading | TopRead(top: int)

  /** The market of a day: its phase, the access of the clients, the stack. The
      history `open` tells whether a push was in flight when the access of the
      clients was revoked; `lost` holds the primitives truncated from the stack. */
  datatype Day = Day(
    phase: int,
    access: bool,
    sys: System,
    reader: Reader,
    open: bool,
    lost: set<int>)

  datatype Event =
    | Act(a: Action)     // a client or the consumer
    | EndOpening         // phase 102: the planned time is over
    | Revoke             // phase 120: the access of the clients is revoked
    | ReadTop            // phases 121 and 201: fstackdone
    | ReadExe
    | RemoveOrder        // phase 200: a primitive is pushed to remove an order
    | BookEmptied        // phase 200: no order is left to remove
    | Truncate           // phase 202: the stack is truncated, its sequence restarted

  /** A day starts in phase 102, with access, from counters at zero. */
  function StartOfDay(now: int): Day {
    Day(102, true, Start(0, 1, now), NotReading, false, {})
  }

  /** A push is in flight: a client has been let in, and its push is not over. */
  predicate InFlight(s: System) {
    s.calls > 0 || s.push != NoPush
  }

  /** A client calls with access only; what is started goes on. Truncation waits for
      the transactions that have written in the stack. */
  predicate CanHappen(ok: Success, d: Day, e: Event) {
    match e
    case Act(a) => Enabled(ok, d.sys, a) && (a.Call? ==> d.access)
    case EndOpening => d.phase == 102
    case Revoke => d.phase == 120
    case ReadTop => (d.phase == 121 || d.phase == 201) && d.reader == NotReading
    case ReadExe => d.reader.TopRead?
    case RemoveOrder => d.phase == 200 && d.sys.push == NoPush
    case BookEmptied => d.phase == 200
    case Truncate =>
      d.phase == 202 && !d.sys.push.Inserted? && !d.sys.push.Topped? && d.sys.consumer == Waiting
  }

  /** The push of a primitive in one transaction of openclose. */
  function PushAtOnce(s: System): System {
    s.(next := s.next + 1, top := s.next, stack := s.stack + {s.next}, log := s.log + [s.next])
  }

  function Happen(ok: Success, d: Day, e: Event): Day
    requires CanHappen(ok, d, e)
  {
    match e
    case Act(a) => d.(sys := Apply(ok, d.sys, a))
    case EndOpening => d.(phase := 120)
    case Revoke => d.(phase := 121, access := false, open := InFlight(d.sys))
    case ReadTop => d.(reader := TopRead(d.sys.top))
    case ReadExe =>
      if d.reader.top != d.sys.exe then d.(reader := NotReading)
      else d.(reader := NotReading, phase := if d.phase == 121 then 200 else 202)
    case RemoveOrder => d.(sys := PushAtOnce(d.sys))
    case BookEmptied => d.(phase := 201)
    case Truncate =>
      d.(phase := 203, lost := d.sys.stack, sys := d.sys.(stack := {}, next := 1))
  }

  /** The day after a list of events, when each can happen at its turn. */
  function AfterEvents(ok: Success, d: Day, es: seq<Event>): Option<Day> {
    if |es| == 0 then Some(d)
    else
      var n := |es| - 1;
      match AfterEvents(ok, d, es[..n])
      case None => None
      case Some(t) => if CanHappen(ok, t, es[n]) then Some(Happen(ok, t, es[n])) else None
  }

  // ---------------------------------------------------------------------------
  // Who can submit, and when

  /** The clients have access exactly in the phases 102 and 120. */
  ghost predicate AccessInv(d: Day) {
    && d.phase in {102, 120, 121, 200, 201, 202, 203}
    && (d.access <==> d.phase == 102 || d.phase == 120)
    && (d.reader.TopRead? ==> d.phase == 121 || d.phase == 201)
    && (d.phase != 203 ==> d.lost == {})
  }

  lemma AccessKept(ok: Success, d: Day, e: Event)
    requires AccessInv(d) && CanHappen(ok, d, e)
    ensures AccessInv(Happen(ok, d, e))
  {}

  lemma {:induction false} AccessAlways(ok: Success, now: int, es: seq<Event>)
    requires AfterEvents(ok, StartOfDay(now), es).Some?
    ensures AccessInv(AfterEvents(ok, StartOfDay(now), es).value)
  {
    hide AccessInv, Happen, CanHappen;
    if |es| > 0 {
      AccessAlways(ok, now, es[..|es| - 1]);
      AccessKept(ok, AfterEvents(ok, StartOfDay(now), es[..|es| - 1]).value, es[|es| - 1]);
    } else {
      AccessAtStart(now);
    }
  }

  lemma AccessAtStart(now: int)
    ensures AccessInv(StartOfDay(now))
  {}

  /** In every interleaving, a client can call exactly in the phases 102 and 120. */
  lemma ClientsSubmitIff(ok: Success, now: int, es: seq<Event>)
    requires AfterEvents(ok, StartOfDay(now), es).Some?
    ensures var d := AfterEvents(ok, StartOfDay(now), es).value;
            CanHappen(ok, d, Act(Call)) <==> d.phase in {102, 120}
  {
    AccessAlways(ok, now, es);
  }

  // ---------------------------------------------------------------------------
  // What the truncation finds

  /** No push was in flight at the revocation: then nothing but openclose pushes after
      it, and once the stack is seen purged it stays so. */
  ghost predicate ClosedInv(d: Day) {
    && (d.phase != 203 ==> Inv(d.sys, 0, 1))
    && (!d.open && !d.access ==> !InFlight(d.sys))
    && (!d.open && d.reader.TopRead? ==> d.reader.top == d.sys.top)
    && (!d.open && d.phase == 202 ==> d.sys.stack == {})
    && (!d.open ==> d.lost == {})
  }

  lemma PushAtOnceKeepsInv(s: System)
    requires Inv(s, 0, 1) && s.push == NoPush
    ensures Inv(PushAtOnce(s), 0, 1)
  {
    assert Pending(PushAtOnce(s)) == Pending(s) + [s.next];
  }

  lemma ClosedKeptByAct(ok: Success, d: Day, a: Action)
    requires AccessInv(d) && ClosedInv(d) && CanHappen(ok, d, Act(a)) && d.phase != 203
    ensures ClosedInv(Happen(ok, d, Act(a)))
  {
    StepKeepsInv(ok, d.sys, a, 0, 1);
    hide Inv;
  }

  lemma ClosedKept(ok: Success, d: Day, e: Event)
    requires AccessInv(d) && ClosedInv(d) && CanHappen(ok, d, e) && d.phase != 203
    ensures ClosedInv(Happen(ok, d, e))
  {
    match e {
      case Act(a) => ClosedKeptByAct(ok, d, a);
      case RemoveOrder => PushAtOnceKeepsInv(d.sys);
      case ReadExe =>
        InvDoneTells(d.sys, 0, 1);
        hide Inv;
      case _ =>
    }
  }

  /** The events of the first day: none after the truncation. */
  predicate FirstDay(es: seq<Event>) {
    forall i :: 0 <= i < |es| - 1 ==> es[i] != Truncate
  }

  lemma {:induction false} PhaseBeforeTruncate(ok: Success, now: int, es: seq<Event>)
    requires AfterEvents(ok, StartOfDay(now), es).Some? && forall i :: 0 <= i < |es| ==> es[i] != Truncate
    ensures AfterEvents(ok, StartOfDay(now), es).value.phase != 203
  {
    if |es| > 0 {
      PhaseBeforeTruncate(ok, now, es[..|es| - 1]);
    }
  }

  lemma {:induction false} ClosedAlways(ok: Success, now: int, es: seq<Event>)
    requires AfterEvents(ok, StartOfDay(now), es).Some? && FirstDay(es)
    ensures ClosedInv(AfterEvents(ok, StartOfDay(now), es).value)
  {
    hide AccessInv, Happen, CanHappen, ClosedInv;
    if |es| > 0 {
      var init, e := es[..|es| - 1], es[|es| - 1];
      ClosedAlways(ok, now, init);
      AccessAlways(ok, now, init);
      PhaseBeforeTruncate(ok, now, init);
      ClosedKept(ok, AfterEvents(ok, StartOfDay(now), init).value, e);
    } else {
      ClosedAtStart(now);
    }
  }

  lemma ClosedAtStart(now: int)
    ensures ClosedInv(StartOfDay(now))
  {
    StartInv(0, 1, now);
  }

  /** In every interleaving of the first day in which no push is in flight when the
      access of the clients is revoked, the truncation finds an empty stack. */
  lemma NothingIsTruncated(ok: Success, now: int, es: seq<Event>)
    requires AfterEvents(ok, StartOfDay(now), es).Some? && FirstDay(es)
    requires !AfterEvents(ok, StartOfDay(now), es).value.open
    ensures AfterEvents(ok, StartOfDay(now), es).value.lost == {}
  {
    ClosedAlways(ok, now, es);
  }

  // ---------------------------------------------------------------------------
  // Lists of events

  lemma EventAppend(ok: Success, d: Day, es: seq<Event>, e: Event)
    requires AfterEvents(ok, d, es).Some? && CanHappen(ok, AfterEvents(ok, d, es).value, e)
    ensures AfterEvents(ok, d, es + [e]) == Some(Happen(ok, AfterEvents(ok, d, es).value, e))
  {
    assert (es + [e])[..|es|] == es;
  }

  lemma {:induction false} EventsConcat(ok: Success, d: Day, es: seq<Event>, more: seq<Event>)
    requires AfterEvents(ok, d, es).Some?
    ensures AfterEvents(ok, d, es + more) == AfterEvents(ok, AfterEvents(ok, d, es).value, more)
  {
    hide Happen, CanHappen;
    if |more| == 0 {
      assert es + more == es;
    } else {
      assert (es + more)[..|es + more| - 1] == es + more[..|more| - 1];
      EventsConcat(ok, d, es, more[..|more| - 1]);
    }
  }

  lemma EventsPrepend(ok: Success, d: Day, e: Event, rest: seq<Event>)
    requires CanHappen(ok, d, e) && AfterEvents(ok, Happen(ok, d, e), rest).Some?
    ensures AfterEvents(ok, d, [e] + rest) == AfterEvents(ok, Happen(ok, d, e), rest)
  {
    hide Happen, CanHappen;
    assert [e][..0] == [];
    assert AfterEvents(ok, d, [e]) == Some(Happen(ok, d, e));
    EventsConcat(ok, d, [e], rest);
  }

  lemma JoinThree(ok: Success, d: Day, a: seq<Event>, b: seq<Event>, c: seq<Event>)
    requires AfterEvents(ok, d, a).Some? && AfterEvents(ok, AfterEvents(ok, d, a).value, b).Some?
    requires AfterEvents(ok, AfterEvents(ok, AfterEvents(ok, d, a).value, b).value, c).Some?
    ensures AfterEvents(ok, d, a + b + c) ==
            AfterEvents(ok, AfterEvents(ok, AfterEvents(ok, d, a).value, b).value, c)
  {
    EventsConcat(ok, d, a, b);
    EventsConcat(ok, d, a + b, c);
  }

  /** Steps of the consumer are events of the day. */
  function Acts(actions: seq<Action>): (es: seq<Event>)
    ensures |es| == |actions| && forall i :: 0 <= i < |es| ==> es[i] == Act(actions[i])
  {
    seq(|actions|, i requires 0 <= i < |actions| => Act(actions[i]))
  }

  lemma {:induction false} ActsHappen(ok: Success, d: Day, actions: seq<Action>)
    requires After(ok, d.sys, actions).Some? && forall i :: 0 <= i < |actions| ==> !actions[i].Call?
    ensures AfterEvents(ok, d, Acts(actions)) == Some(d.(sys := After(ok, d.sys, actions).value))
  {
    hide Apply, Enabled;
    if |actions| > 0 {
      var n := |actions| - 1;
      ActsHappen(ok, d, actions[..n]);
      assert Acts(actions)[..n] == Acts(actions[..n]);
    }
  }

  // ---------------------------------------------------------------------------
  // Closing after the revocation

  /** With equal counters openclose sees the stack purged. */
  lemma SeePurged(ok: Success, d: Day)
    requires d.phase in {121, 201} && d.reader == NotReading && StackDone(d.sys)
    ensures AfterEvents(ok, d, [ReadTop, ReadExe]) == Some(d.(phase := if d.phase == 121 then 200 else 202))
  {
    var t := d.(reader := TopRead(d.sys.top));
    NoEvent(ok, d);
    hide AfterEvents, Enabled, Apply;
    assert [] + [ReadTop] == [ReadTop] && [ReadTop] + [ReadExe] == [ReadTop, ReadExe];
    EventAppend(ok, d, [], ReadTop);
    EventAppend(ok, d, [ReadTop], ReadExe);
    assert Happen(ok, d, ReadTop) == t;
  }

  lemma NoEvent(ok: Success, d: Day)
    ensures AfterEvents(ok, d, []) == Some(d)
  {}

  /** With equal counters openclose goes from phase 121 to phase 202. */
  lemma Purge(ok: Success, d: Day) returns (es: seq<Event>)
    requires d.phase == 121 && d.reader == NotReading && StackDone(d.sys)
    ensures AfterEvents(ok, d, es) == Some(d.(phase := 202))
    ensures Truncate !in es
  {
    SeePurged(ok, d);
    EventAppend(ok, d.(phase := 200), [], BookEmptied);
    SeePurged(ok, d.(phase := 201));
    es := [ReadTop, ReadExe] + [BookEmptied] + [ReadTop, ReadExe];
    JoinThree(ok, d, [ReadTop, ReadExe], [BookEmptied], [ReadTop, ReadExe]);
  }

  function Stage(push: Push): nat {
    match push
    case Topped(_) => 1
    case Inserted(_) => 2
    case Locked => 3
    case NoPush => 4
  }

  /** A push in flight goes on to its commit. */
  lemma {:induction false} Arrive(ok: Success, d: Day) returns (es: seq<Event>)
    requires InFlight(d.sys)
    ensures AfterEvents(ok, d, es).Some?
    ensures var t := AfterEvents(ok, d, es).value;
            t == d.(sys := t.sys) && t.sys.push == NoPush && t.sys.consumer == d.sys.consumer && t.sys.stack != {}
    ensures Truncate !in es
    decreases Stage(d.sys.push)
  {
    var a := match d.sys.push case NoPush => Lock case Locked => Insert case Inserted(_) => SetTop case _ => Commit;
    if a == Commit {
      es := [Act(a)];
      EventAppend(ok, d, [], Act(a));
      assert d.sys.push.id in Happen(ok, d, Act(a)).sys.stack;
    } else {
      var rest := Arrive(ok, Happen(ok, d, Act(a)));
      EventsPrepend(ok, d, Act(a), rest);
      es := [Act(a)] + rest;
    }
  }

  /** A run of the first day that has just revoked the access of the clients. */
  ghost predicate JustRevoked(ok: Success, now: int, es: seq<Event>) {
    |es| > 0 && es[|es| - 1] == Revoke && FirstDay(es) && AfterEvents(ok, StartOfDay(now), es).Some?
  }

  /** The state at the revocation. */
  lemma RevokedState(ok: Success, now: int, es: seq<Event>)
    requires JustRevoked(ok, now, es)
    ensures AfterEvents(ok, StartOfDay(now), es[..|es| - 1]).Some?
    ensures var d := AfterEvents(ok, StartOfDay(now), es).value;
            && d.phase == 121 && d.reader == NotReading && Inv(d.sys, 0, 1)
            && d.sys == AfterEvents(ok, StartOfDay(now), es[..|es| - 1]).value.sys
            && d.open == InFlight(d.sys)
  {
    AccessAlways(ok, now, es[..|es| - 1]);
    ClosedAlways(ok, now, es);
    hide Inv;
  }

  /** When all that is pending is accepted, the closing can reach phase 202 with the
      push in flight where it was. */
  lemma ReachTruncation(ok: Success, accepts: Acceptance, d: Day) returns (es: seq<Event>)
    requires d.phase == 121 && d.reader == NotReading && Sound(ok, d.sys, 0, 1)
    requires Grants(ok, accepts, 1) && AllAccepted(accepts, d.sys)
    ensures AfterEvents(ok, d, es).Some? && Truncate !in es
    ensures var t := AfterEvents(ok, d, es).value;
            && t == d.(phase := 202, sys := t.sys)
            && t.sys.stack == {} && t.sys.consumer == Waiting && (InFlight(t.sys) <==> InFlight(d.sys))
  {
    hide Grants;
    var actions := Empties(ok, accepts, d.sys, 0, 1);
    SoundAfter(ok, d.sys, actions, 0, 1);
    ActsHappen(ok, d, actions);
    var t := d.(sys := After(ok, d.sys, actions).value);
    InvDoneTells(t.sys, 0, 1);
    hide Inv, Succeeded, AllAccepted;
    var purge := Purge(ok, t);
    es := Acts(actions) + purge;
    EventsConcat(ok, d, Acts(actions), purge);
  }

  /** While a primitive that is not accepted is pending since the revocation, openclose
      never sees the stack purged. */
  ghost predicate HeldUp(accepts: Acceptance, d: Day, i: nat, id: int) {
    && d.phase == 121 && !d.access
    && Inv(d.sys, 0, 1) && Blocked(accepts, d.sys, i, id)
    && (d.reader.TopRead? ==> d.reader.top >= id)
  }

  lemma BlockedCounters(accepts: Acceptance, s: System, i: nat, id: int)
    requires Inv(s, 0, 1) && Blocked(accepts, s, i, id)
    ensures s.exe < id <= s.top
  {
    if |s.done| > 0 { assert Ids(s.done)[|s.done| - 1] == s.log[|s.done| - 1]; }
  }

  lemma HeldUpKept(ok: Success, accepts: Acceptance, d: Day, e: Event, i: nat, id: int)
    requires Rejects(ok, accepts) && HeldUp(accepts, d, i, id) && CanHappen(ok, d, e)
    ensures HeldUp(accepts, Happen(ok, d, e), i, id)
  {
    BlockedCounters(accepts, d.sys, i, id);
    if e.Act? {
      StepKeepsInv(ok, d.sys, e.a, 0, 1);
      StepKeepsBlocked(ok, accepts, d.sys, e.a, i, id);
    }
    hide Inv, Blocked, Rejects;
  }

  lemma {:induction false} HeldUpForEver(ok: Success, accepts: Acceptance, d: Day, more: seq<Event>, i: nat, id: int)
    requires Rejects(ok, accepts) && HeldUp(accepts, d, i, id) && AfterEvents(ok, d, more).Some?
    ensures HeldUp(accepts, AfterEvents(ok, d, more).value, i, id)
  {
    hide HeldUp, Happen, CanHappen, Rejects;
    if |more| > 0 {
      HeldUpForEver(ok, accepts, d, more[..|more| - 1], i, id);
      HeldUpKept(ok, accepts, AfterEvents(ok, d, more[..|more| - 1]).value, more[|more| - 1], i, id);
    }
  }

  /** Some run reaches phase 202 by the end of `es`. */
  ghost predicate Closes(ok: Success, now: int, es: seq<Event>) {
    && FirstDay(es) && AfterEvents(ok, StartOfDay(now), es).Some?
    && AfterEvents(ok, StartOfDay(now), es).value.phase == 202
  }

  /** Some primitive is truncated by the end of `es`. */
  ghost predicate Truncated(ok: Success, now: int, es: seq<Event>) {
    FirstDay(es) && AfterEvents(ok, StartOfDay(now), es).Some? && AfterEvents(ok, StartOfDay(now), es).value.lost != {}
  }

  ghost predicate CanClose(ok: Success, now: int, es: seq<Event>) {
    exists more :: Closes(ok, now, es + more)
  }

  ghost predicate CanBeTruncated(ok: Success, now: int, es: seq<Event>) {
    exists more :: Truncated(ok, now, es + more)
  }

  lemma NoLaterTruncate(es: seq<Event>, more: seq<Event>)
    requires |es| > 0 && es[|es| - 1] == Revoke && FirstDay(es) && Truncate !in more
    ensures FirstDay(es + more) && FirstDay(es + (more + [Truncate]))
  {}

  /** After the revocation phase 121 is never left while a pending primitive is not
      accepted. */
  lemma StaysInPhase121(ok: Success, accepts: Acceptance, now: int, es: seq<Event>, more: seq<Event>)
    requires Rejects(ok, accepts) && JustRevoked(ok, now, es)
    requires !AllAccepted(accepts, AfterEvents(ok, StartOfDay(now), es).value.sys)
    requires AfterEvents(ok, StartOfDay(now), es + more).Some?
    ensures AfterEvents(ok, StartOfDay(now), es + more).value.phase == 121
  {
    var d := AfterEvents(ok, StartOfDay(now), es).value;
    RevokedState(ok, now, es);
    AccessAlways(ok, now, es);
    var i, id := NotAllAccepted(accepts, d.sys);
    hide Inv, Blocked, Rejects;
    assert HeldUp(accepts, d, i, id);
    EventsConcat(ok, StartOfDay(now), es, more);
    HeldUpForEver(ok, accepts, d, more, i, id);
  }

  /** What was executed by the revocation succeeded. */
  lemma {:induction false} SucceededAlways(ok: Success, now: int, es: seq<Event>)
    requires AfterEvents(ok, StartOfDay(now), es).Some?
    ensures Succeeded(ok, AfterEvents(ok, StartOfDay(now), es).value.sys.done)
  {
    hide Succeeded;
    if |es| > 0 {
      var init, e := es[..|es| - 1], es[|es| - 1];
      SucceededAlways(ok, now, init);
      if e.Act? { StepSucceeds(ok, AfterEvents(ok, StartOfDay(now), init).value.sys, e.a); }
    } else {
      NothingSucceeded(ok);
    }
  }

  lemma NothingSucceeded(ok: Success)
    ensures Succeeded(ok, [])
  {}

  /** After the revocation of the access of the clients, the closing can reach phase
      202 if and only if each primitive then pending is accepted. */
  lemma ClosesIff(ok: Success, accepts: Acceptance, now: int, es: seq<Event>)
    requires Rejects(ok, accepts) && Grants(ok, accepts, 1) && JustRevoked(ok, now, es)
    ensures CanClose(ok, now, es) <==> AllAccepted(accepts, AfterEvents(ok, StartOfDay(now), es).value.sys)
  {
    hide Rejects, Grants;
    var d := AfterEvents(ok, StartOfDay(now), es).value;
    RevokedState(ok, now, es);
    if AllAccepted(accepts, d.sys) {
      SucceededAlways(ok, now, es);
      var more := ReachTruncation(ok, accepts, d);
      NoLaterTruncate(es, more);
      EventsConcat(ok, StartOfDay(now), es, more);
      assert Closes(ok, now, es + more);
    } else {
      forall more
        ensures !Closes(ok, now, es + more)
      {
        if AfterEvents(ok, StartOfDay(now), es + more).Some? { StaysInPhase121(ok, accepts, now, es, more); }
      }
    }
  }

  lemma LoseThePush(ok: Success, accepts: Acceptance, now: int, es: seq<Event>)
    requires Grants(ok, accepts, 1) && JustRevoked(ok, now, es)
    requires AfterEvents(ok, StartOfDay(now), es).value.open
    requires AllAccepted(accepts, AfterEvents(ok, StartOfDay(now), es).value.sys)
    ensures CanBeTruncated(ok, now, es)
  {
    hide Grants;
    var d := AfterEvents(ok, StartOfDay(now), es).value;
    RevokedState(ok, now, es);
    SucceededAlways(ok, now, es);
    var closing := ReachTruncation(ok, accepts, d);
    hide Inv, AllAccepted, Succeeded;
    var t := AfterEvents(ok, d, closing).value;
    var arrive := Arrive(ok, t);
    EventsConcat(ok, d, closing, arrive);
    var more := closing + arrive;
    EventAppend(ok, d, more, Truncate);
    EventsConcat(ok, StartOfDay(now), es, more + [Truncate]);
    NoLaterTruncate(es, more);
    assert Truncated(ok, now, es + (more + [Truncate]));
  }

  /** The access is revoked once. */
  lemma {:induction false} OpenStays(ok: Success, d: Day, more: seq<Event>)
    requires AfterEvents(ok, d, more).Some? && d.phase !in {102, 120}
    ensures AfterEvents(ok, d, more).value.open == d.open && AfterEvents(ok, d, more).value.phase !in {102, 120}
  {
    if |more| > 0 {
      OpenStays(ok, d, more[..|more| - 1]);
    }
  }

  lemma NotTruncated(ok: Success, accepts: Acceptance, now: int, es: seq<Event>, more: seq<Event>)
    requires Rejects(ok, accepts) && JustRevoked(ok, now, es)
    requires var d := AfterEvents(ok, StartOfDay(now), es).value; !d.open || !AllAccepted(accepts, d.sys)
    ensures !Truncated(ok, now, es + more)
  {
    hide Rejects;
    var d := AfterEvents(ok, StartOfDay(now), es).value;
    if AfterEvents(ok, StartOfDay(now), es + more).Some? && FirstDay(es + more) {
      RevokedState(ok, now, es);
      EventsConcat(ok, StartOfDay(now), es, more);
      hide AllAccepted, Inv;
      if !d.open {
        OpenStays(ok, d, more);
        NothingIsTruncated(ok, now, es + more);
      } else {
        StaysInPhase121(ok, accepts, now, es, more);
        AccessAlways(ok, now, es + more);
      }
    }
  }

  /** When the access of the clients is revoked, a committed primitive can still be
      truncated later in the day if and only if a push is in flight at that moment
      and each primitive then pending is accepted. */
  lemma TruncatedIff(ok: Success, accepts: Acceptance, now: int, es: seq<Event>)
    requires Rejects(ok, accepts) && Grants(ok, accepts, 1) && JustRevoked(ok, now, es)
    ensures AfterEvents(ok, StartOfDay(now), es[..|es| - 1]).Some?
    ensures var s := AfterEvents(ok, StartOfDay(now), es[..|es| - 1]).value.sys;
            CanBeTruncated(ok, now, es) <==> InFlight(s) && AllAccepted(accepts, s)
  {
    hide Rejects, Grants;
    RevokedState(ok, now, es);
    var d := AfterEvents(ok, StartOfDay(now), es).value;
    if d.open && AllAccepted(accepts, d.sys) {
      LoseThePush(ok, accepts, now, es);
    } else {
      forall more
        ensures !Truncated(ok, now, es + more)
      {
        NotTruncated(ok, accepts, now, es, more);
      }
    }
  }

  // ---------------------------------------------------------------------------
  // What fstackdone reads

  predicate NoReadExe(es: seq<Event>) {
    forall i :: 0 <= i < |es| ==> es[i] != ReadExe
  }

  lemma ActsOnly(ok: Success, d: Day, e: Event)
    requires CanHappen(ok, d, e) && e != ReadExe && d.reader.TopRead? && d.phase in {121, 201} && Inv(d.sys, 0, 1)
    ensures var t := Happen(ok, d, e);
            t.reader == d.reader && t.phase == d.phase && d.sys.log <= t.sys.log && Inv(t.sys, 0, 1)
  {
    StepKeepsInv(ok, d.sys, e.a, 0, 1);
    hide Inv;
  }

  /** Between its two readings fstackdone keeps the first one, and the phase waits. */
  lemma {:induction false} WhileReading(ok: Success, d: Day, more: seq<Event>)
    requires AfterEvents(ok, d, more).Some? && NoReadExe(more) && d.reader.TopRead? && d.phase in {121, 201}
    requires Inv(d.sys, 0, 1)
    ensures var t := AfterEvents(ok, d, more).value;
            t.reader == d.reader && t.phase == d.phase && d.sys.log <= t.sys.log && Inv(t.sys, 0, 1)
  {
    hide Happen, CanHappen, Inv;
    if |more| > 0 {
      var n := |more| - 1;
      WhileReading(ok, d, more[..n]);
      ActsOnly(ok, AfterEvents(ok, d, more[..n]).value, more[n]);
    }
  }

  /** Two beginnings of an increasing history have the same last id only if they are one. */
  lemma SameLast(log: seq<int>, a: seq<int>, b: seq<int>)
    requires StrictlyIncreasing(log) && a <= log && b <= log && forall i :: 0 <= i < |log| ==> log[i] >= 1
    ensures Last(a, 0) == Last(b, 0) <==> a == b
  {
    if |a| < |b| { assert b[|b| - 1] == log[|b| - 1] && (|a| > 0 ==> a[|a| - 1] == log[|a| - 1]); }
    if |b| < |a| { assert a[|a| - 1] == log[|a| - 1] && (|b| > 0 ==> b[|b| - 1] == log[|b| - 1]); }
    if |a| == |b| { assert a == log[..|a|] == b; }
  }

  /** The two counters are equal when what is executed is what was committed then. */
  lemma CountersTell(was: System, s: System)
    requires Inv(was, 0, 1) && Inv(s, 0, 1) && was.log <= s.log
    ensures was.top == s.exe <==> Ids(s.done) == was.log
  {
    SameLast(s.log, was.log, Ids(s.done));
  }

  /** Phases 121 and 201 are left exactly when what has been executed at the reading of
      STACK_EXECUTED is what had been committed at that of STACK_TOP, whatever happens
      between the two; then comes phase 200, or 202. */
  lemma PhaseLeftIff(ok: Success, now: int, es: seq<Event>, more: seq<Event>)
    requires AfterEvents(ok, StartOfDay(now), es).Some? && forall i :: 0 <= i < |es| ==> es[i] != Truncate
    requires CanHappen(ok, AfterEvents(ok, StartOfDay(now), es).value, ReadTop) && NoReadExe(more)
    requires var d := Happen(ok, AfterEvents(ok, StartOfDay(now), es).value, ReadTop);
             AfterEvents(ok, d, more).Some? && CanHappen(ok, AfterEvents(ok, d, more).value, ReadExe)
    ensures var was := AfterEvents(ok, StartOfDay(now), es).value;
            var d := AfterEvents(ok, Happen(ok, was, ReadTop), more).value;
            Happen(ok, d, ReadExe).phase ==
            if Ids(d.sys.done) != was.sys.log then was.phase else if was.phase == 121 then 200 else 202
  {
    var was := AfterEvents(ok, StartOfDay(now), es).value;
    ClosedAlways(ok, now, es);
    PhaseBeforeTruncate(ok, now, es);
    hide Inv;
    WhileReading(ok, Happen(ok, was, ReadTop), more);
    var d := AfterEvents(ok, Happen(ok, was, ReadTop), more).value;
    CountersTell(was.sys, d.sys);
  }

  // ---------------------------------------------------------------------------
  // The next day

  /** The truncation restarts the sequence of ids and empties the stack, and no transaction
      that has written in it is open; but it leaves the counters of the day. */
  lemma TruncationLeaves(ok: Success, now: int, es: seq<Event>)
    requires AfterEvents(ok, StartOfDay(now), es).Some? && FirstDay(es) && |es| > 0 && es[|es| - 1] == Truncate
    ensures var s := AfterEvents(ok, StartOfDay(now), es).value.sys;
            && s.next == 1 && s.stack == {}
            && s.consumer == Waiting && (s.push == NoPush || s.push == Locked)
            && s.top == (if s.log == [] then 0 else s.log[|s.log| - 1])
            && s.exe == (if s.done == [] then 0 else s.done[|s.done| - 1].id)
            && (s.log == [] <==> s.top < s.next)
  {
    hide *;
    var n := |es| - 1;
    BeforeTruncate(es, es[..n]);
    LastEvent(ok, now, es);
    ClosedAlways(ok, now, es[..n]);
    PhaseBeforeTruncate(ok, now, es[..n]);
    var d := AfterEvents(ok, StartOfDay(now), es[..n]).value;
    ClosedIsInv(d);
    CountersOf(d.sys);
    TruncateIs(ok, d);
  }

  lemma BeforeTruncate(es: seq<Event>, init: seq<Event>)
    requires FirstDay(es) && |es| > 0 && init == es[..|es| - 1]
    ensures FirstDay(init) && forall i :: 0 <= i < |init| ==> init[i] != Truncate
  {}

  lemma LastEvent(ok: Success, now: int, es: seq<Event>)
    requires AfterEvents(ok, StartOfDay(now), es).Some? && |es| > 0
    ensures AfterEvents(ok, StartOfDay(now), es[..|es| - 1]).Some?
    ensures var d := AfterEvents(ok, StartOfDay(now), es[..|es| - 1]).value;
            && CanHappen(ok, d, es[|es| - 1])
            && AfterEvents(ok, StartOfDay(now), es).value == Happen(ok, d, es[|es| - 1])
  {
    hide CanHappen, Happen;
  }

  lemma ClosedIsInv(d: Day)
    requires ClosedInv(d) && d.phase != 203
    ensures Inv(d.sys, 0, 1)
  {
    hide Inv;
  }

  lemma CountersOf(s: System)
    requires Inv(s, 0, 1)
    ensures s.top == (if s.log == [] then 0 else s.log[|s.log| - 1]) && (s.log == [] <==> s.top < 1)
    ensures s.exe == (if s.done == [] then 0 else s.done[|s.done| - 1].id)
  {
    hide FifoInv, PushInv;
  }

  lemma TruncateIs(ok: Success, d: Day)
    requires CanHappen(ok, d, Truncate)
    ensures var s := Happen(ok, d, Truncate).sys;
            && s.next == 1 && s.stack == {} && s.consumer == Waiting && (s.push == NoPush || s.push == Locked)
            && s.log == d.sys.log && s.done == d.sys.done && s.top == d.sys.top && s.exe == d.sys.exe
  {}

  /** With the counters and the sequence that a first day leaves, fstackdone tells over the
      next day whether a primitive is pending, in every interleaving, if and only if
      nothing was committed on the first day. */
  lemma NextDayTrustedIff(ok: Success, now: int, es: seq<Event>, later: int)
    requires AfterEvents(ok, StartOfDay(now), es).Some? && FirstDay(es) && |es| > 0 && es[|es| - 1] == Truncate
    ensures var s := AfterEvents(ok, StartOfDay(now), es).value.sys;
            s.log == [] <==>
            forall actions :: After(ok, Start(s.top, s.next, later), actions).Some? ==>
              DoneTells(After(ok, Start(s.top, s.next, later), actions).value)
  {
    hide *;
    TruncationLeaves(ok, now, es);
    var s := AfterEvents(ok, StartOfDay(now), es).value.sys;
    StackDoneIff(ok, s.top, s.next, later);
  }
}
