/** The first of the example sessions: a bilateral exchange between two limit orders. */
module Examples {
  import opened Numeric
  import opened FlowTypes
  import opened Owners
  import opened Gains
  import ExactFlow
  import opened Kernel
  import opened Guarantees
  import opened Yflow
  import opened Orders
  import opened Search
  import opened Cycles
  import opened Matching
  import opened Exchange
  import opened MarketRuns
  import Conservation
  import opened Primitives
  import opened Freshness
  import opened Runs
  import opened Histories
  import opened Integral
  import opened Verdicts

  // ---------------------------------------------------------------------------
  // The kernel on the two orders

  /** One asks 5 for 10, and the other asks 10 for 20, of different owners. */
  predicate Bilateral(x: seq<Tfl>) {
    && |x| == 2 && x[0].kind == 1 && x[1].kind == 1
    && x[0].own != x[1].own && x[0].oid != x[1].oid
    && x[0].qttRequ == 5 && x[0].qttProv == 10 && x[0].qtt == 10 && x[0].proba > 0.0
    && x[1].qttRequ == 10 && x[1].qttProv == 20 && x[1].qtt == 20 && x[1].proba > 0.0
  }

  lemma BilateralIsPlain(x: seq<Tfl>)
    requires Bilateral(x)
    ensures Plain(x) && Ready(x, false) && Opened(x) == x && !IgnoresOmega(x) && !IgnoresQtt(x)
    ensures 2 <= |x| <= FLOW_MAX_DIM && DistinctOids(x) && NonNegative(x) && !SomeStockEmpty(x)
  {}

  lemma BilateralPrices(x: seq<Tfl>)
    requires Bilateral(x)
    ensures AllPriced(x, false) && Omegas(x, false) == [2.0, 2.0] && ProdOmega(x, false) == 4.0
  {
    BilateralIsPlain(x);
    OmegaAt(x, false, 0);
    OmegaAt(x, false, 1);
    assert Omegas(x, false) == [2.0] + [2.0];
    ProdSnoc([2.0], 2.0);
    ProdSnoc([], 2.0);
    assert [] + [2.0] == [2.0];
    ProdOfOmegas(x, false);
  }

  lemma BilateralOwners(x: seq<Tfl>)
    requires Bilateral(x)
    ensures Grouped(x) == Grouping(2, [0, 1])
  {
    var own := OwnersOf(x);
    assert own == [x[0].own, x[1].own];
    assert FindClass(own, 0, 0, 0) == 0;
    assert Group(own, 1) == Grouping(1, [0]);
    assert FindClass(own, 1, 0, 1) == 1;
    assert Group(own, 2) == Grouping(2, [0, 1]);
  }

  lemma RootOfFour(root: RootFunction)
    requires IsRoot(root)
    ensures root(4.0, 2) == 2.0
  {
    var r := root(4.0, 2);
    assert Pow(2.0, 1) == 2.0 && Pow(2.0, 2) == 4.0;
    if r < 2.0 { PowStrict(r, 2.0, 2); }
    if r > 2.0 { PowStrict(2.0, r, 2); }
  }

  /** Of the gain of 4 each owner takes 2, and the prices become one. */
  lemma BilateralCorrected(root: RootFunction, x: seq<Tfl>)
    requires IsRoot(root) && Bilateral(x)
    ensures Ready(x, false) && Corrected(root, x, false)[1] == 1.0
  {
    BilateralIsPlain(x);
    BilateralPrices(x);
    BilateralOwners(x);
    RootOfFour(root);
    var g := Grouped(x);
    assert Count([0, 1], 1) == 1 by { assert [0, 1][..1] == [0]; assert [0][..0] == []; }
    assert NodeGains(root, 4.0, g)[1] == 2.0;
    hide NodeGains, Omegas, Grouped, Ready, Bilateral;
    assert OmegaCorrige(root, Omegas(x, false), g, 4.0)[1] * 2.0 == Omegas(x, false)[1];
  }

  lemma BilateralExact(root: RootFunction, x: seq<Tfl>)
    requires IsRoot(root) && Bilateral(x)
    ensures Ready(x, false) && Exact(root, x, false) == [10.0, 10.0]
  {
    BilateralIsPlain(x);
    BilateralCorrected(root, x);
    ExactFits(root, x, false);
    ExactCloses(root, x, false, 1);
    hide Exact, Exhausted, Corrected, Ready, IsRoot;
    var f := Exact(root, x, false);
    assert f[1] == 1.0 * f[0];
    assert f[0] <= 10.0;
  }

  lemma BilateralExchangeable(x: seq<Tfl>)
    requires Bilateral(x)
    ensures AllPriced(x, false) && Exchangeable(x, [10, 10], false)
  {
    BilateralIsPlain(x);
  }

  /** The kernel lets each give 10. */
  lemma BilateralDraft(root: RootFunction, f: Tflow)
    requires IsRoot(root) && Bilateral(f.x)
    ensures FlowcMaximum(root, f) == Ok(Computed(Draft, FlowRecord(f.x, [10, 10])))
  {
    BilateralIsPlain(f.x);
    BilateralPrices(f.x);
    BilateralExact(root, f.x);
    BilateralExchangeable(f.x);
    hide Exact, Ready, Rounded, Exchangeable, IsRoot, Plain, Bilateral, Opened, Omegas, ProdOmega, CalType;
    hide DistinctOids, NonNegative, SomeStockEmpty, IgnoresOmega, IgnoresQtt, AllPriced, Settled;
    IntegralFlowIsKept(root, f.x, false, [10, 10]);
    ReadyStocked(f.x);
  }

  lemma ReadyStocked(x: seq<Tfl>)
    requires Ready(x, false)
    ensures |x| >= 2 && ExactFlow.Stocked(x)
  {}

  // ---------------------------------------------------------------------------
  // The search in a book of one order

  lemma FewRows(book: seq<Row>, y: Path, now: int)
    requires |book| <= 1 && JoinRows(book, y, now).Ok?
    ensures |JoinRows(book, y, now).value| <= 1
  {
    if |book| == 1 {
      assert book[..0] == [];
      assert JoinRows(book[..0], y, now) == Ok([]);
    }
  }

  lemma {:induction false} FewNext(book: seq<Row>, level: seq<Path>, now: int)
    requires |book| <= 1 && NextLevel(book, level, now).Ok?
    ensures |NextLevel(book, level, now).value| <= |level|
  {
    hide JoinRows;
    if |level| > 0 {
      FewNext(book, level[..|level| - 1], now);
      FewRows(book, level[|level| - 1], now);
    }
  }

  lemma {:induction false} FewPaths(book: seq<Row>, level: seq<Path>, depth: nat, now: int)
    requires |book| <= 1 && |level| <= 1 && depth <= MAXCYCLE && SearchFrom(book, level, depth, now).Ok?
    ensures |SearchFrom(book, level, depth, now).value| <= MAXCYCLE - depth + 1
    decreases MAXCYCLE - depth
  {
    hide NextLevel;
    if depth < MAXCYCLE {
      FewNext(book, level, now);
      FewPaths(book, NextLevel(book, level, now).value, depth + 1, now);
    }
  }

  /** In a book of one order the limit of the query is not hit. */
  lemma SmallSearch(root: RootFunction, book: seq<Row>, o: Order, now: int, c: Tflow)
    requires IsRoot(root) && UniqueIds(book, o) && PlainOrders(book, o) && |book| <= 1
    requires FcreateTmp(root, book, o, now).Ok?
    ensures SoundCycle(root, book, o, now, c) <==> c in FcreateTmp(root, book, o, now).value
  {
    hide *;
    SearchIsChains(book, o, now);
    OneFirst(o);
    FewPaths(book, FirstLevel(o), 1, now);
    FcreateTmpComplete(root, book, o, now, c);
  }

  lemma OneFirst(o: Order)
    ensures |FirstLevel(o)| == 1 && MAXCYCLE <= 1024 && 1 <= MAXCYCLE
  {}

  // ---------------------------------------------------------------------------
  // Insertions

  /** An order that finds nothing is put in the book. */
  lemma FindsNothing(root: RootFunction, m: Market, r: Row, now: int)
    requires IsRoot(root) && ValidBook(m.torder) && NewOrder(m.torder, r.ord) && Accepted(r.ord)
    requires FcreateTmp(root, m.torder + [r], r.ord, now) == Ok([])
    ensures InsertOrder(root, m, r, now) == Ok(Outcome(m.(torder := m.torder + [r]), NOTHING, []))
  {
    NoneExecutable();
    InsertLoopStops(root, m.(torder := m.torder + [r]), r.ord, [], 0, NOTHING, []);
    NothingYet();
    hide FcreateTmp, ValidBook, NewOrder, InsertLoop, Accepted, AboveLimit, AllExecutable;
  }

  lemma NoneExecutable()
    ensures AllExecutable([])
  {}

  lemma NothingToFind(root: RootFunction, m: Market, r: Row, now: int)
    requires IsRoot(root) && ValidBook(m.torder) && NewOrder(m.torder, r.ord) && Accepted(r.ord)
    requires NoneLive(m.torder, now)
    ensures InsertOrder(root, m, r, now) == Ok(Outcome(m.(torder := m.torder + [r]), NOTHING, []))
  {
    hide *;
    NewTable(root, m.torder, r, now);
    NewOrderUnique(m.torder, r.ord);
    FcreateTmpSound(root, m.torder, r.ord, now);
    CyclesAreLive(root, m.torder, r.ord, now, FcreateTmp(root, m.torder, r.ord, now).value);
    FindsNothing(root, m, r, now);
  }

  /** A table in which all rows are one cycle: it is executed once. */
  lemma OneCycle(root: RootFunction, m: Market, r: Row, now: int, c: Tflow)
    requires IsRoot(root) && ValidBook(m.torder) && NewOrder(m.torder, r.ord) && Accepted(r.ord)
    requires FcreateTmp(root, m.torder, r.ord, now).Ok? && c in FcreateTmp(root, m.torder, r.ord, now).value
    requires forall d :: d in FcreateTmp(root, m.torder, r.ord, now).value ==> d == c
    requires |c.x| == |c.flowr| == 2 && 0 < c.flowr[0] < 0x1000 && 0 < c.flowr[1] < 0x1000
    ensures InsertOrder(root, m, r, now).Ok? && InsertOrder(root, m, r, now).value.cycles == [c]
    ensures IsDraft(c) && ExecuteCycle(m.(torder := m.torder + [r]), r.ord, c).Ok?
    ensures InsertOrder(root, m, r, now).value.market ==
            ExecuteCycle(m.(torder := m.torder + [r]), r.ord, c).value
  {
    hide *;
    var b, o := m.torder + [r], r.ord;
    var m0 := m.(torder := b);
    NewTable(root, m.torder, r, now);
    NewTableCoherent(root, m.torder, r, now);
    NewTableExecutable(root, m.torder, r, now);
    var tmp := FcreateTmp(root, b, o, now).value;
    assert tmp != [];
    BestIsDraft(root, tmp);
    assert Best(root, tmp) == c;
    RoundOnMarket(root, m0, o, StockOf(b), tmp, c);
    NothingYet();
    SmallFlows(c);
    AllSpent(root, tmp, c);
    var none: seq<Tflow> := [];
    assert none + [c] == [c];
    InsertLoopTurn(root, m0, o, tmp, 0, NOTHING, none);
    var m1 := ExecuteCycle(m0, o, c).value;
    NoneExecutable();
    InsertLoopStops(root, m1, o, [], 2, AddUp(NOTHING, c).value, [c]);
    var cs := InsertOrderRuns(root, m, r, now, "");
    MustSucceed(root, m, r, now, tmp, Outcome(m1, AddUp(NOTHING, c).value, [c]));
    InsertOrderIsLoop(root, m, r, now);
  }

  lemma SmallFlows(c: Tflow)
    requires |c.x| == |c.flowr| == 2 && 0 < c.flowr[0] < 0x1000 && 0 < c.flowr[1] < 0x1000
    ensures AddUp(NOTHING, c) == Ok(Totals(c.flowr[0], c.flowr[1])) && 2 <= MAXMVTPERTRANS
  {}

  /** Every row is the executed cycle, and none is left. */
  lemma AllSpent(root: RootFunction, tmp: seq<Tflow>, c: Tflow)
    requires IsRoot(root) && AllExecutable(tmp) && Executable(c) && UpdateAll(root, tmp, c, false).Ok?
    requires forall d :: d in tmp ==> d == c
    ensures Drafts(UpdateAll(root, tmp, c, false).value) == []
  {
    var us := UpdateAll(root, tmp, c, false).value;
    hide Executable, Reduce, UpdateAll, IsDraft, IsRoot;
    forall k | 0 <= k < |us|
      ensures !IsDraft(us[k])
    {
      UpdateAllAt(root, tmp, c, false, k);
      assert tmp[k] in tmp;
      SpentIsDropped(root, c, false);
    }
    NoDraftLeft(us);
  }

  lemma {:induction false} NoDraftLeft(us: seq<Tflow>)
    requires forall k :: 0 <= k < |us| ==> !IsDraft(us[k])
    ensures Drafts(us) == []
  {
    hide IsDraft;
    if |us| > 0 { NoDraftLeft(us[..|us| - 1]); }
  }

  /** The loop has an outcome within range, so the insertion succeeds. */
  lemma MustSucceed(root: RootFunction, m: Market, r: Row, now: int, tmp: seq<Tflow>, e: Outcome)
    requires IsRoot(root) && ValidBook(m.torder) && NewOrder(m.torder, r.ord) && Accepted(r.ord)
    requires FcreateTmp(root, m.torder + [r], r.ord, now) == Ok(tmp) && AllExecutable(tmp)
    requires InsertLoop(root, m.(torder := m.torder + [r]), r.ord, tmp, 0, NOTHING, []) == Ok(e)
    requires InsertOrder(root, m, r, now).Err? ==> InsertOrder(root, m, r, now) == Err(OutOfRange)
    ensures InsertOrder(root, m, r, now).Ok?
  {
    hide FcreateTmp, ValidBook, NewOrder, InsertLoop, Accepted, AboveLimit, AllExecutable;
  }

  // ---------------------------------------------------------------------------
  // The session

  /** The two orders of the session, whoever submits them. */
  predicate Session(e: Entry, f: Entry) {
    && e.isOrder && e.isLimit && e.quaRequ == "a" && e.qttRequ == 5 && e.quaProv == "b" && e.qttProv == 10
    && f.isOrder && f.isLimit && f.quaRequ == "b" && f.qttRequ == 10 && f.quaProv == "a" && f.qttProv == 20
    && e.wid != f.wid && e.id < f.id
  }

  lemma LettersDiffer()
    ensures Stars("a") == 0 && Stars("b") == 0 && "a" != "b"
    ensures MatchQuality("a", "a") && MatchQuality("b", "b") && !MatchQuality("a", "b") && !MatchQuality("b", "a")
  {
    assert "a"[0] != "b"[0];
  }

  lemma BothAccepted(e: Entry, f: Entry)
    requires Session(e, f)
    ensures Accepted(OrderOf(e)) && Accepted(OrderOf(f)) && Matches(OrderOf(e), OrderOf(f))
    ensures Matches(OrderOf(f), OrderOf(e))
  {
    LettersDiffer();
    hide MatchQuality;
  }

  lemma FirstIsNew(e: Entry, n: int)
    requires n <= e.id
    ensures ReadyFor(NO_MARKET, n) && ReadyFor(NO_MARKET, e.id) && NoneLive(NO_MARKET.torder, 0)
    ensures NewOrder(NO_MARKET.torder, OrderOf(e)) && ValidBook(NO_MARKET.torder)
    ensures NO_MARKET.torder + [RowOfEntry(e)] == [RowOfEntry(e)]
  {}

  /** The market after the first order. */
  function WithFirstOrder(e: Entry): Market {
    Market([RowOfEntry(e)], [], 1)
  }

  lemma FirstWaits(root: RootFunction, e: Entry, f: Entry, t: int)
    requires IsRoot(root) && Session(e, f)
    ensures ReadyFor(NO_MARKET, e.id) && Execute(root, NO_MARKET, e, t) == Ok(WithFirstOrder(e))
    ensures ReadyFor(WithFirstOrder(e), e.id + 1) && ReadyFor(WithFirstOrder(e), f.id)
  {
    FirstIsNew(e, e.id);
    BothAccepted(e, f);
    hide ValidBook, NewOrder, Accepted, FcreateTmp, Matches;
    NothingToFind(root, NO_MARKET, RowOfEntry(e), t);
    ExecuteIs(root, NO_MARKET, e, t);
    ReadyLater(WithFirstOrder(e), e.id + 1, f.id);
  }

  lemma StartsDiffer(book: seq<Row>, o: Order, t: int, os: seq<Order>)
    requires Chain(book, o, t, os) && |os| > 2
    ensures os[0] != os[1]
  {
    hide Matches;
  }

  lemma InBookOfOne(r: Row, t: int, o: Order)
    requires InBook([r], t, o)
    ensures o == r.ord
  {}

  /** The only chain of orders that closes is the pair. */
  lemma PairOnly(e: Entry, f: Entry, t: int, os: seq<Order>)
    requires Chain([RowOfEntry(e)], OrderOf(f), t, os) && |os| >= 2
    ensures os == [OrderOf(e), OrderOf(f)]
  {
    hide Matches, InBook;
    var book, o := [RowOfEntry(e)], OrderOf(f);
    if |os| > 2 { StartsDiffer(book, o, t, os); }
    forall i | 0 <= i < |os| - 1
      ensures os[i] == OrderOf(e)
    {
      InBookOfOne(RowOfEntry(e), t, os[i]);
    }
  }

  lemma PairChain(e: Entry, f: Entry, t: int)
    requires Session(e, f) && t < e.submitted + 86400
    ensures Chain([RowOfEntry(e)], OrderOf(f), t, [OrderOf(e), OrderOf(f)])
  {
    BothAccepted(e, f);
    hide Matches;
    var book := [RowOfEntry(e)];
    assert book[0].ord == OrderOf(e) && t < book[0].deadline.value;
    assert InBook(book, t, OrderOf(e));
  }

  /** The cycle of the pair. */
  function PairFlow(e: Entry, f: Entry): Tflow {
    FlowRecord(ClosedNodes([OrderOf(e), OrderOf(f)]), [10, 10])
  }

  lemma PairIsBilateral(e: Entry, f: Entry)
    requires Session(e, f)
    ensures Bilateral(PairFlow(e, f).x) && |PairFlow(e, f).x| == 2 && PairFlow(e, f).flowr == [10, 10]
  {}

  lemma PairIsRecorded(root: RootFunction, e: Entry, f: Entry)
    requires IsRoot(root) && Session(e, f)
    ensures Bilateral(PairFlow(e, f).x) && Recorded(root, PairFlow(e, f)) && |PairFlow(e, f).x| == 2
  {
    hide *;
    PairIsBilateral(e, f);
    RecordedIf(root, PairFlow(e, f));
  }

  lemma RecordedIf(root: RootFunction, c: Tflow)
    requires IsRoot(root) && Bilateral(c.x) && c.flowr == [10, 10]
    ensures Recorded(root, c)
  {
    BilateralDraft(root, c);
    BilateralIsRegular(c);
    hide FlowcMaximum, Bilateral, Regular;
    assert FlowRecord(c.x, [10, 10]) == c;
  }

  lemma BilateralIsRegular(c: Tflow)
    requires Bilateral(c.x) && c.flowr == [10, 10]
    ensures Regular(c.x) && IsDraft(c)
  {
    assert forall i :: 0 <= i < 2 ==> PlainNode(c.x[i]);
  }

  /** A cycle with these nodes is the cycle of the pair. */
  lemma RecordedOnce(root: RootFunction, e: Entry, f: Entry, c: Tflow)
    requires IsRoot(root) && Session(e, f) && Recorded(root, c) && c.x == PairFlow(e, f).x
    ensures c == PairFlow(e, f)
  {
    PairIsRecorded(root, e, f);
    hide FlowcMaximum, Regular, IsDraft;
    FlowrNotRead(root, c, PairFlow(e, f));
  }

  lemma PairFound(root: RootFunction, e: Entry, f: Entry, t: int, c: Tflow)
    requires IsRoot(root) && Session(e, f) && t < e.submitted + 86400
    ensures SoundCycle(root, [RowOfEntry(e)], OrderOf(f), t, c) <==> c == PairFlow(e, f)
  {
    var book, o := [RowOfEntry(e)], OrderOf(f);
    BothAccepted(e, f);
    PairChain(e, f, t);
    PairIsRecorded(root, e, f);
    hide Recorded, Chain, Matches, Bilateral;
    if c == PairFlow(e, f) { assert IsCycleOf(root, book, o, t, c, [OrderOf(e), OrderOf(f)]); }
    if os :| IsCycleOf(root, book, o, t, c, os) {
      PairOnly(e, f, t, os);
      RecordedOnce(root, e, f, c);
    }
  }

  /** What the second order does to the market. */
  lemma SecondTrades(root: RootFunction, e: Entry, f: Entry, t: int)
    requires IsRoot(root) && Session(e, f) && t < e.submitted + 86400
    requires ReadyFor(WithFirstOrder(e), f.id)
    ensures var m := Market([RowOfEntry(e), RowOfEntry(f)], [], 1);
            var c := PairFlow(e, f);
            && IsDraft(c) && ExecuteCycle(m, OrderOf(f), c).Ok?
            && Execute(root, WithFirstOrder(e), f, t) == Ok(ExecuteCycle(m, OrderOf(f), c).value)
  {
    hide *;
    var m, r, c := WithFirstOrder(e), RowOfEntry(f), PairFlow(e, f);
    ReadyIsValid(m, f.id);
    EntryIsNew(m, f);
    BothAccepted(e, f);
    NewTable(root, m.torder, r, t);
    NewOrderUnique(m.torder, r.ord);
    BookOfFirst(e, f);
    forall d
      ensures d in FcreateTmp(root, m.torder, r.ord, t).value <==> d == c
    {
      PairFound(root, e, f, t, d);
      SmallSearch(root, m.torder, r.ord, t, d);
    }
    OneCycle(root, m, r, t, c);
    ExecuteIs(root, m, f, t);
  }

  lemma BookOfFirst(e: Entry, f: Entry)
    requires Session(e, f)
    ensures WithFirstOrder(e).torder == [RowOfEntry(e)] && |WithFirstOrder(e).torder| <= 1
    ensures WithFirstOrder(e).(torder := WithFirstOrder(e).torder + [RowOfEntry(f)])
            == Market([RowOfEntry(e), RowOfEntry(f)], [], 1)
    ensures |PairFlow(e, f).x| == |PairFlow(e, f).flowr| == 2
    ensures 0 < PairFlow(e, f).flowr[0] < 0x1000 && 0 < PairFlow(e, f).flowr[1] < 0x1000
    ensures f.isOrder
  {
    assert [RowOfEntry(e)] + [RowOfEntry(f)] == [RowOfEntry(e), RowOfEntry(f)];
  }

  /** What the second order is told, and what the first one is. */
  lemma SecondIsTold(root: RootFunction, e: Entry, f: Entry, t: int)
    requires IsRoot(root) && Session(e, f) && t < e.submitted + 86400
    requires ReadyFor(WithFirstOrder(e), f.id)
    ensures Execute(root, WithFirstOrder(e), f, t).Ok?
    ensures var m := Execute(root, WithFirstOrder(e), f, t).value;
            && Gave(m.tmsg, e.id) == Got(m.tmsg, e.id) == 10 && Gave(m.tmsg, f.id) == Got(m.tmsg, f.id) == 10
            && TwoMessages(m.tmsg, f)
  {
    hide *;
    var m, r, c := WithFirstOrder(e), RowOfEntry(f), PairFlow(e, f);
    SecondTrades(root, e, f, t);
    ReadyIsValid(m, f.id);
    EntryIsNew(m, f);
    BothAccepted(e, f);
    BookOfFirst(e, f);
    NewTable(root, m.torder, r, t);
    NewOrderUnique(m.torder, r.ord);
    PairFound(root, e, f, t, c);
    SmallSearch(root, m.torder, r.ord, t, c);
    NewTableCoherent(root, m.torder, r, t);
    var b := m.torder + [r];
    var m0 := m.(torder := b);
    var tmp := FcreateTmp(root, b, r.ord, t).value;
    CoherentParts(root, b, r.ord, StockOf(b), tmp);
    var j :| 0 <= j < |tmp| && tmp[j] == c;
    CachedAt(root, r.ord, StockOf(b), tmp, j);
    BestInTheBook(b, tmp, c);
    ValidIsUnique(b);
    NodesOfPair(e, f);
    EachIsTold(m0, r.ord, StockOf(b), root, c, 0);
    EachIsTold(m0, r.ord, StockOf(b), root, c, 1);
    CycleMessages(m0, r.ord, c);
    NumbersOfPair(m0, ExecuteCycle(m0, r.ord, c).value, e, f);
  }

  /** The two messages of the cycle. */
  predicate TwoMessages(ms: seq<Message>, f: Entry) {
    && |ms| == 2
    && ms[0].cycle == 1 && ms[0].orig == f.id && ms[0].mvt == ms[0].from.id == 2 && ms[0].to.id == 1
    && ms[1].cycle == 1 && ms[1].orig == f.id && ms[1].mvt == ms[1].from.id == 1 && ms[1].to.id == 2
  }

  lemma NodesOfPair(e: Entry, f: Entry)
    ensures var c := PairFlow(e, f);
            && |c.x| == 2 && c.x[0].id == e.id && c.x[1].id == f.id && c.flowr == [10, 10]
            && Before(0, 2) == 1 && Before(1, 2) == 0 && RowOfEntry(f).ord == OrderOf(f) && OrderOf(f).id == f.id
    ensures Gave([], e.id) == Got([], e.id) == Gave([], f.id) == Got([], f.id) == 0
  {}

  lemma NumbersOfPair(m: Market, m1: Market, e: Entry, f: Entry)
    requires m.nextMvt == 1 && m.tmsg == [] && m1.tmsg[..0] == [] && |m1.tmsg| == 2
    requires forall t :: 0 <= t < 2 ==> NumberedAs(m1.tmsg[t], 1, f.id, t - 0, 2)
    ensures TwoMessages(m1.tmsg, f)
  {
    assert Before(0, 2) == 1 && Before(1, 2) == 0;
  }

  function TwoSteps(e: Entry, f: Entry, s: int, t: int): seq<Execution> {
    [Execution(e, s), Execution(f, t)]
  }

  lemma TwoStepRun(root: RootFunction, e: Entry, f: Entry, s: int, t: int)
    requires IsRoot(root) && Session(e, f)
    ensures ReadyFor(NO_MARKET, e.id) && Increasing(TwoSteps(e, f, s, t), e.id) && ReadyFor(WithFirstOrder(e), f.id)
    ensures Runs.Run(root, NO_MARKET, e.id, TwoSteps(e, f, s, t)) == Execute(root, WithFirstOrder(e), f, t)
  {
    hide Execute, ReadyFor, IsRoot, WithFirstOrder, RowOfEntry, NO_MARKET;
    FirstWaits(root, e, f, s);
    var es := TwoSteps(e, f, s, t);
    assert es[..1] == [Execution(e, s)] && es[..1][..0] == [];
    assert Runs.Run(root, NO_MARKET, e.id, es[..1][..0]) == Ok(NO_MARKET);
    assert Runs.Run(root, NO_MARKET, e.id, es[..1]) == Ok(WithFirstOrder(e));
  }

  /** What is left in the stocks: what was brought, less what was given. */
  lemma StocksLeft(root: RootFunction, e: Entry, f: Entry, s: int, t: int)
    requires IsRoot(root) && Session(e, f)
    requires ReadyFor(NO_MARKET, e.id) && Increasing(TwoSteps(e, f, s, t), e.id)
    requires Runs.Run(root, NO_MARKET, e.id, TwoSteps(e, f, s, t)).Ok?
    ensures var m := Runs.Run(root, NO_MARKET, e.id, TwoSteps(e, f, s, t)).value;
            && |m.torder| == 2 && m.torder[0].ord.id == e.id && m.torder[1].ord.id == f.id
            && m.torder[0].ord.qtt == 10 - Gave(m.tmsg, e.id) && m.torder[1].ord.qtt == 20 - Gave(m.tmsg, f.id)
  {
    hide *;
    var es := TwoSteps(e, f, s, t);
    var m := Runs.Run(root, NO_MARKET, e.id, es).value;
    RunAccounts(root, e.id, es);
    RowsOfSession(e, f, s, t);
    RowOfOrder(RowsOf(es), m.torder, e, 0);
    RowOfOrder(RowsOf(es), m.torder, f, 1);
    RunConserves(root, NO_MARKET, e.id, es, "");
    ValidIsUnique(m.torder);
    BalancedAt(m, 0);
    BalancedAt(m, 1);
    OrderKeepsLimit(m.torder, m.tmsg, 0);
    OrderKeepsLimit(m.torder, m.tmsg, 1);
    SameLength(RowsOf(es), m.torder);
    LeftOf(m, e, 0);
    LeftOf(m, f, 1);
  }

  lemma LeftOf(m: Market, e: Entry, k: nat)
    requires k < |m.torder| && RowTells(m.torder[k], e) && Balanced(m, k)
    requires Gave(m.tmsg, m.torder[k].ord.id) == Drawn(m.tmsg, m.torder[k].ord.oid)
    ensures m.torder[k].ord.qtt == e.qttProv - Gave(m.tmsg, e.id)
  {
    hide Gave, Drawn;
  }

  lemma SameLength(a: seq<Row>, b: seq<Row>)
    requires Conservation.SameShape(a, b)
    ensures |a| == |b|
  {}

  lemma RowsOfSession(e: Entry, f: Entry, s: int, t: int)
    requires Session(e, f)
    ensures RowsOf(TwoSteps(e, f, s, t)) == [RowOfEntry(e), RowOfEntry(f)] && e.qttProv == 10 && f.qttProv == 20
  {
    var es := TwoSteps(e, f, s, t);
    assert es[..1] == [Execution(e, s)] && es[..1][..0] == [];
    assert RowsOf(es[..1][..0]) == [];
    assert RowsOf(es[..1]) == [RowOfEntry(e)];
  }

  /** The session of two limit orders, each of which asks for what the other provides.
      When the second one is executed within a day of the submission of the first, each
      gives 10 and receives 10, the stock of the first is empty and 10 are left to the
      second; later, nothing is exchanged. */
  lemma BilateralExchange(root: RootFunction, e: Entry, f: Entry, s: int, t: int)
    requires IsRoot(root) && Session(e, f)
    ensures var es := TwoSteps(e, f, s, t);
            && ReadyFor(NO_MARKET, e.id) && Increasing(es, e.id) && Runs.Run(root, NO_MARKET, e.id, es).Ok?
            && var m := Runs.Run(root, NO_MARKET, e.id, es).value;
               && |m.torder| == 2 && m.torder[0].ord.id == e.id && m.torder[1].ord.id == f.id
               && if t < e.submitted + 86400 then
                    && TwoMessages(m.tmsg, f) && m.torder[0].ord.qtt == 0 && m.torder[1].ord.qtt == 10
                    && Gave(m.tmsg, e.id) == Got(m.tmsg, e.id) == 10 && Gave(m.tmsg, f.id) == Got(m.tmsg, f.id) == 10
                  else m.tmsg == [] && m.torder[0].ord.qtt == 10 && m.torder[1].ord.qtt == 20
  {
    hide *;
    TwoStepRun(root, e, f, s, t);
    if t < e.submitted + 86400 {
      SecondIsTold(root, e, f, t);
      StocksLeft(root, e, f, s, t);
    } else {
      TooLate(root, e, f, t);
      StocksLeft(root, e, f, s, t);
      NodesOfPair(e, f);
    }
  }

  lemma TooLate(root: RootFunction, e: Entry, f: Entry, t: int)
    requires IsRoot(root) && Session(e, f) && t >= e.submitted + 86400 && ReadyFor(WithFirstOrder(e), f.id)
    ensures Execute(root, WithFirstOrder(e), f, t).Ok? && Execute(root, WithFirstOrder(e), f, t).value.tmsg == []
  {
    hide *;
    var m := WithFirstOrder(e);
    ReadyIsValid(m, f.id);
    EntryIsNew(m, f);
    BothAccepted(e, f);
    BookOfFirst(e, f);
    FirstIsOver(e, t);
    NothingToFind(root, m, RowOfEntry(f), t);
    ExecuteIs(root, m, f, t);
  }

  lemma FirstIsOver(e: Entry, t: int)
    requires t >= e.submitted + 86400
    ensures NoneLive(WithFirstOrder(e).torder, t) && WithFirstOrder(e).tmsg == []
  {}
}
