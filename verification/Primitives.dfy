/** Order and quote primitives: the real run on the book, and the dry run. */
module Primitives {
  import opened Numeric
  import opened FlowTypes
  import opened Orders
  import opened Search
  import opened Cycles
  import opened Matching
  import opened Coherence
  import opened Settlement
  import opened MarketRuns
  import opened Conservation
  import opened Supplies

  // ---------------------------------------------------------------------------
  // The table of a new order

  /** The order does not ask for what it provides. */
  predicate Accepted(o: Order) {
    o.quaProv != o.quaRequ && !Matches(o, o)
  }

  lemma NewOrderUnique(book: seq<Row>, o: Order)
    requires ValidBook(book) && NewOrder(book, o)
    ensures UniqueIds(book, o) && PlainOrders(book, o)
  {}

  lemma InsertedUnique(book: seq<Row>, r: Row)
    requires ValidBook(book) && NewOrder(book, r.ord)
    ensures UniqueIds(book + [r], r.ord) && PlainOrders(book + [r], r.ord)
  {
    InsertedIsValid(book, r);
  }

  /** The orders of a cycle found are rows of the book, and its nodes hold their
      stocks. */
  lemma CycleOnBook(root: RootFunction, book: seq<Row>, o: Order, now: int, stock: Stock, c: Tflow, os: seq<Order>,
                    n: nat)
    requires IsRoot(root) && IsCycleOf(root, book, o, now, c, os) && BookBacked(book, stock)
    requires n < |book| && book[n].ord == o
    ensures Cached(root, o, stock, c) && InTheBook(book, c)
  {
    hide Recorded, Matches;
    forall i | 0 <= i < |c.x|
      ensures NodeIn(book, c.x[i]) && c.x[i].oid in stock && c.x[i].qtt == stock[c.x[i].oid]
    {
      var k: nat :| k < |book| && book[k].ord == os[i] by {
        if i < |os| - 1 { assert InBook(book, now, os[i]); } else { assert book[n].ord == os[i]; }
      }
      assert NodeAt(book, c.x[i], k);
    }
  }

  /** The table of a new order agrees with the book. */
  lemma NewTableCoherent(root: RootFunction, book: seq<Row>, r: Row, now: int)
    requires IsRoot(root) && ValidBook(book) && NewOrder(book, r.ord)
    requires FcreateTmp(root, book + [r], r.ord, now).Ok?
    ensures ValidBook(book + [r])
    ensures Coherent(root, book + [r], r.ord, StockOf(book + [r]), FcreateTmp(root, book + [r], r.ord, now).value)
  {
    hide FcreateTmp, ValidBook, NewOrder, UniqueIds, PlainOrders, Cached, InTheBook, IsCycleOf, StockOf, BookBacked;
    InsertedIsValid(book, r);
    InsertedUnique(book, r);
    var b, o := book + [r], r.ord;
    FcreateTmpSound(root, b, o, now);
    var tmp := FcreateTmp(root, b, o, now).value;
    forall k | 0 <= k < |tmp|
      ensures Cached(root, o, StockOf(b), tmp[k]) && InTheBook(b, tmp[k])
    {
      assert SoundCycle(root, b, o, now, tmp[k]);
      var os :| IsCycleOf(root, b, o, now, tmp[k], os);
      CycleOnBook(root, b, o, now, StockOf(b), tmp[k], os, |book|);
    }
  }

  lemma NewTableExecutable(root: RootFunction, book: seq<Row>, r: Row, now: int)
    requires IsRoot(root) && ValidBook(book) && NewOrder(book, r.ord)
    requires FcreateTmp(root, book + [r], r.ord, now).Ok?
    ensures AllExecutable(FcreateTmp(root, book + [r], r.ord, now).value)
  {
    hide FcreateTmp, ValidBook, NewOrder, AllCached, AllExecutable, AllInTheBook, StockOf, BookBacked;
    NewTableCoherent(root, book, r, now);
    CachedAreExecutable(root, r.ord, StockOf(book + [r]), FcreateTmp(root, book + [r], r.ord, now).value);
  }

  // ---------------------------------------------------------------------------
  // Orders

  /** The test "give / receive > prov / requ" of the code on doubles. */
  predicate AboveLimit(give: int, receive: int, prov: int, requ: int)
    requires requ != 0
  {
    receive == 0 || give as real / receive as real > prov as real / requ as real
  }

  /** The insertion of an order: the market after its cycles, what it received and
      gave, and these cycles. */
  function InsertOrder(root: RootFunction, m: Market, r: Row, now: int): Result<Outcome>
    requires IsRoot(root) && ValidBook(m.torder) && NewOrder(m.torder, r.ord)
  {
    var m1 := m.(torder := m.torder + [r]);
    var tmp :- FcreateTmp(root, m1.torder, r.ord, now);
    NewTableExecutable(root, m.torder, r, now);
    var e :- InsertLoop(root, m1, r.ord, tmp, 0, NOTHING, []);
    if e.totals.give != 0 && OrderType(r.ord.kind) == ORDER_LIMIT &&
       AboveLimit(e.totals.give, e.totals.reci, r.ord.qttProv, r.ord.qttRequ)
    then Err(LimitNotObserved)
    else Ok(e)
  }

  /** The stocks after a run of cycles. */
  ghost function DebitAll(stock: Stock, cs: seq<Tflow>): Stock {
    if |cs| == 0 then stock else DebitAll(Debit(stock, cs[0]), cs[1..])
  }

  /** What the matching loop leaves after the cycles cs, `done` and t being what came
      before: their totals, a well-formed book that agrees with the stocks, the same
      orders, and every quality conserved. */
  ghost predicate LoopLeaves(m: Market, stock: Stock, t: Totals, done: seq<Tflow>, cs: seq<Tflow>, e: Outcome)
    requires Long(cs)
  {
    && e.cycles == done + cs
    && e.totals.reci == t.reci + TotalReceive(cs) && e.totals.give == t.give + TotalGive(cs)
    && ValidBook(e.market.torder)
    && SameShape(m.torder, e.market.torder)
    && BookBacked(e.market.torder, DebitAll(stock, cs))
    && forall q: string :: Held(e.market, q) == Held(m, q)
  }

  /** The loop raises exactly when a sum is out of range, and else leaves what it
      should. */
  ghost predicate LoopEnds(m: Market, stock: Stock, t: Totals, done: seq<Tflow>, cs: seq<Tflow>, r: Result<Outcome>)
    requires Long(cs)
  {
    if SumsFit(t, cs) then r.Ok? && LoopLeaves(m, stock, t, done, cs, r.value) else r == Err(OutOfRange)
  }

  lemma LeavesItself(m: Market, o: Order, stock: Stock, t: Totals, done: seq<Tflow>)
    requires ValidBook(m.torder) && BookBacked(m.torder, stock)
    ensures Long([]) && Trading([]) && LoopEnds(m, stock, t, done, [], Ok(Outcome(m, t, done)))
  {
    hide ValidBook, BookBacked, WithinLimit;
    NothingTraded(o);
    assert done + [] == done;
    assert DebitAll(stock, []) == stock;
  }

  lemma LeavesAfterRound(m: Market, m1: Market, o: Order, stock: Stock, t: Totals, t1: Totals, done: seq<Tflow>,
                         best: Tflow, rest: seq<Tflow>, e: Outcome)
    requires ValidBook(m.torder) && IsDraft(best) && InTheBook(m.torder, best) && Affordable(m.torder, best)
    requires ExecuteCycle(m, o, best) == Ok(m1) && m1.torder == DebitBook(m.torder, best)
    requires AddUp(t, best) == Ok(t1) && Long(rest) && Long([best] + rest)
    requires LoopLeaves(m1, Debit(stock, best), t1, done + [best], rest, e)
    ensures LoopLeaves(m, stock, t, done, [best] + rest, e)
  {
    hide ValidBook, BookBacked, Debit, ExecuteCycle, Affordable, InTheBook, Held, IsDraft;
    assert ([best] + rest)[1..] == rest;
    assert done + [best] + rest == done + ([best] + rest);
    assert SameShape(m.torder, m1.torder);
    ShapeThrough(m.torder, m1.torder, e.market.torder);
    forall q: string
      ensures Held(e.market, q) == Held(m, q)
    {
      CycleConserves(m, o, best, q);
    }
  }

  /** From a table that agrees with the book, the loop on the market executes the
      cycles that the loop on the table alone finds, and raises none of its
      exceptions but one: a sum of quantities out of the range of bigint. */
  lemma {:induction false} InsertLoopRuns(root: RootFunction, m: Market, o: Order, stock: Stock, tmp: seq<Tflow>,
                                          moved: nat, t: Totals, done: seq<Tflow>)
    requires IsRoot(root) && Coherent(root, m.torder, o, stock, tmp) && AllExecutable(tmp)
    requires t.reci >= 0 && t.give >= 0
    ensures MatchLoop(root, tmp, moved, false).Ok? && Trading(MatchLoop(root, tmp, moved, false).value)
    ensures LoopEnds(m, stock, t, done, MatchLoop(root, tmp, moved, false).value,
                     InsertLoop(root, m, o, tmp, moved, t, done))
    decreases |tmp|
  {
    hide *;
    CoherentParts(root, m.torder, o, stock, tmp);
    var best := Best(root, tmp);
    if tmp == [] || moved + |best.x| > MAXMVTPERTRANS {
      LoopStops(root, tmp, moved, false);
      InsertLoopStops(root, m, o, tmp, moved, t, done);
      LeavesItself(m, o, stock, t, done);
    } else {
      BestIsDraft(root, tmp);
      BestInTheBook(m.torder, tmp, best);
      RoundOnMarket(root, m, o, stock, tmp, best);
      LoopGoesOn(root, tmp, moved, false);
      InsertLoopTurn(root, m, o, tmp, moved, t, done);
      LengthOf(best);
      var m1 := ExecuteCycle(m, o, best).value;
      var ds := Drafts(UpdateAll(root, tmp, best, false).value);
      var t1 := AddUp(t, best);
      LoopIsTrading(root, m1, o, Debit(stock, best), ds, moved + |best.x|);
      var rest := MatchLoop(root, ds, moved + |best.x|, false).value;
      AddUpFirst(t, best, rest);
      TradingFirst(best, rest);
      if t1.Ok? {
        InsertLoopRuns(root, m1, o, Debit(stock, best), ds, moved + |best.x|, t1.value, done + [best]);
        var r := InsertLoop(root, m1, o, ds, moved + |best.x|, t1.value, done + [best]);
        EndsOf(m1, Debit(stock, best), t1.value, done + [best], rest, r);
        if SumsFit(t1.value, rest) { LeavesAfterRound(m, m1, o, stock, t, t1.value, done, best, rest, r.value); }
        EndsIf(m, stock, t, done, [best] + rest, r);
      } else {
        EndsIf(m, stock, t, done, [best] + rest, InsertLoop(root, m, o, tmp, moved, t, done));
      }
    }
  }

  lemma EndsOf(m: Market, stock: Stock, t: Totals, done: seq<Tflow>, cs: seq<Tflow>, r: Result<Outcome>)
    requires Long(cs) && LoopEnds(m, stock, t, done, cs, r)
    ensures if SumsFit(t, cs) then r.Ok? && LoopLeaves(m, stock, t, done, cs, r.value) else r == Err(OutOfRange)
  {
    hide LoopLeaves, SumsFit;
  }

  lemma EndsIf(m: Market, stock: Stock, t: Totals, done: seq<Tflow>, cs: seq<Tflow>, r: Result<Outcome>)
    requires Long(cs)
    requires if SumsFit(t, cs) then r.Ok? && LoopLeaves(m, stock, t, done, cs, r.value) else r == Err(OutOfRange)
    ensures LoopEnds(m, stock, t, done, cs, r)
  {
    hide LoopLeaves, SumsFit;
  }

  lemma LengthOf(c: Tflow)
    requires Executable(c)
    ensures 2 <= |c.x| == |c.flowr|
  {}

  lemma TradingFirst(c: Tflow, rest: seq<Tflow>)
    requires IsDraft(c) && Trading(rest)
    ensures Trading([c] + rest)
  {
    hide IsDraft;
  }

  lemma LoopIsTrading(root: RootFunction, m: Market, o: Order, stock: Stock, tmp: seq<Tflow>, moved: nat)
    requires IsRoot(root) && Coherent(root, m.torder, o, stock, tmp) && AllExecutable(tmp)
    ensures MatchLoop(root, tmp, moved, false).Ok? && Trading(MatchLoop(root, tmp, moved, false).value)
  {
    hide *;
    CoherentParts(root, m.torder, o, stock, tmp);
    LoopIsRun(root, o, stock, tmp, moved, false);
    RunTrades(root, o, stock, MatchLoop(root, tmp, moved, false).value);
  }

  // ---------------------------------------------------------------------------
  // The limit exception is dead

  lemma WithinIsNotAbove(o: Order, give: int, receive: int)
    requires WithinLimit(o, give, receive) && receive > 0
    ensures !AboveLimit(give, receive, o.qttProv, o.qttRequ)
  {
    RatioCross(give as real, receive as real, o.qttProv as real, o.qttRequ as real);
    Guarantees.IntsAsReals(give, o.qttRequ);
    Guarantees.IntsAsReals(o.qttProv, receive);
  }

  lemma RunNotAboveLimit(root: RootFunction, o: Order, stock: Stock, cs: seq<Tflow>)
    requires IsRoot(root) && Run(root, o, stock, cs) && Long(cs) && PlainKind(o.kind)
    ensures TotalGive(cs) != 0 && OrderType(o.kind) == ORDER_LIMIT ==>
              !AboveLimit(TotalGive(cs), TotalReceive(cs), o.qttProv, o.qttRequ)
  {
    hide Run, AboveLimit, WithinLimit, TotalReceive, Long;
    if TotalGive(cs) != 0 && OrderType(o.kind) == ORDER_LIMIT {
      RunObservesLimit(root, o, stock, cs);
      WithinIsNotAbove(o, TotalGive(cs), TotalReceive(cs));
    }
  }

  /** The table of a new order, as the quote and the insertion both see it. */
  lemma NewTable(root: RootFunction, book: seq<Row>, r: Row, now: int)
    requires IsRoot(root) && ValidBook(book) && NewOrder(book, r.ord)
    ensures FcreateTmp(root, book + [r], r.ord, now) == FcreateTmp(root, book, r.ord, now)
    ensures FcreateTmp(root, book, r.ord, now).Ok? <==> Accepted(r.ord)
  {
    hide FcreateTmp, ValidBook, NewOrder, UniqueIds, PlainOrders, Matches;
    NewOrderUnique(book, r.ord);
    SameCycles(root, book, r, now);
    FcreateTmpFailsIff(root, book, r.ord, now);
  }

  /** The cycles of a new order that is accepted: those of the matching loop on its
      table, searched in the book without it. */
  ghost predicate CyclesOf(root: RootFunction, book: seq<Row>, o: Order, now: int, cs: seq<Tflow>)
    requires IsRoot(root)
  {
    && FcreateTmp(root, book, o, now).Ok?
    && var tmp := FcreateTmp(root, book, o, now).value;
    && AllExecutable(tmp)
    && MatchLoop(root, tmp, 0, false) == Ok(cs)
    && Trading(cs)
  }

  /** The cycles of an accepted order. They form a run from the stocks of the book;
      what it gives is within its own stock, and what it receives within the stocks
      that match what it asks for. */
  lemma AcceptedHasCycles(root: RootFunction, book: seq<Row>, r: Row, now: int) returns (cs: seq<Tflow>)
    requires IsRoot(root) && ValidBook(book) && NewOrder(book, r.ord) && Accepted(r.ord)
    ensures CyclesOf(root, book, r.ord, now, cs) && Long(cs)
    ensures ValidBook(book + [r]) && Run(root, r.ord, StockOf(book + [r]), cs)
    ensures 0 <= TotalGive(cs) <= r.ord.qtt
    ensures 0 <= TotalReceive(cs) <= Supply(book, r.ord.quaRequ)
  {
    hide *;
    var b, o := book + [r], r.ord;
    NewTable(root, book, r, now);
    NewTableCoherent(root, book, r, now);
    NewTableExecutable(root, book, r, now);
    var tmp := FcreateTmp(root, b, o, now).value;
    CoherentParts(root, b, o, StockOf(b), tmp);
    LoopIsRun(root, o, StockOf(b), tmp, 0, false);
    cs := MatchLoop(root, tmp, 0, false).value;
    RunTrades(root, o, StockOf(b), cs);
    TotalsPositive(cs);
    NewStock(book, r);
    RunGivesWithinStock(root, o, StockOf(b), cs);
    InsertedUnique(book, r);
    FcreateTmpSound(root, b, o, now);
    TableSupplied(root, b, o, now, tmp);
    LoopWithinSupply(root, Market(b, [], 0), o, StockOf(b), tmp, 0);
    SupplyOfOthers(book, r);
    CyclesAre(root, book, o, now, cs);
  }

  lemma CyclesAre(root: RootFunction, book: seq<Row>, o: Order, now: int, cs: seq<Tflow>)
    requires IsRoot(root) && FcreateTmp(root, book, o, now).Ok?
    requires AllExecutable(FcreateTmp(root, book, o, now).value) && Trading(cs)
    requires MatchLoop(root, FcreateTmp(root, book, o, now).value, 0, false) == Ok(cs)
    ensures CyclesOf(root, book, o, now, cs)
  {
    hide FcreateTmp, MatchLoop, AllExecutable, Trading;
  }

  lemma NewStock(book: seq<Row>, r: Row)
    requires ValidBook(book) && NewOrder(book, r.ord) && ValidBook(book + [r])
    ensures r.ord.oid in StockOf(book + [r]) && StockOf(book + [r])[r.ord.oid] == r.ord.qtt
  {
    hide ValidBook, StockOf;
    var b := book + [r];
    assert b[|book|] == r;
  }

  /** An order that does not match itself adds nothing to the supply it can use. */
  lemma SupplyOfOthers(book: seq<Row>, r: Row)
    requires Accepted(r.ord)
    ensures Supply(book + [r], r.ord.quaRequ) == Supply(book, r.ord.quaRequ)
  {
    hide MatchQuality;
    assert (book + [r])[..|book|] == book;
  }

  // ---------------------------------------------------------------------------
  // What an insertion does

  /** The outcome of an insertion: its cycles and their totals; the book is well
      formed and holds the same orders and the new one; what is held of a quality is
      what was, and the new stock. */
  ghost predicate Inserted(m: Market, r: Row, cs: seq<Tflow>, e: Outcome, q: string) {
    && e.cycles == cs && Long(cs)
    && e.totals == Totals(e.totals.reci, e.totals.give)
    && e.totals.reci == TotalReceive(cs) && e.totals.give == TotalGive(cs)
    && ValidBook(e.market.torder) && SameShape(m.torder + [r], e.market.torder)
    && Held(e.market, q) == Held(m, q) + if r.ord.quaProv == q then r.ord.qtt else 0
  }

  /** What the insertion of an order does. An order that asks for what it provides is
      refused, whatever the book. Another one executes the cycles of the matching
      loop: it raises out of range exactly when it would receive more than a bigint
      over all its cycles, and none of the other exceptions of the loop is ever
      raised. It leaves a well-formed book in which every quality is conserved, the
      new stock being added. */
  lemma InsertOrderRuns(root: RootFunction, m: Market, r: Row, now: int, q: string) returns (cs: seq<Tflow>)
    requires IsRoot(root) && ValidBook(m.torder) && NewOrder(m.torder, r.ord)
    ensures !Accepted(r.ord) ==> InsertOrder(root, m, r, now).Err?
    ensures Accepted(r.ord) ==> CyclesOf(root, m.torder, r.ord, now, cs) && Long(cs)
    ensures Accepted(r.ord) ==> (InsertOrder(root, m, r, now).Ok? <==> TotalReceive(cs) <= INT64_MAX)
    ensures InsertOrder(root, m, r, now).Ok? ==> Inserted(m, r, cs, InsertOrder(root, m, r, now).value, q)
    ensures Accepted(r.ord) && InsertOrder(root, m, r, now).Err? ==>
              InsertOrder(root, m, r, now) == Err(OutOfRange)
  {
    hide *;
    NewTable(root, m.torder, r, now);
    if Accepted(r.ord) {
      cs := AcceptedHasCycles(root, m.torder, r, now);
      InsertAccepted(root, m, r, now, q, cs);
    } else {
      cs := [];
      InsertOrderFails(root, m, r, now);
    }
  }

  lemma InsertAccepted(root: RootFunction, m: Market, r: Row, now: int, q: string, cs: seq<Tflow>)
    requires IsRoot(root) && ValidBook(m.torder) && NewOrder(m.torder, r.ord) && Accepted(r.ord)
    requires CyclesOf(root, m.torder, r.ord, now, cs) && Long(cs) && ValidBook(m.torder + [r])
    requires Run(root, r.ord, StockOf(m.torder + [r]), cs) && 0 <= TotalGive(cs) <= r.ord.qtt
    ensures InsertOrder(root, m, r, now).Ok? <==> TotalReceive(cs) <= INT64_MAX
    ensures InsertOrder(root, m, r, now).Ok? ==> Inserted(m, r, cs, InsertOrder(root, m, r, now).value, q)
    ensures InsertOrder(root, m, r, now).Err? ==> InsertOrder(root, m, r, now) == Err(OutOfRange)
  {
    hide *;
    var b, o := m.torder + [r], r.ord;
    NewTable(root, m.torder, r, now);
    NewTableCoherent(root, m.torder, r, now);
    NewTableExecutable(root, m.torder, r, now);
    var tmp := FcreateTmp(root, b, o, now).value;
    CyclesHave(root, m.torder, o, now, cs);
    NothingYet();
    InsertLoopRuns(root, m.(torder := b), o, StockOf(b), tmp, 0, NOTHING, []);
    NewOrderIsPlain(m.torder, o);
    RunNotAboveLimit(root, o, StockOf(b), cs);
    InsertedHeld(m, r, q);
    GiveFits(o, cs);
    InsertOrderOf(root, m, r, now, StockOf(b), cs, q);
  }

  lemma CyclesHave(root: RootFunction, book: seq<Row>, o: Order, now: int, cs: seq<Tflow>)
    requires IsRoot(root) && CyclesOf(root, book, o, now, cs)
    ensures FcreateTmp(root, book, o, now).Ok?
    ensures var tmp := FcreateTmp(root, book, o, now).value;
            AllExecutable(tmp) && MatchLoop(root, tmp, 0, false) == Ok(cs) && Trading(cs)
  {
    hide FcreateTmp, MatchLoop, AllExecutable, Trading;
  }

  lemma GiveFits(o: Order, cs: seq<Tflow>)
    requires Long(cs) && TotalGive(cs) <= o.qtt
    ensures SumsFit(NOTHING, cs) <==> TotalReceive(cs) <= INT64_MAX
  {}

  lemma NewOrderIsPlain(book: seq<Row>, o: Order)
    requires NewOrder(book, o)
    ensures PlainKind(o.kind) && o.id == o.oid
  {}

  lemma InsertOrderFails(root: RootFunction, m: Market, r: Row, now: int)
    requires IsRoot(root) && ValidBook(m.torder) && NewOrder(m.torder, r.ord)
    requires FcreateTmp(root, m.torder + [r], r.ord, now).Err?
    ensures InsertOrder(root, m, r, now).Err?
  {
    hide FcreateTmp, ValidBook, NewOrder;
  }

  lemma InsertedHeld(m: Market, r: Row, q: string)
    requires NewOrder(m.torder, r.ord)
    ensures Held(m.(torder := m.torder + [r]), q) == Held(m, q) + if r.ord.quaProv == q then r.ord.qtt else 0
  {
    assert (m.torder + [r])[..|m.torder|] == m.torder;
  }

  lemma InsertOrderOf(root: RootFunction, m: Market, r: Row, now: int, stock: Stock, cs: seq<Tflow>, q: string)
    requires IsRoot(root) && ValidBook(m.torder) && NewOrder(m.torder, r.ord)
    requires FcreateTmp(root, m.torder + [r], r.ord, now).Ok?
    requires AllExecutable(FcreateTmp(root, m.torder + [r], r.ord, now).value)
    requires Long(cs)
    requires LoopEnds(m.(torder := m.torder + [r]), stock, NOTHING, [], cs,
                      InsertLoop(root, m.(torder := m.torder + [r]), r.ord,
                                 FcreateTmp(root, m.torder + [r], r.ord, now).value, 0, NOTHING, []))
    requires TotalGive(cs) != 0 && OrderType(r.ord.kind) == ORDER_LIMIT ==>
               !AboveLimit(TotalGive(cs), TotalReceive(cs), r.ord.qttProv, r.ord.qttRequ)
    requires Held(m.(torder := m.torder + [r]), q) == Held(m, q) + if r.ord.quaProv == q then r.ord.qtt else 0
    ensures InsertOrder(root, m, r, now).Ok? <==> SumsFit(NOTHING, cs)
    ensures InsertOrder(root, m, r, now).Ok? ==> Inserted(m, r, cs, InsertOrder(root, m, r, now).value, q)
    ensures InsertOrder(root, m, r, now).Err? ==> InsertOrder(root, m, r, now) == Err(OutOfRange)
  {
    hide FcreateTmp, ValidBook, NewOrder, AllExecutable, InsertLoop, TotalGive, TotalReceive, Long;
    hide AboveLimit, BookBacked;
    hide SameShape, Held, IsRoot, DebitAll, SumsFit;
    assert [] + cs == cs;
  }

  /** Every order of the book is outdated. */
  ghost predicate NoneLive(book: seq<Row>, now: int) {
    forall k :: 0 <= k < |book| ==> book[k].deadline.Some? && book[k].deadline.value <= now
  }

  /** Nothing is found in a book of outdated orders. */
  lemma NothingFound(root: RootFunction, book: seq<Row>, o: Order, now: int, cs: seq<Tflow>)
    requires IsRoot(root) && UniqueIds(book, o) && PlainOrders(book, o)
    requires NoneLive(book, now) && CyclesOf(root, book, o, now, cs)
    ensures cs == []
  {
    hide FcreateTmp, UniqueIds, PlainOrders, AllExecutable, Recorded, MatchLoop;
    FcreateTmpSound(root, book, o, now);
    var tmp := FcreateTmp(root, book, o, now).value;
    CyclesAreLive(root, book, o, now, tmp);
    LoopStops(root, tmp, 0, false);
  }

  /** A cycle needs a live order of the book. */
  lemma CyclesAreLive(root: RootFunction, book: seq<Row>, o: Order, now: int, tmp: seq<Tflow>)
    requires IsRoot(root) && TmpSound(root, book, o, now, tmp)
    ensures NoneLive(book, now) ==> tmp == []
  {
    hide Recorded, Matches;
    if |tmp| > 0 {
      assert SoundCycle(root, book, o, now, tmp[0]);
      var os :| IsCycleOf(root, book, o, now, tmp[0], os);
      assert InBook(book, now, os[0]);
    }
  }

  /** An accepted order is inserted once all orders of the book are outdated, whatever
      it could receive from them before. */
  lemma LateSucceeds(root: RootFunction, m: Market, r: Row, now: int)
    requires IsRoot(root) && ValidBook(m.torder) && NewOrder(m.torder, r.ord) && Accepted(r.ord)
    requires NoneLive(m.torder, now)
    ensures InsertOrder(root, m, r, now).Ok?
  {
    hide *;
    var cs := InsertOrderRuns(root, m, r, now, "");
    NewOrderUnique(m.torder, r.ord);
    NothingFound(root, m.torder, r.ord, now, cs);
    NothingReceived(cs);
  }

  lemma NothingReceived(cs: seq<Tflow>)
    requires cs == []
    ensures Long(cs) && TotalReceive(cs) <= INT64_MAX
  {}

  /** An accepted order is inserted whenever the stocks that match what it asks for
      add up to a bigint. */
  lemma WithinSupplySucceeds(root: RootFunction, m: Market, r: Row, now: int)
    requires IsRoot(root) && ValidBook(m.torder) && NewOrder(m.torder, r.ord) && Accepted(r.ord)
    requires Supply(m.torder, r.ord.quaRequ) <= INT64_MAX
    ensures InsertOrder(root, m, r, now).Ok?
  {
    hide *;
    var cs := AcceptedHasCycles(root, m.torder, r, now);
    InsertAccepted(root, m, r, now, "", cs);
  }
}
