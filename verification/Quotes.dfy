/** The quote: a dry run of an order. */
module Quotes {
  import opened Numeric
  import opened FlowTypes
  import opened Orders
  import opened Kernel
  import opened Yflow
  import opened Search
  import opened Matching
  import opened Coherence
  import opened MarketRuns
  import opened Conservation
  import opened Primitives

  /** The order is new to the book, whatever quote flags it carries. */
  ghost predicate Quotable(book: seq<Row>, o: Order) {
    ValidBook(book) && UniqueIds(book, o)
  }

  /** What is closed into a draft can be executed, for an order with quote flags too. */
  lemma ClosedIsExecutable(root: RootFunction, book: seq<Row>, o: Order, now: int, p: Path)
    requires IsRoot(root) && PlainBook(book) && SoundRow(book, o, now, 1, p)
    requires Finish(root, p.debut, p.path, p.fin).Ok?
    requires IsDraft(Finish(root, p.debut, p.path, p.fin).value)
    ensures Executable(Finish(root, p.debut, p.path, p.fin).value)
  {
    hide FlowcMaximum, Executable, Matches, SoundRow, PlainBook, IsDraft, InnerLimited;
    var n := |p.path.x|;
    var f := FlowRecord(p.path.x[n - 1 := p.path.x[n - 1].(proba := 1.0)], p.path.flowr);
    PathInnerLimited(book, o, now, p, f.x);
    DraftStatus(root, f, FlowcMaximum(root, f).value);
    FoundIsExecutable(root, f, FlowcMaximum(root, f).value.flow);
  }

  lemma PathInnerLimited(book: seq<Row>, o: Order, now: int, p: Path, x: seq<Tfl>)
    requires PlainBook(book) && SoundRow(book, o, now, 1, p)
    requires |x| == |p.path.x| && forall i :: 0 <= i < |x| ==> x[i].kind == p.path.x[i].kind
    ensures InnerLimited(x)
  {
    hide Matches, PlainBook, Chain, PathOf;
    var os: seq<Order> :| IsPathOf(book, o, now, |os|, p, os) && 1 <= |os| <= MAXCYCLE;
    PathLength(os);
    forall i | 0 <= i < |x| - 1
      ensures !IsNoQttLimit(x[i].kind)
    {
      ChainInner(book, o, now, os, i);
    }
  }

  lemma PathLength(os: seq<Order>)
    requires |os| >= 1
    ensures |PathOf(os).path.x| == |os|
  {}

  /** An order of a chain, before the last, has a plain type. */
  lemma ChainInner(book: seq<Row>, o: Order, now: int, os: seq<Order>, i: nat)
    requires PlainBook(book) && Chain(book, o, now, os) && i < |os| - 1
    ensures PathOf(os).path.x[i].kind == os[i].kind && !IsNoQttLimit(os[i].kind)
  {
    hide Matches;
    assert InBook(book, now, os[i]);
  }

  lemma {:induction false} CloseExecutable(root: RootFunction, book: seq<Row>, o: Order, now: int, ps: seq<Path>)
    requires IsRoot(root) && PlainBook(book) && RowsSound(book, o, now, 1, ps) && Close(root, ps).Ok?
    ensures AllExecutable(Close(root, ps).value)
  {
    hide Finish, SoundRow, PlainBook, Executable, IsRoot, Matches;
    if |ps| > 0 {
      var init, p := ps[..|ps| - 1], ps[|ps| - 1];
      assert forall k :: 0 <= k < |init| ==> init[k] == ps[k];
      CloseExecutable(root, book, o, now, init);
      if Matches(p.fin, p.debut) && IsDraft(Finish(root, p.debut, p.path, p.fin).value) {
        ClosedIsExecutable(root, book, o, now, p);
      }
    }
  }

  lemma QuoteTableExecutable(root: RootFunction, book: seq<Row>, o: Order, now: int)
    requires IsRoot(root) && Quotable(book, o) && FcreateTmp(root, book, o, now).Ok?
    ensures AllExecutable(FcreateTmp(root, book, o, now).value)
  {
    SearchIsChains(book, o, now);
    var rows := SearchFrom(book, FirstLevel(o), 1, now).value;
    hide RowsComplete, SearchFrom, Matches, Close, UniqueIds, AllExecutable;
    assert RowsSound(book, o, now, 1, Limited(rows));
    CloseExecutable(root, book, o, now, Limited(rows));
  }

  // ---------------------------------------------------------------------------
  // The loop of a quote

  /** The arguments of a quote. */
  datatype QuoteFlags = QuoteFlags(isQuote: bool, isNoQttLimit: bool, isLimit: bool, isIgnoreOmega: bool)

  /** What a quote adds up: the totals, the price of the first cycle, and a stock. */
  datatype Quoting = Quoting(totals: Totals, requ: int, prov: int, qtt: Int64)

  const UNQUOTED: Quoting := Quoting(NOTHING, 0, 0, 0)

  /** One more cycle is visited; additions of bigints raise out of range. */
  function Quote(t: Quoting, c: Tflow, flags: QuoteFlags, first: bool): Result<Quoting>
    requires |c.x| >= 2
  {
    var u :- AddUp(t.totals, c);
    if !flags.isQuote then Ok(t.(totals := u))
    else
      var last := c.x[|c.x| - 1];
      var priced := if first then t.(totals := u, requ := last.qttRequ, prov := last.qttProv) else t.(totals := u);
      if !flags.isNoQttLimit then Ok(if first then priced.(qtt := last.qtt) else priced)
      else if !FitsInt64(t.qtt + last.qtt) then Err(OutOfRange)
      else Ok(priced.(qtt := t.qtt + last.qtt))
  }

  /** The outcome of the loop: what was added up, and the cycles visited. */
  datatype Visited = Visited(quoting: Quoting, cycles: seq<Tflow>)

  /** The loop, after the cycles `done`. The price found by the first cycle is frozen
      for an order whose price is ignored. */
  function QuoteLoop(root: RootFunction, tmp: seq<Tflow>, moved: nat, flags: QuoteFlags,
                     t: Quoting, first: bool, done: seq<Tflow>): Result<Visited>
    requires IsRoot(root) && AllExecutable(tmp)
    decreases |tmp|
  {
    if tmp == [] then Ok(Visited(t, done))
    else
      var best := Best(root, tmp);
      if moved + |best.x| > MAXMVTPERTRANS then Ok(Visited(t, done))
      else
        var freeze := first && flags.isIgnoreOmega && flags.isQuote;
        var t1 :- Quote(t, best, flags, first);
        var us :- UpdateAll(root, tmp, best, freeze);
        RoundShrinks(root, tmp, best, freeze);
        QuoteLoop(root, Drafts(us), moved + |best.x|, flags, t1, false, done + [best])
  }

  lemma QuoteLoopStops(root: RootFunction, tmp: seq<Tflow>, moved: nat, flags: QuoteFlags,
                       t: Quoting, first: bool, done: seq<Tflow>)
    requires IsRoot(root) && AllExecutable(tmp)
    requires tmp == [] || moved + |Best(root, tmp).x| > MAXMVTPERTRANS
    ensures QuoteLoop(root, tmp, moved, flags, t, first, done) == Ok(Visited(t, done))
  {
    hide Best, AllExecutable, IsRoot, UpdateAll, Drafts, Quote;
  }

  /** One turn of the loop: what it raises, or how it goes on. */
  lemma QuoteLoopTurn(root: RootFunction, tmp: seq<Tflow>, moved: nat, flags: QuoteFlags,
                      t: Quoting, first: bool, done: seq<Tflow>)
    requires IsRoot(root) && AllExecutable(tmp) && tmp != []
    requires moved + |Best(root, tmp).x| <= MAXMVTPERTRANS
    ensures IsDraft(Best(root, tmp)) && Executable(Best(root, tmp))
    ensures var best := Best(root, tmp);
            var t1 := Quote(t, best, flags, first);
            var us := UpdateAll(root, tmp, best, first && flags.isIgnoreOmega && flags.isQuote);
            var r := QuoteLoop(root, tmp, moved, flags, t, first, done);
            if t1.Err? then r == Err(t1.error)
            else if us.Err? then r == Err(us.error)
            else
              var ds := Drafts(us.value);
              && |ds| < |tmp| && AllExecutable(ds)
              && r == QuoteLoop(root, ds, moved + |best.x|, flags, t1.value, false, done + [best])
  {
    BestIsDraft(root, tmp);
    var freeze := first && flags.isIgnoreOmega && flags.isQuote;
    if UpdateAll(root, tmp, Best(root, tmp), freeze).Ok? { RoundShrinks(root, tmp, Best(root, tmp), freeze); }
    hide Best, AllExecutable, Executable, IsRoot, UpdateAll, Drafts, Quote, IsDraft;
  }

  datatype Quoted = Quoted(qttReci: int, qttGive: int)

  /** The price of the order is checked on the totals. */
  function QuoteChecked(v: Visited, flags: QuoteFlags): Result<Visited> {
    var t := v.quoting;
    if t.requ != 0 && flags.isLimit && flags.isQuote && AboveLimit(t.totals.give, t.totals.reci, t.prov, t.requ)
    then Err(LimitNotObserved)
    else Ok(v)
  }

  /** The dry run of an order. The book is only read. */
  function QuoteRun(root: RootFunction, book: seq<Row>, o: Order, now: int, flags: QuoteFlags): Result<Visited>
    requires IsRoot(root) && Quotable(book, o)
  {
    var tmp :- FcreateTmp(root, book, o, now);
    QuoteTableExecutable(root, book, o, now);
    var v :- QuoteLoop(root, tmp, 0, flags, UNQUOTED, true, []);
    QuoteChecked(v, flags)
  }

  /** The quote: what the order would receive and give. */
  function ProduceQuote(root: RootFunction, book: seq<Row>, o: Order, now: int, flags: QuoteFlags): Result<Quoted>
    requires IsRoot(root) && Quotable(book, o)
  {
    var v :- QuoteRun(root, book, o, now, flags);
    Ok(Quoted(v.quoting.totals.reci, v.quoting.totals.give))
  }

  /** The arguments with which the quote primitive is executed from the stack. */
  function FlagsOf(o: Order): QuoteFlags {
    QuoteFlags(true, false, OrderType(o.kind) == ORDER_LIMIT, false)
  }

  function ProcessQuote(root: RootFunction, book: seq<Row>, o: Order, now: int): Result<Quoted>
    requires IsRoot(root) && Quotable(book, o)
  {
    ProduceQuote(root, book, o, now, FlagsOf(o))
  }

  lemma NewIsQuotable(book: seq<Row>, o: Order)
    requires ValidBook(book) && NewOrder(book, o)
    ensures Quotable(book, o)
  {}

  // ---------------------------------------------------------------------------
  // The quote of a new order

  /** The last node of every cycle of an order has its price. */
  lemma CyclePrice(root: RootFunction, o: Order, stock: Stock, c: Tflow)
    requires IsRoot(root) && Cached(root, o, stock, c)
    ensures |c.x| >= 2 && c.x[|c.x| - 1].qttRequ == o.qttRequ && c.x[|c.x| - 1].qttProv == o.qttProv
  {
    hide FlowcMaximum, Backed;
  }

  /** What the loop adds up over the cycles cs. */
  ghost predicate QuoteEnds(o: Order, t: Quoting, first: bool, done: seq<Tflow>, cs: seq<Tflow>, r: Result<Visited>)
    requires Long(cs)
  {
    if !SumsFit(t.totals, cs) then r == Err(OutOfRange)
    else
      && r.Ok? && r.value.cycles == done + cs
      && var u := r.value.quoting;
      && u.totals.reci == t.totals.reci + TotalReceive(cs) && u.totals.give == t.totals.give + TotalGive(cs)
      && if first && cs != [] then u.requ == o.qttRequ && u.prov == o.qttProv
         else u.requ == t.requ && u.prov == t.prov
  }

  lemma QuoteEndsNow(o: Order, t: Quoting, first: bool, done: seq<Tflow>)
    ensures Long([]) && QuoteEnds(o, t, first, done, [], Ok(Visited(t, done)))
  {
    hide WithinLimit;
    NothingTraded(o);
    assert done + [] == done;
  }

  lemma QuoteEndsAfter(root: RootFunction, o: Order, stock: Stock, t: Quoting, first: bool, done: seq<Tflow>,
                       best: Tflow, rest: seq<Tflow>, flags: QuoteFlags, r: Result<Visited>)
    requires IsRoot(root) && Cached(root, o, stock, best) && IsDraft(best) && Trading(rest) && flags == FlagsOf(o)
    requires t.totals.reci >= 0 && t.totals.give >= 0 && Long(rest) && Long([best] + rest)
    requires Quote(t, best, flags, first).Err? ==> r == Err(Quote(t, best, flags, first).error)
    requires Quote(t, best, flags, first).Ok? ==>
               QuoteEnds(o, Quote(t, best, flags, first).value, false, done + [best], rest, r)
    ensures QuoteEnds(o, t, first, done, [best] + rest, r)
  {
    hide Cached, TotalGive, TotalReceive;
    CyclePrice(root, o, stock, best);
    AddUpFirst(t.totals, best, rest);
    TotalsCons([best] + rest);
    assert ([best] + rest)[1..] == rest;
    assert done + [best] + rest == done + ([best] + rest);
  }

  /** On a table that agrees with the stocks the loop of a quote visits the cycles of
      the matching loop, and raises exactly when a sum is out of range. */
  lemma {:induction false} QuoteLoopRuns(root: RootFunction, o: Order, stock: Stock, tmp: seq<Tflow>, moved: nat,
                                         t: Quoting, first: bool, done: seq<Tflow>)
    requires IsRoot(root) && AllCached(root, o, stock, tmp) && AllExecutable(tmp)
    requires t.totals.reci >= 0 && t.totals.give >= 0
    ensures MatchLoop(root, tmp, moved, false).Ok?
    ensures QuoteEnds(o, t, first, done, MatchLoop(root, tmp, moved, false).value,
                      QuoteLoop(root, tmp, moved, FlagsOf(o), t, first, done))
    decreases |tmp|
  {
    hide *;
    var best := Best(root, tmp);
    var flags := FlagsOf(o);
    if tmp == [] || moved + |best.x| > MAXMVTPERTRANS {
      LoopStops(root, tmp, moved, false);
      QuoteLoopStops(root, tmp, moved, flags, t, first, done);
      QuoteEndsNow(o, t, first, done);
    } else {
      BestIsDraft(root, tmp);
      RoundKeepsCached(root, o, stock, tmp, best, false);
      LoopGoesOn(root, tmp, moved, false);
      FlagsAre(o);
      QuoteLoopTurn(root, tmp, moved, flags, t, first, done);
      LengthOf(best);
      var ds := Drafts(UpdateAll(root, tmp, best, false).value);
      LoopIsRun(root, o, Debit(stock, best), ds, moved + |best.x|, false);
      var rest := MatchLoop(root, ds, moved + |best.x|, false).value;
      RunTrades(root, o, Debit(stock, best), rest);
      TradingFirst(best, rest);
      LongCons(best, rest);
      var t1 := Quote(t, best, flags, first);
      QuoteKeepsSign(t, best, flags, first);
      if t1.Ok? {
        QuoteLoopRuns(root, o, Debit(stock, best), ds, moved + |best.x|, t1.value, false, done + [best]);
      }
      QuoteEndsAfter(root, o, stock, t, first, done, best, rest, flags,
                     QuoteLoop(root, tmp, moved, flags, t, first, done));
    }
  }

  lemma FlagsAre(o: Order)
    ensures FlagsOf(o).isQuote && !FlagsOf(o).isNoQttLimit && !FlagsOf(o).isIgnoreOmega
    ensures FlagsOf(o).isLimit <==> OrderType(o.kind) == ORDER_LIMIT
  {}

  lemma QuoteKeepsSign(t: Quoting, c: Tflow, flags: QuoteFlags, first: bool)
    requires t.totals.reci >= 0 && t.totals.give >= 0 && IsDraft(c)
    ensures |c.x| >= 2
    ensures Quote(t, c, flags, first).Ok? ==>
              Quote(t, c, flags, first).value.totals.reci >= 0 && Quote(t, c, flags, first).value.totals.give >= 0
  {}

  /** The quote of an accepted order succeeds exactly when what it would receive is a
      bigint, and tells the totals of its cycles. */
  lemma QuoteOfAccepted(root: RootFunction, book: seq<Row>, r: Row, now: int, cs: seq<Tflow>)
    requires IsRoot(root) && ValidBook(book) && NewOrder(book, r.ord) && Accepted(r.ord)
    requires CyclesOf(root, book, r.ord, now, cs) && Long(cs) && ValidBook(book + [r])
    requires Run(root, r.ord, StockOf(book + [r]), cs) && 0 <= TotalGive(cs) <= r.ord.qtt
    ensures Quotable(book, r.ord)
    ensures var v := QuoteRun(root, book, r.ord, now, FlagsOf(r.ord));
            && (v.Ok? <==> TotalReceive(cs) <= INT64_MAX)
            && (v.Ok? ==> v.value.cycles == cs && v.value.quoting.totals.reci == TotalReceive(cs)
                          && v.value.quoting.totals.give == TotalGive(cs))
            && (v.Err? ==> v.error == OutOfRange)
  {
    hide *;
    var o, b := r.ord, book + [r];
    NewIsQuotable(book, o);
    NewTable(root, book, r, now);
    NewTableCoherent(root, book, r, now);
    CyclesHave(root, book, o, now, cs);
    var tmp := FcreateTmp(root, book, o, now).value;
    CoherentParts(root, b, o, StockOf(b), tmp);
    UnquotedIs();
    QuoteLoopRuns(root, o, StockOf(b), tmp, 0, UNQUOTED, true, []);
    NewOrderIsPlain(book, o);
    RunNotAboveLimit(root, o, StockOf(b), cs);
    RunGivesSome(root, o, StockOf(b), cs);
    GiveFits(o, cs);
    QuoteRunOf(root, book, o, now, cs);
  }

  lemma UnquotedIs()
    ensures UNQUOTED.totals == NOTHING && NOTHING == Totals(0, 0) && UNQUOTED.requ == 0
  {}

  lemma RunGivesSome(root: RootFunction, o: Order, stock: Stock, cs: seq<Tflow>)
    requires IsRoot(root) && Run(root, o, stock, cs) && Long(cs)
    ensures cs != [] ==> TotalGive(cs) != 0
  {
    hide *;
    if cs != [] {
      RunTrades(root, o, stock, cs);
      FirstGives(cs);
    }
  }

  lemma FirstGives(cs: seq<Tflow>)
    requires cs != [] && Trading(cs) && Long(cs)
    ensures TotalGive(cs) > 0
  {
    assert IsDraft(cs[0]);
    TotalsPositive(cs[1..]);
  }

  lemma QuoteRunOf(root: RootFunction, book: seq<Row>, o: Order, now: int, cs: seq<Tflow>)
    requires IsRoot(root) && Quotable(book, o) && Long(cs)
    requires FcreateTmp(root, book, o, now).Ok? && AllExecutable(FcreateTmp(root, book, o, now).value)
    requires QuoteEnds(o, UNQUOTED, true, [], cs,
                       QuoteLoop(root, FcreateTmp(root, book, o, now).value, 0, FlagsOf(o), UNQUOTED, true, []))
    requires TotalGive(cs) != 0 && OrderType(o.kind) == ORDER_LIMIT ==>
               !AboveLimit(TotalGive(cs), TotalReceive(cs), o.qttProv, o.qttRequ)
    requires cs != [] ==> TotalGive(cs) != 0
    ensures var v := QuoteRun(root, book, o, now, FlagsOf(o));
            && (v.Ok? <==> SumsFit(NOTHING, cs))
            && (v.Ok? ==> v.value.cycles == cs && v.value.quoting.totals.reci == TotalReceive(cs)
                          && v.value.quoting.totals.give == TotalGive(cs))
            && (v.Err? ==> v.error == OutOfRange)
  {
    hide FcreateTmp, Quotable, AllExecutable, IsRoot, QuoteLoop, AboveLimit, TotalGive, TotalReceive, Long, SumsFit;
    assert [] + cs == cs;
  }

  /** A quote predicts the order: on the same book, at the same time, both fail or
      both succeed, they visit the same best cycles in the same order, and the
      quantities quoted are those the order then receives and gives, although only
      the order is inserted and executes its cycles on the book. */
  lemma QuotePredictsOrder(root: RootFunction, m: Market, r: Row, now: int)
    requires IsRoot(root) && ValidBook(m.torder) && NewOrder(m.torder, r.ord)
    ensures Quotable(m.torder, r.ord)
    ensures var v, e := QuoteRun(root, m.torder, r.ord, now, FlagsOf(r.ord)), InsertOrder(root, m, r, now);
            && (v.Ok? <==> e.Ok?)
            && (v.Ok? ==> v.value.cycles == e.value.cycles && v.value.quoting.totals == e.value.totals)
  {
    hide *;
    NewIsQuotable(m.torder, r.ord);
    NewTable(root, m.torder, r, now);
    if Accepted(r.ord) {
      var cs := AcceptedHasCycles(root, m.torder, r, now);
      InsertAccepted(root, m, r, now, "", cs);
      QuoteOfAccepted(root, m.torder, r, now, cs);
      InsertedTotals(m, r, cs, InsertOrder(root, m, r, now));
    } else {
      InsertOrderFails(root, m, r, now);
      QuoteFails(root, m.torder, r.ord, now);
    }
  }

  lemma InsertedTotals(m: Market, r: Row, cs: seq<Tflow>, e: Result<Outcome>)
    requires e.Ok? ==> Inserted(m, r, cs, e.value, "")
    ensures e.Ok? ==> e.value.cycles == cs && Long(cs)
                      && e.value.totals.reci == TotalReceive(cs) && e.value.totals.give == TotalGive(cs)
  {
    hide ValidBook, SameShape, Held, TotalGive, TotalReceive, Long;
  }

  lemma QuoteFails(root: RootFunction, book: seq<Row>, o: Order, now: int)
    requires IsRoot(root) && Quotable(book, o) && FcreateTmp(root, book, o, now).Err?
    ensures QuoteRun(root, book, o, now, FlagsOf(o)).Err?
  {
    hide FcreateTmp, Quotable;
  }
}
