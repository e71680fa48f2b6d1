/** Runs of order and quote primitives taken from the stack. */
module Runs {
  import opened Numeric
  import opened FlowTypes
  import opened Orders
  import opened Search
  import opened Matching
  import opened MarketRuns
  import opened Conservation
  import opened Primitives
  import opened Quotes

  const DAY: int := 86400

  /** A primitive on the stack, with the id of its owner and the time at which it was
      submitted. */
  datatype Entry = Entry(
    id: int,
    usr: string,
    isOrder: bool,
    owner: string,
    wid: int,
    isLimit: bool,
    qttRequ: Quantity,
    quaRequ: Quality,
    qttProv: Quantity,
    quaProv: Quality,
    submitted: int)

  /** The execution of a primitive, and its time. */
  datatype Execution = Execution(entry: Entry, now: int)

  /** The order of a primitive: its own id is the id of its stock, and its stock is
      the whole quantity provided. A quote and an order build the same one. */
  function OrderOf(e: Entry): Order {
    Order(if e.isLimit then ORDER_LIMIT else ORDER_BEST, e.id, e.wid, e.id,
          e.qttRequ, e.quaRequ, e.qttProv, e.quaProv, e.qttProv)
  }

  function RowOfEntry(e: Entry): Row {
    Row(e.usr, e.owner, OrderOf(e), Some(e.submitted + DAY))
  }

  /** Every id of the book is below n. */
  ghost predicate IdsBelow(book: seq<Row>, n: int) {
    forall i :: 0 <= i < |book| ==> book[i].ord.id < n && book[i].ord.oid < n
  }

  ghost predicate ReadyFor(m: Market, n: int) {
    ValidBook(m.torder) && IdsBelow(m.torder, n)
  }

  lemma EntryIsNew(m: Market, e: Entry)
    requires ReadyFor(m, e.id)
    ensures NewOrder(m.torder, OrderOf(e)) && RowOfEntry(e).ord == OrderOf(e)
  {}

  /** A primitive is executed: the market after it, or the exception that it raises
      and that leaves the market as it was. A quote only reads the market. */
  function Execute(root: RootFunction, m: Market, e: Entry, now: int): (r: Result<Market>)
    requires IsRoot(root) && ReadyFor(m, e.id)
    ensures r.Ok? ==> ReadyFor(r.value, e.id + 1)
  {
    ReadyLater(m, e.id, e.id + 1);
    EntryIsNew(m, e);
    if e.isOrder then
      InsertedReady(root, m, e, now);
      var o :- InsertOrder(root, m, RowOfEntry(e), now);
      Ok(o.market)
    else
      NewIsQuotable(m.torder, OrderOf(e));
      var q :- ProcessQuote(root, m.torder, OrderOf(e), now);
      Ok(m)
  }

  lemma InsertedReady(root: RootFunction, m: Market, e: Entry, now: int)
    requires IsRoot(root) && ReadyFor(m, e.id) && NewOrder(m.torder, RowOfEntry(e).ord)
    ensures InsertOrder(root, m, RowOfEntry(e), now).Ok? ==>
              ReadyFor(InsertOrder(root, m, RowOfEntry(e), now).value.market, e.id + 1)
  {
    hide InsertOrder, ValidBook, NewOrder, Held, CyclesOf, Accepted, TotalReceive, TotalGive, Long;
    var cs := InsertOrderRuns(root, m, RowOfEntry(e), now, "");
    hide FcreateTmp;
  }

  lemma ReadyLater(m: Market, n: int, n': int)
    requires ReadyFor(m, n) && n <= n'
    ensures ReadyFor(m, n')
  {}

  /** An order or a quote is executed if and only if it does not ask for what it
      provides and what it would receive over all its cycles is a bigint. */
  lemma ExecutesIff(root: RootFunction, m: Market, e: Entry, now: int) returns (cs: seq<Tflow>)
    requires IsRoot(root) && ReadyFor(m, e.id)
    ensures Accepted(OrderOf(e)) ==> CyclesOf(root, m.torder, OrderOf(e), now, cs) && Long(cs)
    ensures Execute(root, m, e, now).Ok? <==> Accepted(OrderOf(e)) && Long(cs) && TotalReceive(cs) <= INT64_MAX
  {
    hide *;
    EntryIsNew(m, e);
    ReadyIsValid(m, e.id);
    var row := RowOfEntry(e);
    cs := InsertOrderRuns(root, m, row, now, "");
    QuotePredictsOrder(root, m, row, now);
    ExecuteIs(root, m, e, now);
  }

  lemma ExecuteIs(root: RootFunction, m: Market, e: Entry, now: int)
    requires IsRoot(root) && ReadyFor(m, e.id)
    ensures NewOrder(m.torder, RowOfEntry(e).ord) && Quotable(m.torder, OrderOf(e))
    ensures Execute(root, m, e, now).Ok? <==>
            if e.isOrder then InsertOrder(root, m, RowOfEntry(e), now).Ok?
            else QuoteRun(root, m.torder, OrderOf(e), now, FlagsOf(OrderOf(e))).Ok?
    ensures Execute(root, m, e, now).Ok? ==>
              Execute(root, m, e, now).value ==
              if e.isOrder then InsertOrder(root, m, RowOfEntry(e), now).value.market else m
  {
    hide InsertOrder, QuoteRun, ValidBook;
    EntryIsNew(m, e);
    NewIsQuotable(m.torder, OrderOf(e));
  }

  /** The ids of the primitives are all at least n, and increase. */
  predicate Increasing(es: seq<Execution>, n: int) {
    && (forall i :: 0 <= i < |es| ==> es[i].entry.id >= n)
    && (forall i, j :: 0 <= i < j < |es| ==> es[i].entry.id < es[j].entry.id)
  }

  lemma IncreasingInit(es: seq<Execution>, n: int)
    requires Increasing(es, n) && |es| > 0
    ensures Increasing(es[..|es| - 1], n) && NextId(es[..|es| - 1], n) <= es[|es| - 1].entry.id
  {}

  /** A bound on the ids after a run. */
  function NextId(es: seq<Execution>, n: int): int {
    if |es| == 0 then n else es[|es| - 1].entry.id + 1
  }

  /** The market after the primitives given, one after the other. The consumer never
      gets past one that raises. */
  function Run(root: RootFunction, m: Market, n: int, es: seq<Execution>): (r: Result<Market>)
    requires IsRoot(root) && ReadyFor(m, n) && Increasing(es, n)
    ensures r.Ok? ==> ReadyFor(r.value, NextId(es, n))
  {
    if |es| == 0 then Ok(m)
    else
      IncreasingInit(es, n);
      var before :- Run(root, m, n, es[..|es| - 1]);
      ReadyLater(before, NextId(es[..|es| - 1], n), es[|es| - 1].entry.id);
      Execute(root, before, es[|es| - 1].entry, es[|es| - 1].now)
  }

  /** What a primitive brings of a quality. */
  function Brought(e: Entry, q: string): nat {
    if e.isOrder && e.quaProv == q then e.qttProv else 0
  }

  /** What the orders of a run brought of a quality. */
  function Submitted(es: seq<Execution>, q: string): nat {
    if |es| == 0 then 0 else Submitted(es[..|es| - 1], q) + Brought(es[|es| - 1].entry, q)
  }

  lemma ExecuteHolds(root: RootFunction, m: Market, e: Entry, now: int, q: string)
    requires IsRoot(root) && ReadyFor(m, e.id) && Execute(root, m, e, now).Ok?
    ensures Held(Execute(root, m, e, now).value, q) == Held(m, q) + Brought(e, q)
  {
    hide InsertOrder, ValidBook, Held, Accepted, NewOrder, IdsBelow, IsRoot, QuoteRun, CyclesOf, SameShape, Execute;
    hide TotalReceive, TotalGive, Long;
    ExecuteIs(root, m, e, now);
    if e.isOrder {
      EntryIsNew(m, e);
      var cs := InsertOrderRuns(root, m, RowOfEntry(e), now, q);
    }
  }

  /** Over every run of order and quote primitives, the book stays well formed (the
      orders that share a stock hold the same quantity of it, and no stock is
      negative), and for each quality what was submitted is what remains in the
      stocks and what the messages tell to have been moved. */
  lemma {:induction false} RunConserves(root: RootFunction, m: Market, n: int, es: seq<Execution>, q: string)
    requires IsRoot(root) && ReadyFor(m, n) && Increasing(es, n) && Run(root, m, n, es).Ok?
    ensures ValidBook(Run(root, m, n, es).value.torder)
    ensures Held(Run(root, m, n, es).value, q) == Held(m, q) + Submitted(es, q)
    decreases |es|
  {
    hide Held, Accepted, ValidBook, IdsBelow, IsRoot, Execute, ReadyFor;
    if |es| > 0 {
      var init, e := es[..|es| - 1], es[|es| - 1];
      IncreasingInit(es, n);
      RunConserves(root, m, n, init, q);
      var before := Run(root, m, n, init).value;
      ReadyLater(before, NextId(init, n), e.entry.id);
      ExecuteHolds(root, before, e.entry, e.now, q);
    }
    ReadyIsValid(Run(root, m, n, es).value, NextId(es, n));
  }

  lemma ReadyIsValid(m: Market, n: int)
    requires ReadyFor(m, n)
    ensures ValidBook(m.torder)
  {}

  const NO_MARKET: Market := Market([], [], 1)

  lemma EmptyIsReady(n: int)
    ensures ReadyFor(NO_MARKET, n) && forall q: string :: Held(NO_MARKET, q) == 0
  {}

  /** From an empty market: submitted == remaining + moved, for each quality. */
  lemma MarketConserves(root: RootFunction, n: int, es: seq<Execution>, q: string)
    requires IsRoot(root) && Increasing(es, n)
    ensures ReadyFor(NO_MARKET, n)
    ensures Run(root, NO_MARKET, n, es).Ok? ==>
              var m := Run(root, NO_MARKET, n, es).value;
              Submitted(es, q) == Remaining(m.torder, q) + Moved(m.tmsg, q)
  {
    EmptyIsReady(n);
    hide Run;
    if Run(root, NO_MARKET, n, es).Ok? { RunConserves(root, NO_MARKET, n, es, q); }
  }

  // ---------------------------------------------------------------------------
  // Orders are outdated after a day

  /** Every order of the book is outdated at last. */
  ghost predicate Expires(book: seq<Row>) {
    forall k :: 0 <= k < |book| ==> book[k].deadline.Some?
  }

  /** A time at which all orders of the book are outdated. */
  function Expiry(book: seq<Row>, now: int): (t: int)
    requires Expires(book)
    ensures t >= now && NoneLive(book, t)
  {
    if |book| == 0 then now
    else
      var t := Expiry(book[..|book| - 1], now);
      var d := book[|book| - 1].deadline.value;
      if d > t then d else t
  }

  lemma ExecuteExpires(root: RootFunction, m: Market, e: Entry, now: int)
    requires IsRoot(root) && ReadyFor(m, e.id) && Expires(m.torder) && Execute(root, m, e, now).Ok?
    ensures Expires(Execute(root, m, e, now).value.torder)
  {
    hide *;
    ExecuteIs(root, m, e, now);
    ReadyIsValid(m, e.id);
    if e.isOrder {
      var cs := InsertOrderRuns(root, m, RowOfEntry(e), now, "");
      InsertedExpires(m, e, cs, InsertOrder(root, m, RowOfEntry(e), now).value);
    }
  }

  lemma InsertedExpires(m: Market, e: Entry, cs: seq<Tflow>, o: Outcome)
    requires Expires(m.torder) && Inserted(m, RowOfEntry(e), cs, o, "")
    ensures Expires(o.market.torder)
  {
    hide ValidBook, Held;
    assert forall k :: 0 <= k < |m.torder| ==> (m.torder + [RowOfEntry(e)])[k] == m.torder[k];
  }

  lemma {:induction false} RunExpires(root: RootFunction, m: Market, n: int, es: seq<Execution>)
    requires IsRoot(root) && ReadyFor(m, n) && Expires(m.torder) && Increasing(es, n) && Run(root, m, n, es).Ok?
    ensures Expires(Run(root, m, n, es).value.torder)
  {
    hide Expires, IsRoot, Execute, ReadyFor;
    if |es| > 0 {
      var init, e := es[..|es| - 1], es[|es| - 1];
      IncreasingInit(es, n);
      RunExpires(root, m, n, init);
      var before := Run(root, m, n, init).value;
      ReadyLater(before, NextId(init, n), e.entry.id);
      ExecuteExpires(root, before, e.entry, e.now);
    }
  }

  /** An order or a quote that does not ask for what it provides is executed once all
      orders of the book are outdated. */
  lemma ExecutesLate(root: RootFunction, m: Market, e: Entry, now: int)
    requires IsRoot(root) && ReadyFor(m, e.id) && NoneLive(m.torder, now) && Accepted(OrderOf(e))
    ensures Execute(root, m, e, now).Ok?
  {
    hide *;
    EntryIsNew(m, e);
    ReadyIsValid(m, e.id);
    LateSucceeds(root, m, RowOfEntry(e), now);
    QuotePredictsOrder(root, m, RowOfEntry(e), now);
    ExecuteIs(root, m, e, now);
  }
}
