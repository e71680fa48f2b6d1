/** The market: what executing primitives does to the order book and the messages. */
module MarketRuns {
  import opened Numeric
  import opened FlowTypes
  import opened Orders
  import opened Kernel
  import opened Yflow
  import opened Search
  import opened Cycles
  import opened Matching
  import opened Coherence
  import opened Book
  import opened Settlement
  import opened Exchange

  /** The order book, the exchange messages and the next movement id. */
  datatype Market = Market(torder: seq<Row>, tmsg: seq<Message>, nextMvt: int)

  // ---------------------------------------------------------------------------
  // Well-formed books

  /** Two rows that share a stock agree on it: its quantity and its quality. */
  ghost predicate SharedStocks(book: seq<Row>) {
    forall i, j :: 0 <= i < |book| && 0 <= j < |book| && book[i].ord.oid == book[j].ord.oid ==>
      book[i].ord.qtt == book[j].ord.qtt && book[i].ord.quaProv == book[j].ord.quaProv
  }

  predicate IsParent(r: Row) {
    r.ord.id == r.ord.oid
  }

  /** Every stock is owned by an order of the book. */
  ghost predicate HasParents(book: seq<Row>) {
    forall i :: 0 <= i < |book| ==> HasParent(book, book[i].ord.oid)
  }

  ghost predicate HasParent(book: seq<Row>, oid: int) {
    exists p :: ParentAt(book, oid, p)
  }

  ghost predicate ParentAt(book: seq<Row>, oid: int, p: int) {
    0 <= p < |book| && book[p].ord.id == oid && book[p].ord.oid == oid
  }

  ghost predicate PlainBook(book: seq<Row>) {
    forall i :: 0 <= i < |book| ==> PlainKind(book[i].ord.kind)
  }

  ghost predicate ValidBook(book: seq<Row>) {
    UniqueBook(book) && SharedStocks(book) && HasParents(book) && PlainBook(book)
  }

  /** An order that owns its stock and is new to the book. */
  ghost predicate NewOrder(book: seq<Row>, o: Order) {
    && o.id == o.oid && PlainKind(o.kind)
    && forall i :: 0 <= i < |book| ==> book[i].ord.id != o.id && book[i].ord.oid != o.id
  }

  lemma InsertedIsValid(book: seq<Row>, r: Row)
    requires ValidBook(book) && NewOrder(book, r.ord)
    ensures ValidBook(book + [r])
  {
    var b := book + [r];
    forall i | 0 <= i < |b|
      ensures HasParent(b, b[i].ord.oid)
    {
      if i < |book| {
        assert HasParent(book, book[i].ord.oid);
        var p :| ParentAt(book, book[i].ord.oid, p);
        assert ParentAt(b, b[i].ord.oid, p);
      } else {
        assert ParentAt(b, r.ord.oid, |book|);
      }
    }
  }

  lemma DebitedIsValid(book: seq<Row>, c: Tflow)
    requires ValidBook(book) && Affordable(book, c)
    ensures ValidBook(DebitBook(book, c))
  {
    hide Amount;
    var b := DebitBook(book, c);
    forall i | 0 <= i < |b|
      ensures HasParent(b, b[i].ord.oid)
    {
      assert HasParent(book, book[i].ord.oid);
      var p :| ParentAt(book, book[i].ord.oid, p);
      assert ParentAt(b, b[i].ord.oid, p);
    }
  }

  /** The stocks of a book. */
  ghost function StockOf(book: seq<Row>): (s: Stock)
    requires ValidBook(book)
    ensures BookBacked(book, s)
  {
    var oids := set r <- book :: r.ord.oid;
    map oid | oid in oids :: (OidIn(book, oid); StockAt(book, oid))
  }

  lemma OidIn(book: seq<Row>, oid: int)
    requires oid in set r <- book :: r.ord.oid
    ensures HasOid(book, oid)
  {
    var r :| r in book && r.ord.oid == oid;
    var k :| 0 <= k < |book| && book[k] == r;
  }

  // ---------------------------------------------------------------------------
  // Executing cycles

  /** A cycle is executed and the users of its orders are told. */
  function ExecuteCycle(m: Market, o: Order, c: Tflow): Result<Market>
    requires IsDraft(c)
  {
    var e :- ExecuteFlow(m.torder, c, m.nextMvt);
    Ok(Market(e.book, m.tmsg + Messages(e.mvts, m.nextMvt, o.id), m.nextMvt + |c.x|))
  }

  /** What the matching loop leaves: the market, the totals of the new order, and the
      cycles executed. */
  datatype Outcome = Outcome(market: Market, totals: Totals, cycles: seq<Tflow>)

  /** The matching loop on the market, after the cycles `done` whose totals are t. */
  function InsertLoop(root: RootFunction, m: Market, o: Order, tmp: seq<Tflow>, moved: nat,
                      t: Totals, done: seq<Tflow>): Result<Outcome>
    requires IsRoot(root) && AllExecutable(tmp)
    decreases |tmp|
  {
    if tmp == [] then Ok(Outcome(m, t, done))
    else
      var best := Best(root, tmp);
      if moved + |best.x| > MAXMVTPERTRANS then Ok(Outcome(m, t, done))
      else
        var m1 :- ExecuteCycle(m, o, best);
        var t1 :- AddUp(t, best);
        var us :- UpdateAll(root, tmp, best, false);
        RoundShrinks(root, tmp, best, false);
        InsertLoop(root, m1, o, Drafts(us), moved + |best.x|, t1, done + [best])
  }

  /** The orders of the nodes of every cycle are in the book. */
  ghost predicate AllInTheBook(book: seq<Row>, tmp: seq<Tflow>) {
    forall k :: 0 <= k < |tmp| ==> InTheBook(book, tmp[k])
  }

  /** The book and the table agree on the stocks. */
  ghost predicate Coherent(root: RootFunction, book: seq<Row>, o: Order, stock: Stock, tmp: seq<Tflow>)
    requires IsRoot(root)
  {
    ValidBook(book) && BookBacked(book, stock) && AllCached(root, o, stock, tmp) && AllInTheBook(book, tmp)
  }

  /** Reducing a cycle keeps the ids of its nodes. */
  lemma ReducedIds(root: RootFunction, o: Order, stock: Stock, c: Tflow, best: Tflow)
    requires IsRoot(root) && Cached(root, o, stock, c) && Cached(root, o, stock, best)
    requires Reduce(root, c, best, false).Ok?
    ensures var g := Reduce(root, c, best, false).value;
            |g.x| == |c.x| && forall i :: 0 <= i < |c.x| ==> g.x[i].id == c.x[i].id && g.x[i].oid == c.x[i].oid
  {
    hide FlowcMaximum, Amount;
    ReducedNodesBacked(root, o, stock, c, best, false);
    var z := ReducedNodes(c.x, best, false);
    RegularComputes(root, FlowRecord(z, c.flowr));
    var g := Reduce(root, c, best, false).value;
    assert g.x == z;
    hide Cached, Regular, Backed, Reduce, ReducedNodes;
    forall i | 0 <= i < |c.x|
      ensures g.x[i].id == c.x[i].id && g.x[i].oid == c.x[i].oid
    {
      SameNode(c.x, best, i);
    }
  }

  lemma ReducedInTheBook(root: RootFunction, o: Order, stock: Stock, book: seq<Row>, c: Tflow, best: Tflow)
    requires IsRoot(root) && Cached(root, o, stock, c) && Cached(root, o, stock, best)
    requires InTheBook(book, c) && Affordable(book, best)
    requires Reduce(root, c, best, false).Ok?
    ensures InTheBook(DebitBook(book, best), Reduce(root, c, best, false).value)
  {
    ReducedIds(root, o, stock, c, best);
    var g := Reduce(root, c, best, false).value;
    hide Cached, Reduce, Amount;
    forall i | 0 <= i < |g.x|
      ensures NodeIn(DebitBook(book, best), g.x[i])
    {
      assert NodeIn(book, c.x[i]);
      var k: nat :| NodeAt(book, c.x[i], k);
      assert NodeAt(DebitBook(book, best), g.x[i], k);
    }
  }

  lemma SameNode(x: seq<Tfl>, best: Tflow, i: nat)
    requires |x| >= 1 && IsDraft(best) && AllCanGive(x, best) && i < |x|
    ensures var z := ReducedNodes(x, best, false);
            z[i].id == x[i].id && z[i].oid == x[i].oid
  {
    hide Amount;
  }

  /** One round on the market: nothing is raised, the book is debited by the best
      cycle, and the book and the table still agree. */
  lemma RoundOnMarket(root: RootFunction, m: Market, o: Order, stock: Stock, tmp: seq<Tflow>, best: Tflow)
    requires IsRoot(root) && Coherent(root, m.torder, o, stock, tmp) && best in tmp
    requires AllExecutable(tmp) && Executable(best)
    ensures Cached(root, o, stock, best) && UpdateAll(root, tmp, best, false).Ok?
    ensures Affordable(m.torder, best) && ExecuteCycle(m, o, best).Ok?
    ensures ExecuteCycle(m, o, best).value.torder == DebitBook(m.torder, best)
    ensures Coherent(root, DebitBook(m.torder, best), o, Debit(stock, best),
                     Drafts(UpdateAll(root, tmp, best, false).value))
  {
    hide Cached, Executable, Reduce, IsRoot, UpdateAll, Drafts, Debit, IsDraft, ValidBook, BookBacked, Affordable;
    hide InTheBook, DebitBook, ExecuteFlow, AllCached;
    RoundKeepsCached(root, o, stock, tmp, best, false);
    BestInTheBook(m.torder, tmp, best);
    ValidIsUnique(m.torder);
    CachedExecutes(root, o, stock, m.torder, best, m.nextMvt);
    DebitedIsValid(m.torder, best);
    DraftsInTheBook(root, m.torder, o, stock, tmp, best);
  }

  lemma ValidIsUnique(book: seq<Row>)
    requires ValidBook(book)
    ensures UniqueBook(book)
  {}

  lemma BestInTheBook(book: seq<Row>, tmp: seq<Tflow>, best: Tflow)
    requires AllInTheBook(book, tmp) && best in tmp
    ensures InTheBook(book, best)
  {}

  lemma DraftsInTheBook(root: RootFunction, book: seq<Row>, o: Order, stock: Stock, tmp: seq<Tflow>, best: Tflow)
    requires IsRoot(root) && AllCached(root, o, stock, tmp) && AllInTheBook(book, tmp)
    requires AllExecutable(tmp) && Executable(best) && Cached(root, o, stock, best) && Affordable(book, best)
    requires UpdateAll(root, tmp, best, false).Ok?
    ensures AllInTheBook(DebitBook(book, best), Drafts(UpdateAll(root, tmp, best, false).value))
  {
    hide *;
    var us := UpdateAll(root, tmp, best, false).value;
    forall k | 0 <= k < |Drafts(us)|
      ensures InTheBook(DebitBook(book, best), Drafts(us)[k])
    {
      assert Drafts(us)[k] in us;
      DraftInTheBook(root, book, o, stock, tmp, best, Drafts(us)[k]);
    }
    AllInTheBookIf(DebitBook(book, best), Drafts(us));
  }

  lemma AllInTheBookIf(book: seq<Row>, tmp: seq<Tflow>)
    requires forall k :: 0 <= k < |tmp| ==> InTheBook(book, tmp[k])
    ensures AllInTheBook(book, tmp)
  {
    hide InTheBook;
  }

  lemma DraftInTheBook(root: RootFunction, book: seq<Row>, o: Order, stock: Stock, tmp: seq<Tflow>, best: Tflow,
                       d: Tflow)
    requires IsRoot(root) && AllCached(root, o, stock, tmp) && AllInTheBook(book, tmp)
    requires AllExecutable(tmp) && Executable(best) && Cached(root, o, stock, best) && Affordable(book, best)
    requires UpdateAll(root, tmp, best, false).Ok? && d in UpdateAll(root, tmp, best, false).value
    ensures InTheBook(DebitBook(book, best), d)
  {
    var us := UpdateAll(root, tmp, best, false).value;
    hide Cached, Executable, Reduce, IsRoot, UpdateAll, Affordable, InTheBook, DebitBook, Amount, IsDraft;
    var j :| 0 <= j < |us| && us[j] == d;
    UpdateAllAt(root, tmp, best, false, j);
    ReducedInTheBook(root, o, stock, book, tmp[j], best);
  }

  lemma InsertLoopStops(root: RootFunction, m: Market, o: Order, tmp: seq<Tflow>, moved: nat,
                        t: Totals, done: seq<Tflow>)
    requires IsRoot(root) && AllExecutable(tmp)
    requires tmp == [] || moved + |Best(root, tmp).x| > MAXMVTPERTRANS
    ensures InsertLoop(root, m, o, tmp, moved, t, done) == Ok(Outcome(m, t, done))
  {
    hide Best, AllExecutable, IsRoot, UpdateAll, Drafts, ExecuteCycle, AddUp;
  }

  /** One turn of the loop: what it raises, or how it goes on. */
  lemma InsertLoopTurn(root: RootFunction, m: Market, o: Order, tmp: seq<Tflow>, moved: nat,
                       t: Totals, done: seq<Tflow>)
    requires IsRoot(root) && AllExecutable(tmp) && tmp != []
    requires moved + |Best(root, tmp).x| <= MAXMVTPERTRANS
    ensures IsDraft(Best(root, tmp))
    ensures var best := Best(root, tmp);
            var m1, t1 := ExecuteCycle(m, o, best), AddUp(t, best);
            var us, r := UpdateAll(root, tmp, best, false), InsertLoop(root, m, o, tmp, moved, t, done);
            if m1.Err? then r == Err(m1.error)
            else if t1.Err? then r == Err(t1.error)
            else if us.Err? then r == Err(us.error)
            else
              var ds := Drafts(us.value);
              && |ds| < |tmp| && AllExecutable(ds)
              && r == InsertLoop(root, m1.value, o, ds, moved + |best.x|, t1.value, done + [best])
  {
    BestIsDraft(root, tmp);
    if UpdateAll(root, tmp, Best(root, tmp), false).Ok? { RoundShrinks(root, tmp, Best(root, tmp), false); }
    hide Best, AllExecutable, Executable, IsRoot, UpdateAll, Drafts, ExecuteCycle, AddUp, IsDraft;
  }

  lemma BestIsDraft(root: RootFunction, tmp: seq<Tflow>)
    requires AllExecutable(tmp) && tmp != []
    ensures IsDraft(Best(root, tmp)) && Best(root, tmp) in tmp && Executable(Best(root, tmp))
  {
    assert Executable(Best(root, tmp));
  }

  lemma CoherentParts(root: RootFunction, book: seq<Row>, o: Order, stock: Stock, tmp: seq<Tflow>)
    requires IsRoot(root) && Coherent(root, book, o, stock, tmp)
    ensures ValidBook(book) && BookBacked(book, stock) && AllCached(root, o, stock, tmp) && AllInTheBook(book, tmp)
  {}
}
