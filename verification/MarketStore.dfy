/** The market as it runs: tables updated in place by the execution of a cycle, the
    insertion of an order and the production of a quote. */
module MarketStore {
  import opened Numeric
  import opened FlowTypes
  import opened Orders
  import opened Yflow
  import opened Search
  import opened Matching
  import opened Book
  import opened Exchange
  import opened MarketRuns
  import opened Primitives
  import opened Quotes
  import Reduction
  import Runs

  // ---------------------------------------------------------------------------
  // The temporary table

  /** The best draft of the table; rows that are not drafts are skipped. */
  method SelectMax(root: RootFunction, tmp: seq<Tflow>) returns (best: Tflow)
    requires AllRanked(tmp)
    ensures AllRanked(Drafts(tmp)) && best == MaxFlow(root, Drafts(tmp))
  {
    hide *;
    best := EMPTY_FLOW;
    NoDraft(root, tmp[..0]);
    for k := 0 to |tmp|
      invariant Rankable(best) && Probable(best)
      invariant AllRanked(Drafts(tmp[..k])) && best == MaxFlow(root, Drafts(tmp[..k]))
    {
      NextDraft(root, tmp, k);
      var isDraft := YflowIsDraft(tmp[k]);
      if isDraft {
        best := YflowMaxG(root, best, tmp[k]);
      }
    }
    assert tmp[..|tmp|] == tmp;
  }

  lemma NoDraft(root: RootFunction, tmp: seq<Tflow>)
    requires tmp == []
    ensures Rankable(EMPTY_FLOW) && Probable(EMPTY_FLOW)
    ensures AllRanked(Drafts(tmp)) && MaxFlow(root, Drafts(tmp)) == EMPTY_FLOW
  {}

  /** One more row of the scan. */
  lemma NextDraft(root: RootFunction, tmp: seq<Tflow>, k: nat)
    requires AllRanked(tmp) && k < |tmp| && AllRanked(Drafts(tmp[..k]))
    ensures Rankable(tmp[k]) && Probable(tmp[k]) && AllRanked(Drafts(tmp[..k + 1]))
    ensures var m := MaxFlow(root, Drafts(tmp[..k]));
            MaxFlow(root, Drafts(tmp[..k + 1])) == if IsDraft(tmp[k]) then MaxG(root, m, tmp[k]) else m
  {
    hide IsDraft, MaxG, Rankable, Probable;
    var ds := Drafts(tmp[..k]);
    assert tmp[..k + 1][..k] == tmp[..k];
    assert (ds + [tmp[k]])[..|ds|] == ds;
  }

  /** A table of drafts is left as it is. */
  lemma {:induction false} AllAreDrafts(tmp: seq<Tflow>)
    requires AllDrafts(tmp)
    ensures Drafts(tmp) == tmp
  {
    if |tmp| > 0 { AllAreDrafts(tmp[..|tmp| - 1]); }
  }

  /** Reduces every row of the table by the executed cycle. */
  method UpdateTable(root: RootFunction, tmp: seq<Tflow>, best: Tflow, freeze: bool) returns (r: Result<seq<Tflow>>)
    requires IsRoot(root) && AllExecutable(tmp) && Executable(best)
    ensures r == UpdateAll(root, tmp, best, freeze)
  {
    hide Executable, Reduce, IsRoot;
    var us := [];
    for k := 0 to |tmp|
      invariant UpdateAll(root, tmp[..k], best, freeze) == Ok(us)
    {
      assert tmp[..k + 1][..k] == tmp[..k];
      var u := ReduceRow(root, tmp[k], best, freeze);
      if u.Err? {
        UpdateErrorStays(root, tmp, best, freeze, k + 1, |tmp|);
        assert tmp[..|tmp|] == tmp;
        return Err(u.error);
      }
      us := us + [u.value];
    }
    assert tmp[..|tmp|] == tmp;
    r := Ok(us);
  }

  method ReduceRow(root: RootFunction, c: Tflow, best: Tflow, freeze: bool) returns (r: Result<Tflow>)
    requires IsRoot(root) && Executable(c) && Executable(best)
    ensures r == Reduce(root, c, best, freeze)
  {
    r := Reduction.YflowReduce(root, c, best, freeze);
  }

  lemma {:induction false} UpdateErrorStays(root: RootFunction, tmp: seq<Tflow>, best: Tflow, freeze: bool, m: nat,
                                            n: nat)
    requires IsRoot(root) && AllExecutable(tmp) && Executable(best) && m <= n <= |tmp|
    requires UpdateAll(root, tmp[..m], best, freeze).Err?
    ensures UpdateAll(root, tmp[..n], best, freeze) == UpdateAll(root, tmp[..m], best, freeze)
    decreases n
  {
    hide Executable, Reduce, IsRoot;
    if m < n {
      UpdateErrorStays(root, tmp, best, freeze, m, n - 1);
      assert tmp[..n][..n - 1] == tmp[..n - 1];
    }
  }

  /** Deletes the rows that are not drafts. */
  method DeleteNonDrafts(tmp: seq<Tflow>) returns (ds: seq<Tflow>)
    ensures ds == Drafts(tmp)
  {
    ds := [];
    for k := 0 to |tmp|
      invariant ds == Drafts(tmp[..k])
    {
      assert tmp[..k + 1][..k] == tmp[..k];
      if IsDraft(tmp[k]) {
        ds := ds + [tmp[k]];
      }
    }
    assert tmp[..|tmp|] == tmp;
  }

  /** The best row of a table of cycles that can be executed. */
  method SelectBest(root: RootFunction, tmp: seq<Tflow>) returns (best: Tflow)
    requires AllExecutable(tmp)
    ensures best == Best(root, tmp)
    ensures IsDraft(best) <==> tmp != []
    ensures tmp != [] ==> best in tmp && Executable(best)
  {
    ExecutableRanked(tmp);
    AllAreDrafts(tmp);
    hide MaxFlow, Drafts;
    best := SelectMax(root, tmp);
  }

  // ---------------------------------------------------------------------------
  // Quotes

  /** Adds one cycle to the totals; the addition of bigints raises out of range. */
  method AddTotals(t: Totals, c: Tflow) returns (r: Result<Totals>)
    requires |c.x| >= 2
    ensures r == AddUp(t, c)
  {
    var n := |c.x|;
    var reci := t.reci + c.flowr[n - 2];
    if !FitsInt64(reci) {
      return Err(OutOfRange);
    }
    var give := t.give + c.flowr[n - 1];
    if !FitsInt64(give) {
      return Err(OutOfRange);
    }
    r := Ok(Totals(reci, give));
  }

  /** Adds one cycle to a quote. */
  method AddQuote(t: Quoting, c: Tflow, flags: QuoteFlags, first: bool) returns (r: Result<Quoting>)
    requires |c.x| >= 2
    ensures r == Quote(t, c, flags, first)
  {
    var u := AddTotals(t.totals, c);
    if u.Err? {
      return Err(u.error);
    }
    var requ, prov, qtt := t.requ, t.prov, t.qtt;
    var last := c.x[|c.x| - 1];
    if flags.isQuote {
      if first {
        requ, prov := last.qttRequ, last.qttProv;
      }
      if flags.isNoQttLimit {
        if !FitsInt64(qtt + last.qtt) {
          return Err(OutOfRange);
        }
        qtt := qtt + last.qtt;
      } else if first {
        qtt := last.qtt;
      }
    }
    r := Ok(Quoting(u.value, requ, prov, qtt));
  }

  /** Runs the matching loop on the table and adds up what the order receives and
      gives. */
  method RunQuoteLoop(root: RootFunction, tmp0: seq<Tflow>, flags: QuoteFlags)
    returns (r: Result<Quoting>, ghost cs: seq<Tflow>)
    requires IsRoot(root) && AllExecutable(tmp0)
    ensures var q := QuoteLoop(root, tmp0, 0, flags, UNQUOTED, true, []);
            q == if r.Ok? then Ok(Visited(r.value, cs)) else Err(r.error)
  {
    hide AllExecutable, Best, Executable, IsRoot, QuoteLoop, IsDraft, Quote, UpdateAll, Drafts;
    var tmp, t, first := tmp0, UNQUOTED, true;
    var nbmvts: nat := 0;
    ghost var all := QuoteLoop(root, tmp0, 0, flags, UNQUOTED, true, []);
    cs := [];
    while true
      invariant AllExecutable(tmp)
      invariant all == QuoteLoop(root, tmp, nbmvts, flags, t, first, cs)
      decreases |tmp|
    {
      var best := SelectBest(root, tmp);
      if !IsDraft(best) || nbmvts + |best.x| > MAXMVTPERTRANS {
        QuoteLoopStops(root, tmp, nbmvts, flags, t, first, cs);
        return Ok(t), cs;
      }
      LengthOf(best);
      QuoteLoopTurn(root, tmp, nbmvts, flags, t, first, cs);
      var t1 := AddQuote(t, best, flags, first);
      if t1.Err? {
        return Err(t1.error), cs;
      }
      var us := UpdateTable(root, tmp, best, first && flags.isIgnoreOmega && flags.isQuote);
      if us.Err? {
        return Err(us.error), cs;
      }
      tmp := DeleteNonDrafts(us.value);
      t, first := t1.value, false;
      nbmvts := nbmvts + |best.x|;
      cs := cs + [best];
    }
  }

  /** Produces a quote: the dry run of the matching loop. */
  method MakeQuote(root: RootFunction, book: seq<Row>, o: Order, now: int, flags: QuoteFlags)
    returns (r: Result<Quoted>)
    requires IsRoot(root) && Quotable(book, o)
    ensures r == Quotes.ProduceQuote(root, book, o, now, flags)
  {
    hide FcreateTmp, Quotable, AllExecutable, IsRoot, QuoteLoop, AboveLimit;
    var tmp := FcreateTmp(root, book, o, now);
    if tmp.Err? {
      return Err(tmp.error);
    }
    QuoteTableExecutable(root, book, o, now);
    var t, cs := RunQuoteLoop(root, tmp.value, flags);
    if t.Err? {
      return Err(t.error);
    }
    var give, reci := t.value.totals.give, t.value.totals.reci;
    if t.value.requ != 0 && flags.isLimit && flags.isQuote && AboveLimit(give, reci, t.value.prov, t.value.requ) {
      return Err(LimitNotObserved);
    }
    r := Ok(Quoted(reci, give));
  }

  // ---------------------------------------------------------------------------
  // The tables

  /** The rows of a stock: how many, and the least and greatest quantity. */
  datatype Stats = Stats(cnt: nat, min: int, max: int)

  /** What is known of the first n rows. */
  ghost predicate StatsOf(book: seq<Row>, oid: int, n: nat, s: Stats)
    requires n <= |book|
  {
    && (s.cnt == 0 <==> forall k :: 0 <= k < n ==> book[k].ord.oid != oid)
    && (forall k :: 0 <= k < n && book[k].ord.oid == oid ==> s.min <= book[k].ord.qtt <= s.max)
    && (s.cnt > 0 ==> exists k :: 0 <= k < n && book[k].ord.oid == oid && book[k].ord.qtt == s.min)
    && (s.cnt > 0 ==> exists k :: 0 <= k < n && book[k].ord.oid == oid && book[k].ord.qtt == s.max)
  }

  method SelectStats(book: seq<Row>, oid: int) returns (s: Stats)
    ensures StatsOf(book, oid, |book|, s)
  {
    s := Stats(0, 0, 0);
    for k := 0 to |book|
      invariant StatsOf(book, oid, k, s)
    {
      if book[k].ord.oid == oid {
        var q := book[k].ord.qtt;
        s := if s.cnt == 0 then Stats(1, q, q)
             else Stats(s.cnt + 1, if q < s.min then q else s.min, if q > s.max then q else s.max);
      }
    }
  }

  lemma StatsTell(book: seq<Row>, oid: int, s: Stats)
    requires StatsOf(book, oid, |book|, s)
    ensures s.cnt == 0 <==> !HasOid(book, oid)
    ensures s.cnt > 0 ==> (s.min == s.max <==> SameStock(book, oid))
    ensures s.cnt > 0 && s.min == s.max ==> HasOid(book, oid) && StockAt(book, oid) == s.min
  {}

  class Tables {
    var torder: seq<Row>
    var tmsg: seq<Message>
    var nextMvt: int

    constructor ()
      ensures Value() == Market([], [], 1)
    {
      torder, tmsg, nextMvt := [], [], 1;
    }

    /** The content of the tables. */
    ghost function Value(): Market
      reads this
    {
      Market(torder, tmsg, nextMvt)
    }

    /** Takes a flow from a stock, after the checks on the rows that hold it. Tells
        whether the stock is exhausted. */
    method TakeStock(oid: int, q: nat) returns (r: Result<bool>)
      modifies `torder
      ensures r.Ok? ==> Book.TakeStock(old(torder), oid, q) == Ok((torder, r.value))
      ensures r.Err? ==> Book.TakeStock(old(torder), oid, q) == Err(r.error) && torder == old(torder)
    {
      var s := SelectStats(torder, oid);
      StatsTell(torder, oid, s);
      hide StatsOf, SameStock, HasOid, StockAt;
      if s.cnt == 0 {
        return Err(StockMissing);
      }
      if s.min != s.max {
        return Err(StockNotUnique);
      }
      if s.min < q {
        return Err(StockTooSmall);
      }
      CanTakeKnown(torder, oid, q);
      torder := Take(torder, oid, q);
      r := Ok(s.min == q);
    }

    /** Executes a cycle: the book is debited, and there is a movement for each order.
        The loop starts with the last node, whose predecessor is the node before it,
        and goes on with the first. */
    method ExecuteFlow(c: Tflow) returns (r: Result<seq<Movement>>)
      requires IsDraft(c)
      modifies `torder, `nextMvt
      ensures r.Ok? ==> Book.ExecuteFlow(old(torder), c, old(nextMvt)).Ok?
                        && var e := Book.ExecuteFlow(old(torder), c, old(nextMvt)).value;
                           torder == e.book && r.value == e.mvts && nextMvt == old(nextMvt) + |c.x|
      ensures r.Err? ==> Book.ExecuteFlow(old(torder), c, old(nextMvt)) == Err(r.error)
    {
      ghost var was, first := torder, nextMvt;
      var n := |c.x|;
      var i, mvts, exhausted := n - 1, [], false;
      hide Book.TakeStock, RowOf;
      for next := 0 to n
        invariant 0 <= i < n && (next < n ==> i == Before(next, n))
        invariant nextMvt == first + next
        invariant ExecSteps(was, c, first, next) == Ok(Executed(torder, mvts, exhausted))
      {
        var t := TakeStock(c.x[i].oid, c.flowr[i]);
        if t.Err? {
          ExecErrorStays(was, c, first, next + 1, n);
          return Err(t.error);
        }
        var row := RowOf(torder, c.x[i].id);
        if row.None? {
          ExecErrorStays(was, c, first, next + 1, n);
          return Err(OrderMissing);
        }
        exhausted := exhausted || t.value;
        var o := row.value;
        mvts := mvts + [Movement(nextMvt, c.flowr[i], o.ord.quaProv, o.owner, o.usr, o.ord)];
        nextMvt := nextMvt + 1;
        i := next;
      }
      if !exhausted {
        return Err(NothingExhausted);
      }
      r := Ok(mvts);
    }

    /** Executes a cycle and tells the users of its orders. */
    method ExecuteCycle(o: Order, c: Tflow) returns (r: Result<()>)
      requires IsDraft(c)
      modifies this
      ensures r.Ok? ==> MarketRuns.ExecuteCycle(old(Value()), o, c) == Ok(Value())
      ensures r.Err? ==> MarketRuns.ExecuteCycle(old(Value()), o, c) == Err(r.error)
    {
      hide ExecSteps;
      var grp := nextMvt;
      var e := ExecuteFlow(c);
      if e.Err? {
        return Err(e.error);
      }
      var ms := OnCreateCycle(e.value, grp, o.id);
      tmsg := tmsg + ms;
      r := Ok(());
    }

    /** Inserts an order and executes its cycles, the best one first. On an error the
        transaction is aborted by the caller. */
    method InsertOrder(root: RootFunction, row: Row, now: int) returns (r: Result<Totals>, ghost cs: seq<Tflow>)
      requires IsRoot(root) && ValidBook(torder) && NewOrder(torder, row.ord)
      modifies this
      ensures Primitives.InsertOrder(root, old(Value()), row, now)
              == if r.Ok? then Ok(Outcome(Value(), r.value, cs)) else Err(r.error)
    {
      hide FcreateTmp, ValidBook, NewOrder, AllExecutable, IsRoot, InsertLoop, AboveLimit;
      cs := [];
      ghost var m := Value();
      torder := torder + [row];
      var t := FcreateTmp(root, torder, row.ord, now);
      if t.Err? {
        return Err(t.error), cs;
      }
      NewTableExecutable(root, m.torder, row, now);
      r, cs := MatchingLoop(root, row.ord, t.value);
      if r.Err? {
        return;
      }
      if r.value.give != 0 && OrderType(row.ord.kind) == ORDER_LIMIT &&
         AboveLimit(r.value.give, r.value.reci, row.ord.qttProv, row.ord.qttRequ) {
        r := Err(LimitNotObserved);
      }
    }

    /** Executes an order or a quote in one transaction. An exception rolls the tables
        back; the movement ids drawn from their sequence are lost. */
    method Execute(root: RootFunction, e: Runs.Entry, now: int) returns (r: Result<()>)
      requires IsRoot(root) && Runs.ReadyFor(Value(), e.id)
      modifies this
      ensures r.Ok? ==> Runs.Execute(root, old(Value()), e, now) == Ok(Value())
      ensures r.Err? ==> Runs.Execute(root, old(Value()), e, now) == Err(r.error)
      ensures r.Err? ==> torder == old(torder) && tmsg == old(tmsg)
    {
      hide Runs.ReadyFor, ValidBook, NewOrder, Primitives.InsertOrder, Quotes.ProduceQuote, Quotable;
      Runs.ReadyIsValid(Value(), e.id);
      Runs.EntryIsNew(Value(), e);
      NewIsQuotable(torder, Runs.OrderOf(e));
      if e.isOrder {
        var was, msgs := torder, tmsg;
        var t, cs := InsertOrder(root, Runs.RowOfEntry(e), now);
        if t.Err? {
          torder, tmsg := was, msgs;
          return Err(t.error);
        }
      } else {
        var o := Runs.OrderOf(e);
        var q := MakeQuote(root, torder, o, now, FlagsOf(o));
        if q.Err? {
          return Err(q.error);
        }
      }
      r := Ok(());
    }

    /** The loop of an insertion. */
    method MatchingLoop(root: RootFunction, o: Order, tmp0: seq<Tflow>)
      returns (r: Result<Totals>, ghost cs: seq<Tflow>)
      requires IsRoot(root) && AllExecutable(tmp0)
      modifies this
      ensures InsertLoop(root, old(Value()), o, tmp0, 0, NOTHING, [])
              == if r.Ok? then Ok(Outcome(Value(), r.value, cs)) else Err(r.error)
    {
      hide AllExecutable, Best, Executable, IsRoot, InsertLoop, IsDraft, AddUp, UpdateAll, Drafts;
      hide MarketRuns.ExecuteCycle;
      var tmp, t := tmp0, NOTHING;
      var nbmvts: nat := 0;
      ghost var all := InsertLoop(root, Value(), o, tmp0, 0, NOTHING, []);
      cs := [];
      while true
        invariant AllExecutable(tmp)
        invariant all == InsertLoop(root, Value(), o, tmp, nbmvts, t, cs)
        decreases |tmp|
      {
        var best := SelectBest(root, tmp);
        if !IsDraft(best) || nbmvts + |best.x| > MAXMVTPERTRANS {
          InsertLoopStops(root, Value(), o, tmp, nbmvts, t, cs);
          return Ok(t), cs;
        }
        LengthOf(best);
        InsertLoopTurn(root, Value(), o, tmp, nbmvts, t, cs);
        var e := ExecuteCycle(o, best);
        if e.Err? {
          return Err(e.error), cs;
        }
        var t1 := AddTotals(t, best);
        if t1.Err? {
          return Err(t1.error), cs;
        }
        var us := UpdateTable(root, tmp, best, false);
        if us.Err? {
          return Err(us.error), cs;
        }
        tmp := DeleteNonDrafts(us.value);
        t := t1.value;
        nbmvts := nbmvts + |best.x|;
        cs := cs + [best];
      }
    }
  }

  lemma CanTakeKnown(book: seq<Row>, oid: int, q: nat)
    requires HasOid(book, oid) && SameStock(book, oid) && StockAt(book, oid) >= q
    ensures CanTakeFrom(book, oid, q)
  {}

  lemma {:induction false} ExecErrorStays(book: seq<Row>, c: Tflow, first: int, m: nat, n: nat)
    requires IsDraft(c) && m <= n <= |c.x| && ExecSteps(book, c, first, m).Err?
    ensures ExecSteps(book, c, first, n) == ExecSteps(book, c, first, m)
    decreases n
  {
    hide TakeStock, RowOf;
    if m < n { ExecErrorStays(book, c, first, m, n - 1); }
  }
}
