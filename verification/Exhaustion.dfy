/** Every cached cycle that uses a stock taken whole by the executed cycle is dropped,
    in the tables of orders and of quotes. */
module Exhaustion {
  import opened Numeric
  import opened FlowTypes
  import opened Gains
  import opened Kernel
  import opened Orders
  import opened Yflow
  import opened Search
  import opened Matching
  import opened MarketRuns
  import opened Quotes

  /** Limited nodes with the same stock hold the same quantity. */
  ghost predicate Agree(c: Tflow, d: Tflow) {
    forall i, j ::
      0 <= i < |c.x| && 0 <= j < |d.x| && IsLimited(c.x, i) && IsLimited(d.x, j) && c.x[i].oid == d.x[j].oid
      ==> c.x[i].qtt == d.x[j].qtt
  }

  ghost predicate AllAgree(tmp: seq<Tflow>) {
    forall k, l :: 0 <= k < |tmp| && 0 <= l < |tmp| ==> Agree(tmp[k], tmp[l])
  }

  /** The executed cycle takes the whole stock of its node e. */
  ghost predicate Spends(best: Tflow, e: nat) {
    e < |best.x| && IsLimited(best.x, e) && best.flowr[e] == best.x[e].qtt
  }

  /** The cycle draws on a stock. */
  ghost predicate DrawsOn(c: Tflow, oid: int) {
    exists j :: 0 <= j < |c.x| && IsLimited(c.x, j) && c.x[j].oid == oid
  }

  lemma SpentNodeIsEmpty(c: Tflow, best: Tflow, freeze: bool, e: nat, j: nat)
    requires Executable(c) && Executable(best) && AllCanGive(c.x, best) && Agree(c, best) && Spends(best, e)
    requires j < |c.x| && IsLimited(c.x, j) && c.x[j].oid == best.x[e].oid
    ensures SomeStockEmpty(ReducedNodes(c.x, best, freeze))
  {
    hide Rankable, Probable, SpendsOne, DistinctOids;
    assert Executable(best);
    DistinctOf(best);
    AmountAt(best, e);
    hide Amount;
    var z := ReducedNodes(c.x, best, freeze);
    assert z[j].qtt == 0;
  }

  lemma DistinctOf(c: Tflow)
    requires Executable(c)
    ensures DistinctOids(c.x) && IsDraft(c)
  {}

  lemma SpentRowIsDropped(root: RootFunction, c: Tflow, best: Tflow, freeze: bool, e: nat)
    requires IsRoot(root) && Executable(c) && Executable(best) && Reduce(root, c, best, freeze).Ok?
    requires Agree(c, best) && Spends(best, e) && DrawsOn(c, best.x[e].oid)
    ensures !IsDraft(Reduce(root, c, best, freeze).value)
  {
    hide ReducedNodes, SomeStockEmpty, SpendsOne, InnerLimited, DistinctOids, Rankable, Probable, FlowcMaximum;
    hide IsLimited, Agree;
    var j :| 0 <= j < |c.x| && IsLimited(c.x, j) && c.x[j].oid == best.x[e].oid;
    SpentNodeIsEmpty(c, best, freeze, e, j);
    EmptyStockNotDraft(root, FlowRecord(ReducedNodes(c.x, best, freeze), c.flowr));
  }

  /** A round drops every row that draws on a stock taken whole by the best cycle. */
  lemma RoundDropsSpent(root: RootFunction, tmp: seq<Tflow>, best: Tflow, freeze: bool, e: nat, k: nat)
    requires IsRoot(root) && AllExecutable(tmp) && AllAgree(tmp) && best in tmp && Executable(best)
    requires UpdateAll(root, tmp, best, freeze).Ok? && Spends(best, e)
    requires k < |tmp| && DrawsOn(tmp[k], best.x[e].oid)
    ensures !IsDraft(UpdateAll(root, tmp, best, freeze).value[k])
  {
    hide Executable, Reduce, IsDraft, UpdateAll, IsRoot, DrawsOn, Agree;
    UpdateAllAt(root, tmp, best, freeze, k);
    SpentRowIsDropped(root, tmp[k], best, freeze, e);
  }

  // ---------------------------------------------------------------------------
  // The rows of a table agree

  /** Freezing a price does not put back a stock that was not limited. */
  ghost predicate FreezesUnlimited(c: Tflow, freeze: bool)
    requires |c.x| >= 1
  {
    var kind := c.x[|c.x| - 1].kind;
    freeze && IsIgnoreOmega(kind) ==> IsNoQttLimit(kind)
  }

  lemma UnfrozenFlags(kind: nat)
    requires IsIgnoreOmega(kind)
    ensures kind >= 8 && IsNoQttLimit(kind - 8) == IsNoQttLimit(kind)
  {
    assert kind / 8 >= 1;
    var q := kind / 4;
    assert (kind - 8) / 4 == q - 2;
    assert (q - 2) % 2 == q % 2;
  }

  /** The limited nodes of what is left of a cycle are limited nodes of the cycle, with
      what was taken from their stocks. */
  lemma ReducedStock(root: RootFunction, c: Tflow, best: Tflow, freeze: bool, j: nat)
    requires IsRoot(root) && Executable(c) && Executable(best) && Reduce(root, c, best, freeze).Ok?
    requires IsDraft(Reduce(root, c, best, freeze).value) && FreezesUnlimited(c, freeze)
    ensures var g := Reduce(root, c, best, freeze).value;
            && |g.x| == |c.x|
            && (j < |c.x| && IsLimited(g.x, j) ==>
                  && IsLimited(c.x, j) && g.x[j].oid == c.x[j].oid
                  && g.x[j].qtt == c.x[j].qtt - Amount(best, c.x[j].oid))
  {
    hide FlowcMaximum, Rankable, Probable, SpendsOne, DistinctOids, AllPriced, NonNegative, Amount, AmountUpTo;
    var z := ReducedNodes(c.x, best, freeze);
    var f := FlowRecord(z, c.flowr);
    var g := FlowcMaximum(root, f).value;
    DraftStatus(root, f, g);
    FoundHasNodes(root, f, g.flow);
    if IsIgnoreOmega(c.x[|c.x| - 1].kind) { UnfrozenFlags(c.x[|c.x| - 1].kind); }
    FoundSameSize(z, g.flow);
    if j < |c.x| {
      LimitedIsGiven(c.x, best, freeze, j);
      SettledLimited(z, g.flow, j);
    }
  }

  lemma SettledLimited(z: seq<Tfl>, g: Tflow, j: nat)
    requires FoundNodes(z, g) && j < |z|
    ensures |g.x| == |z| && (IsLimited(g.x, j) <==> IsLimited(z, j))
    ensures g.x[j].oid == z[j].oid && (IsLimited(z, j) ==> g.x[j].qtt == z[j].qtt)
  {
    hide AllPriced, NonNegative, DistinctOids;
  }

  lemma LimitedIsGiven(x: seq<Tfl>, best: Tflow, freeze: bool, j: nat)
    requires |x| >= 2 && IsDraft(best) && AllCanGive(x, best) && InnerLimited(x) && j < |x|
    requires var kind := x[|x| - 1].kind; freeze && IsIgnoreOmega(kind) ==> IsNoQttLimit(kind)
    ensures var z := ReducedNodes(x, best, freeze);
            && z[j].oid == x[j].oid
            && (IsLimited(z, j) ==> IsLimited(x, j) && z[j].qtt == x[j].qtt - Amount(best, x[j].oid))
  {
    hide Amount;
    if IsIgnoreOmega(x[|x| - 1].kind) { UnfrozenFlags(x[|x| - 1].kind); }
  }

  lemma ReducedAgree(root: RootFunction, c: Tflow, d: Tflow, best: Tflow, freeze: bool)
    requires IsRoot(root) && Executable(c) && Executable(d) && Executable(best) && Agree(c, d)
    requires Reduce(root, c, best, freeze).Ok? && Reduce(root, d, best, freeze).Ok?
    requires IsDraft(Reduce(root, c, best, freeze).value) && IsDraft(Reduce(root, d, best, freeze).value)
    requires FreezesUnlimited(c, freeze) && FreezesUnlimited(d, freeze)
    ensures Agree(Reduce(root, c, best, freeze).value, Reduce(root, d, best, freeze).value)
  {
    DistinctOf(best);
    hide Executable, Reduce, IsDraft, IsRoot, IsLimited, Amount, FreezesUnlimited;
    var g, h := Reduce(root, c, best, freeze).value, Reduce(root, d, best, freeze).value;
    ReducedStock(root, c, best, freeze, |c.x|);
    ReducedStock(root, d, best, freeze, |d.x|);
    forall i, j | 0 <= i < |g.x| && 0 <= j < |h.x| && IsLimited(g.x, i) && IsLimited(h.x, j) &&
                  g.x[i].oid == h.x[j].oid
      ensures g.x[i].qtt == h.x[j].qtt
    {
      ReducedStock(root, c, best, freeze, i);
      ReducedStock(root, d, best, freeze, j);
    }
  }

  ghost predicate AllFreezeUnlimited(tmp: seq<Tflow>, freeze: bool) {
    forall k :: 0 <= k < |tmp| ==> |tmp[k].x| >= 1 && FreezesUnlimited(tmp[k], freeze)
  }

  /** A round leaves rows that agree. */
  lemma RoundKeepsAgree(root: RootFunction, tmp: seq<Tflow>, best: Tflow, freeze: bool)
    requires IsRoot(root) && AllExecutable(tmp) && AllAgree(tmp) && Executable(best)
    requires UpdateAll(root, tmp, best, freeze).Ok? && AllFreezeUnlimited(tmp, freeze)
    ensures AllAgree(Drafts(UpdateAll(root, tmp, best, freeze).value))
  {
    hide Executable, Reduce, IsDraft, UpdateAll, Drafts, IsRoot, Agree, FreezesUnlimited;
    var us := UpdateAll(root, tmp, best, freeze).value;
    var ds := Drafts(us);
    forall k, l | 0 <= k < |ds| && 0 <= l < |ds|
      ensures Agree(ds[k], ds[l])
    {
      var i :| 0 <= i < |us| && us[i] == ds[k];
      var j :| 0 <= j < |us| && us[j] == ds[l];
      UpdateAllAt(root, tmp, best, freeze, i);
      UpdateAllAt(root, tmp, best, freeze, j);
      ReducedAgree(root, tmp[i], tmp[j], best, freeze);
    }
  }

  // ---------------------------------------------------------------------------
  // The table of an order, or of a quote with flags

  /** The limited nodes hold the stocks of the book, or that of the new order. */
  ghost predicate HoldsStocks(book: seq<Row>, o: Order, c: Tflow) {
    forall i :: 0 <= i < |c.x| && IsLimited(c.x, i) ==> HoldsStock(book, o, c.x, i)
  }

  ghost predicate HoldsStock(book: seq<Row>, o: Order, x: seq<Tfl>, i: nat)
    requires i < |x|
  {
    if i == |x| - 1 then x[i].oid == o.oid && x[i].qtt == o.qtt
    else x[i].oid != o.oid && exists k :: 0 <= k < |book| && book[k].ord.oid == x[i].oid && book[k].ord.qtt == x[i].qtt
  }

  lemma HoldersAgree(book: seq<Row>, o: Order, c: Tflow, d: Tflow)
    requires SharedStocks(book) && HoldsStocks(book, o, c) && HoldsStocks(book, o, d)
    ensures Agree(c, d)
  {
    hide IsLimited;
    forall i, j | 0 <= i < |c.x| && 0 <= j < |d.x| && IsLimited(c.x, i) && IsLimited(d.x, j) &&
                  c.x[i].oid == d.x[j].oid
      ensures c.x[i].qtt == d.x[j].qtt
    {
      assert HoldsStock(book, o, c.x, i) && HoldsStock(book, o, d.x, j);
    }
  }

  lemma ClosedHolds(root: RootFunction, book: seq<Row>, o: Order, now: int, p: Path)
    requires IsRoot(root) && SoundRow(book, o, now, 1, p) && Finish(root, p.debut, p.path, p.fin).Ok?
    requires IsDraft(Finish(root, p.debut, p.path, p.fin).value)
    ensures HoldsStocks(book, o, Finish(root, p.debut, p.path, p.fin).value)
  {
    hide FlowcMaximum, Matches, IsDraft, IsLimited, FoundNodes;
    var n := |p.path.x|;
    var os: seq<Order> :| IsPathOf(book, o, now, |os|, p, os) && 1 <= |os| <= MAXCYCLE;
    var f := FlowRecord(p.path.x[n - 1 := p.path.x[n - 1].(proba := 1.0)], p.path.flowr);
    var g := FlowcMaximum(root, f).value;
    DraftStatus(root, f, g);
    FoundHasNodes(root, f, g.flow);
    FoundSameSize(f.x, g.flow);
    forall i | 0 <= i < |g.flow.x| && IsLimited(g.flow.x, i)
      ensures HoldsStock(book, o, g.flow.x, i)
    {
      SettledLimited(f.x, g.flow, i);
      assert f.x[i].oid == os[i].oid && f.x[i].qtt == os[i].qtt;
      if i < |os| - 1 {
        assert InBook(book, now, os[i]);
        assert os[i].oid != os[|os| - 1].oid;
      }
    }
  }

  lemma FoundSameSize(x: seq<Tfl>, g: Tflow)
    requires FoundNodes(x, g)
    ensures |g.x| == |x|
  {
    hide AllPriced, NonNegative, DistinctOids;
  }

  lemma {:induction false} CloseHoldsStocks(root: RootFunction, book: seq<Row>, o: Order, now: int, ps: seq<Path>)
    requires IsRoot(root) && RowsSound(book, o, now, 1, ps) && Close(root, ps).Ok?
    ensures forall k :: 0 <= k < |Close(root, ps).value| ==> HoldsStocks(book, o, Close(root, ps).value[k])
  {
    hide Finish, SoundRow, IsRoot, Matches, HoldsStocks;
    if |ps| > 0 {
      var init, p := ps[..|ps| - 1], ps[|ps| - 1];
      assert forall k :: 0 <= k < |init| ==> init[k] == ps[k];
      CloseHoldsStocks(root, book, o, now, init);
      if Matches(p.fin, p.debut) && IsDraft(Finish(root, p.debut, p.path, p.fin).value) {
        ClosedHolds(root, book, o, now, p);
      }
    }
  }

  /** The rows recorded for an order, with or without quote flags, agree. */
  lemma TableAgrees(root: RootFunction, book: seq<Row>, o: Order, now: int)
    requires IsRoot(root) && Quotable(book, o) && FcreateTmp(root, book, o, now).Ok?
    ensures AllAgree(FcreateTmp(root, book, o, now).value)
  {
    SearchIsChains(book, o, now);
    var rows := SearchFrom(book, FirstLevel(o), 1, now).value;
    hide RowsComplete, SearchFrom, Matches, Close, UniqueIds, Agree, HoldsStocks;
    assert RowsSound(book, o, now, 1, Limited(rows));
    CloseHoldsStocks(root, book, o, now, Limited(rows));
    var tmp := FcreateTmp(root, book, o, now).value;
    forall k, l | 0 <= k < |tmp| && 0 <= l < |tmp|
      ensures Agree(tmp[k], tmp[l])
    {
      HoldersAgree(book, o, tmp[k], tmp[l]);
    }
  }
}
