/** What a new order can receive: no more than the stocks that match what it asks. */
module Supplies {
  import opened Numeric
  import opened FlowTypes
  import opened Orders
  import opened Kernel
  import opened Yflow
  import opened Search
  import opened Cycles
  import opened Matching
  import opened Coherence
  import opened Settlement
  import opened MarketRuns

  /** What remains in the stocks whose quality matches `requ`, each counted once,
      with the order that owns it. */
  function Supply(book: seq<Row>, requ: string): nat {
    if |book| == 0 then 0
    else
      var r := book[|book| - 1];
      Supply(book[..|book| - 1], requ) +
      if IsParent(r) && MatchQuality(r.ord.quaProv, requ) then r.ord.qtt else 0
  }

  /** The order before the new one in a cycle provides what the new one asks for. */
  ghost predicate Supplied(book: seq<Row>, o: Order, c: Tflow) {
    |c.x| >= 2 && exists k: nat :: SupplierAt(book, o, c, k)
  }

  ghost predicate SupplierAt(book: seq<Row>, o: Order, c: Tflow, k: nat)
    requires |c.x| >= 2
  {
    NodeAt(book, c.x[|c.x| - 2], k) && MatchQuality(book[k].ord.quaProv, o.quaRequ)
  }

  ghost predicate AllSupplied(book: seq<Row>, o: Order, tmp: seq<Tflow>) {
    forall k :: 0 <= k < |tmp| ==> Supplied(book, o, tmp[k])
  }

  lemma DebitedPrefix(book: seq<Row>, c: Tflow, n: nat)
    requires Affordable(book, c) && n <= |book|
    ensures Affordable(book[..n], c) && DebitBook(book, c)[..n] == DebitBook(book[..n], c)
  {
    hide Amount;
  }

  /** A cycle takes from the supply at least what it takes from the stock of row p. */
  lemma {:induction false} SupplyDebited(book: seq<Row>, c: Tflow, requ: string, p: nat)
    requires Affordable(book, c)
    requires p < |book| ==> IsParent(book[p]) && MatchQuality(book[p].ord.quaProv, requ)
    ensures Supply(DebitBook(book, c), requ) <=
            Supply(book, requ) - if p < |book| then Amount(c, book[p].ord.oid) else 0
  {
    hide Amount, MatchQuality;
    if |book| > 0 {
      var n := |book| - 1;
      DebitedPrefix(book, c, n);
      hide Affordable, DebitBook;
      SupplyDebited(book[..n], c, requ, p);
    }
  }

  /** What the new order receives from a cycle comes from the supply. */
  lemma CycleDrawsSupply(root: RootFunction, o: Order, stock: Stock, book: seq<Row>, c: Tflow)
    requires IsRoot(root) && Cached(root, o, stock, c) && ValidBook(book)
    requires Affordable(book, c) && Supplied(book, o, c)
    ensures |c.x| >= 2 && Receive(c) <= Supply(book, o.quaRequ) - Supply(DebitBook(book, c), o.quaRequ)
  {
    hide FlowcMaximum, Amount, Supply, MatchQuality;
    var k: nat :| SupplierAt(book, o, c, k);
    assert HasParent(book, book[k].ord.oid);
    var p :| ParentAt(book, book[k].ord.oid, p);
    AmountAt(c, |c.x| - 2);
    SupplyDebited(book, c, o.quaRequ, p);
  }

  /** Executing the best cycle leaves the others supplied. */
  lemma SuppliedKept(root: RootFunction, o: Order, stock: Stock, book: seq<Row>, c: Tflow, best: Tflow)
    requires IsRoot(root) && Cached(root, o, stock, c) && Cached(root, o, stock, best)
    requires Supplied(book, o, c) && Affordable(book, best) && Reduce(root, c, best, false).Ok?
    ensures Supplied(DebitBook(book, best), o, Reduce(root, c, best, false).value)
  {
    hide *;
    CachedIsDraft(root, o, stock, c);
    CachedIsDraft(root, o, stock, best);
    ReducedIds(root, o, stock, c, best);
    SupplierStays(book, o, c, best, Reduce(root, c, best, false).value);
  }

  lemma SupplierStays(book: seq<Row>, o: Order, c: Tflow, best: Tflow, g: Tflow)
    requires Supplied(book, o, c) && Affordable(book, best) && |g.x| == |c.x|
    requires forall i :: 0 <= i < |c.x| ==> g.x[i].id == c.x[i].id && g.x[i].oid == c.x[i].oid
    ensures Supplied(DebitBook(book, best), o, g)
  {
    hide MatchQuality, Affordable, Amount;
    var k: nat :| SupplierAt(book, o, c, k);
    assert SupplierAt(DebitBook(book, best), o, g, k);
  }

  lemma AllSuppliedKept(root: RootFunction, book: seq<Row>, o: Order, stock: Stock, tmp: seq<Tflow>, best: Tflow)
    requires IsRoot(root) && AllCached(root, o, stock, tmp) && AllSupplied(book, o, tmp)
    requires AllExecutable(tmp) && Executable(best) && Cached(root, o, stock, best) && Affordable(book, best)
    requires UpdateAll(root, tmp, best, false).Ok?
    ensures AllSupplied(DebitBook(book, best), o, Drafts(UpdateAll(root, tmp, best, false).value))
  {
    hide *;
    var us := UpdateAll(root, tmp, best, false).value;
    forall k | 0 <= k < |Drafts(us)|
      ensures Supplied(DebitBook(book, best), o, Drafts(us)[k])
    {
      assert Drafts(us)[k] in us;
      var j :| 0 <= j < |us| && us[j] == Drafts(us)[k];
      UpdateAllAt(root, tmp, best, false, j);
      RowKept(root, o, stock, book, tmp, best, j);
    }
    AllSuppliedIf(DebitBook(book, best), o, Drafts(us));
  }

  lemma RowKept(root: RootFunction, o: Order, stock: Stock, book: seq<Row>, tmp: seq<Tflow>, best: Tflow, j: nat)
    requires IsRoot(root) && AllCached(root, o, stock, tmp) && AllSupplied(book, o, tmp) && j < |tmp|
    requires AllExecutable(tmp) && Executable(best) && Cached(root, o, stock, best) && Affordable(book, best)
    requires Reduce(root, tmp[j], best, false).Ok?
    ensures Supplied(DebitBook(book, best), o, Reduce(root, tmp[j], best, false).value)
  {
    hide Cached, Executable, Reduce, IsRoot, Affordable, DebitBook, Amount, IsDraft, Supplied;
    SuppliedKept(root, o, stock, book, tmp[j], best);
  }

  lemma AllSuppliedIf(book: seq<Row>, o: Order, tmp: seq<Tflow>)
    requires forall k :: 0 <= k < |tmp| ==> Supplied(book, o, tmp[k])
    ensures AllSupplied(book, o, tmp)
  {
    hide Supplied;
  }

  /** Over all cycles of the loop together the new order receives no more than the
      supply. */
  lemma {:induction false} LoopWithinSupply(root: RootFunction, m: Market, o: Order, stock: Stock, tmp: seq<Tflow>,
                                            moved: nat)
    requires IsRoot(root) && Coherent(root, m.torder, o, stock, tmp) && AllExecutable(tmp)
    requires AllSupplied(m.torder, o, tmp)
    ensures MatchLoop(root, tmp, moved, false).Ok?
    ensures TotalReceive(MatchLoop(root, tmp, moved, false).value) <= Supply(m.torder, o.quaRequ)
    decreases |tmp|
  {
    hide *;
    var best := Best(root, tmp);
    if tmp == [] || moved + |best.x| > MAXMVTPERTRANS {
      LoopStops(root, tmp, moved, false);
      NothingTraded(o);
    } else {
      BestIsDraft(root, tmp);
      RoundOnMarket(root, m, o, stock, tmp, best);
      RoundShrinks(root, tmp, best, false);
      var m1 := ExecuteCycle(m, o, best).value;
      var ds := Drafts(UpdateAll(root, tmp, best, false).value);
      CoherentParts(root, m.torder, o, stock, tmp);
      AllSuppliedKept(root, m.torder, o, stock, tmp, best);
      BestSupplied(m.torder, o, tmp, best);
      CycleDrawsSupply(root, o, stock, m.torder, best);
      LoopWithinSupply(root, m1, o, Debit(stock, best), ds, moved + |best.x|);
      LoopGoesOn(root, tmp, moved, false);
      ReceiveFirst(best, MatchLoop(root, ds, moved + |best.x|, false).value);
    }
  }

  lemma BestSupplied(book: seq<Row>, o: Order, tmp: seq<Tflow>, best: Tflow)
    requires AllSupplied(book, o, tmp) && best in tmp
    ensures Supplied(book, o, best)
  {}

  /** The cycles found through a new order are supplied. */
  lemma TableSupplied(root: RootFunction, book: seq<Row>, o: Order, now: int, tmp: seq<Tflow>)
    requires IsRoot(root) && TmpSound(root, book, o, now, tmp)
    ensures AllSupplied(book, o, tmp)
  {
    hide Recorded, MatchQuality;
    forall k | 0 <= k < |tmp|
      ensures Supplied(book, o, tmp[k])
    {
      assert SoundCycle(root, book, o, now, tmp[k]);
      var os :| IsCycleOf(root, book, o, now, tmp[k], os);
      var n := |os|;
      assert InBook(book, now, os[n - 2]) && Matches(os[n - 2], os[n - 1]);
      var j: nat :| j < |book| && book[j].ord == os[n - 2];
      assert SupplierAt(book, o, tmp[k], j);
    }
  }
}
