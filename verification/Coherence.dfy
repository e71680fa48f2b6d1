/** The temporary table agrees with the stocks all along the matching loop. */
module Coherence {
  import opened Numeric
  import opened FlowTypes
  import opened Orders
  import opened Kernel
  import opened Guarantees
  import opened Yflow
  import opened Cycles
  import opened Matching

  /** The stock of each order that owns one, by its id. */
  type Stock = map<int, int>

  /** Every node holds the current stock. */
  ghost predicate Backed(x: seq<Tfl>, stock: Stock) {
    forall i :: 0 <= i < |x| ==> x[i].oid in stock && x[i].qtt == stock[x[i].oid]
  }

  /** The last node is the new order. */
  ghost predicate EndsWith(x: seq<Tfl>, o: Order) {
    |x| >= 1 && var last := x[|x| - 1];
    && last.kind == o.kind && last.id == o.id && last.oid == o.oid
    && last.qttRequ == o.qttRequ && last.qttProv == o.qttProv
  }

  /** A cached cycle agrees with the stocks: its nodes hold them, and its flow is
      the one the kernel finds for them. */
  ghost predicate Cached(root: RootFunction, o: Order, stock: Stock, c: Tflow)
    requires IsRoot(root)
  {
    Recorded(root, c) && Backed(c.x, stock) && EndsWith(c.x, o)
  }

  ghost predicate AllCached(root: RootFunction, o: Order, stock: Stock, tmp: seq<Tflow>)
    requires IsRoot(root)
  {
    forall k :: 0 <= k < |tmp| ==> Cached(root, o, stock, tmp[k])
  }

  /** The stocks after an executed cycle. */
  ghost function Debit(stock: Stock, c: Tflow): (s: Stock)
    ensures s.Keys == stock.Keys
  {
    map k | k in stock :: stock[k] - if IsDraft(c) then Amount(c, k) else 0
  }

  lemma CachedIsDraft(root: RootFunction, o: Order, stock: Stock, c: Tflow)
    requires IsRoot(root) && Cached(root, o, stock, c)
    ensures |c.x| >= 2 && IsDraft(c)
  {
    hide FlowcMaximum, Backed, EndsWith;
  }

  lemma RecordedIsExecutable(root: RootFunction, c: Tflow)
    requires IsRoot(root) && Recorded(root, c)
    ensures Executable(c)
  {
    hide FlowcMaximum, Executable;
    assert InnerLimited(c.x) by {
      forall i | 0 <= i < |c.x| - 1
        ensures !IsNoQttLimit(c.x[i].kind)
      {
        assert PlainNode(c.x[i]);
      }
    }
    FoundIsExecutable(root, c, c);
  }

  lemma CachedAreExecutable(root: RootFunction, o: Order, stock: Stock, tmp: seq<Tflow>)
    requires IsRoot(root) && AllCached(root, o, stock, tmp)
    ensures AllExecutable(tmp)
  {
    hide Recorded, Executable, Backed, EndsWith;
    forall k | 0 <= k < |tmp|
      ensures Executable(tmp[k])
    {
      assert Cached(root, o, stock, tmp[k]);
      RecordedIsExecutable(root, tmp[k]);
    }
  }

  lemma RecordedWithinStocks(root: RootFunction, c: Tflow)
    requires IsRoot(root) && Recorded(root, c)
    ensures forall i :: 0 <= i < |c.x| ==> 0 < c.flowr[i] <= c.x[i].qtt
  {
    hide FlowcMaximum;
    DraftWithinStocks(root, c, c);
    RegularUnflagged(c.x);
    forall i | 0 <= i < |c.x|
      ensures 0 < c.flowr[i] <= c.x[i].qtt
    {
      assert PlainNode(c.x[i]);
      assert Opened(c.x)[i] == c.x[i];
    }
  }

  /** An executed cycle takes no more than there is. */
  lemma AmountWithinStock(root: RootFunction, o: Order, stock: Stock, c: Tflow, oid: int)
    requires IsRoot(root) && Cached(root, o, stock, c)
    ensures 0 <= Amount(c, oid)
    ensures Amount(c, oid) == 0 || (oid in stock && Amount(c, oid) <= stock[oid])
    ensures Amount(c, oid) != 0 ==> exists i :: 0 <= i < |c.x| && c.x[i].oid == oid
  {
    RecordedWithinStocks(root, c);
    hide FlowcMaximum, Amount, PlainNode;
    if i :| 0 <= i < |c.x| && c.x[i].oid == oid {
      AmountAt(c, i);
    } else {
      AmountIsNone(c, oid);
    }
  }

  lemma AmountIsNone(c: Tflow, oid: int)
    requires IsDraft(c) && forall i :: 0 <= i < |c.x| ==> c.x[i].oid != oid
    ensures Amount(c, oid) == 0
  {
    AmountNone(c, |c.x|, oid);
  }

  /** The reduction by an executed cycle gives the nodes their new stocks. */
  lemma ReducedNodesBacked(root: RootFunction, o: Order, stock: Stock, c: Tflow, best: Tflow, freeze: bool)
    requires IsRoot(root) && Cached(root, o, stock, c) && Cached(root, o, stock, best)
    ensures AllCanGive(c.x, best)
    ensures var z := ReducedNodes(c.x, best, freeze);
            Regular(z) && Backed(z, Debit(stock, best)) && EndsWith(z, o)
  {
    hide FlowcMaximum, Amount;
    forall j | 0 <= j < |c.x|
      ensures Amount(best, c.x[j].oid) <= c.x[j].qtt
    {
      AmountWithinStock(root, o, stock, best, c.x[j].oid);
    }
    RegularUnflagged(c.x);
    var z := ReducedNodes(c.x, best, freeze);
    forall j | 0 <= j < |c.x|
      ensures z[j] == c.x[j].(qtt := c.x[j].qtt - Amount(best, c.x[j].oid))
      ensures PlainNode(z[j])
    {
      assert PlainNode(c.x[j]);
    }
  }

  /** Reducing a cached cycle raises nothing, and what stays a draft agrees with
      the new stocks. */
  lemma ReduceKeepsCached(root: RootFunction, o: Order, stock: Stock, c: Tflow, best: Tflow, freeze: bool)
    requires IsRoot(root) && Cached(root, o, stock, c) && Cached(root, o, stock, best)
    ensures Reduce(root, c, best, freeze).Ok?
    ensures var g := Reduce(root, c, best, freeze).value;
            IsDraft(g) ==> Cached(root, o, Debit(stock, best), g)
  {
    hide FlowcMaximum, ReducedNodes, Regular, IsDraft, Debit, Backed, AllCanGive;
    ReducedNodesBacked(root, o, stock, c, best, freeze);
    var f := FlowRecord(ReducedNodes(c.x, best, freeze), c.flowr);
    RegularComputes(root, f);
    if IsDraft(FlowcMaximum(root, f).value.flow) {
      ComputedIsRecorded(root, f);
    }
  }

  lemma {:induction false} UpdateAllSucceeds(root: RootFunction, o: Order, stock: Stock, tmp: seq<Tflow>,
                                             best: Tflow, freeze: bool)
    requires IsRoot(root) && AllCached(root, o, stock, tmp) && Cached(root, o, stock, best)
    requires AllExecutable(tmp) && Executable(best)
    ensures UpdateAll(root, tmp, best, freeze).Ok?
  {
    hide Cached, Executable, Reduce, IsRoot;
    if |tmp| > 0 {
      UpdateAllSucceeds(root, o, stock, tmp[..|tmp| - 1], best, freeze);
      ReduceKeepsCached(root, o, stock, tmp[|tmp| - 1], best, freeze);
    }
  }

  /** One round: the table is reduced without an error, and what is left agrees
      with the stocks debited. */
  lemma RoundKeepsCached(root: RootFunction, o: Order, stock: Stock, tmp: seq<Tflow>, best: Tflow, freeze: bool)
    requires IsRoot(root) && AllCached(root, o, stock, tmp) && best in tmp
    requires AllExecutable(tmp) && Executable(best)
    ensures Cached(root, o, stock, best)
    ensures UpdateAll(root, tmp, best, freeze).Ok?
    ensures AllCached(root, o, Debit(stock, best), Drafts(UpdateAll(root, tmp, best, freeze).value))
  {
    hide Cached, Executable, Reduce, IsRoot, UpdateAll, Drafts, Debit, IsDraft;
    var b :| 0 <= b < |tmp| && tmp[b] == best;
    UpdateAllSucceeds(root, o, stock, tmp, best, freeze);
    var us := UpdateAll(root, tmp, best, freeze).value;
    forall k | 0 <= k < |Drafts(us)|
      ensures Cached(root, o, Debit(stock, best), Drafts(us)[k])
    {
      var j :| 0 <= j < |us| && us[j] == Drafts(us)[k];
      UpdateAllAt(root, tmp, best, freeze, j);
      ReduceKeepsCached(root, o, stock, tmp[j], best, freeze);
    }
  }

  /** A run of executed cycles: each agrees with the stocks left by those before. */
  ghost predicate Run(root: RootFunction, o: Order, stock: Stock, cs: seq<Tflow>)
    requires IsRoot(root)
    decreases |cs|
  {
    |cs| > 0 ==> Cached(root, o, stock, cs[0]) && Run(root, o, Debit(stock, cs[0]), cs[1..])
  }

  lemma RunCons(root: RootFunction, o: Order, stock: Stock, best: Tflow, rest: seq<Tflow>)
    requires IsRoot(root) && Cached(root, o, stock, best) && Run(root, o, Debit(stock, best), rest)
    ensures Run(root, o, stock, [best] + rest)
  {
    hide Cached, Debit, IsRoot;
    assert ([best] + rest)[1..] == rest;
  }

  lemma RunNil(root: RootFunction, o: Order, stock: Stock)
    requires IsRoot(root)
    ensures Run(root, o, stock, [])
  {}

  lemma RunTail(root: RootFunction, o: Order, stock: Stock, cs: seq<Tflow>)
    requires IsRoot(root) && Run(root, o, stock, cs) && |cs| > 0
    ensures Cached(root, o, stock, cs[0]) && |cs[0].x| >= 2 && Run(root, o, Debit(stock, cs[0]), cs[1..])
  {
    hide FlowcMaximum, Debit, Backed, EndsWith;
  }

  /** From a table that agrees with the stocks the matching loop raises nothing,
      whatever is executed agrees with the stocks at its turn, and a loop that
      freezes prices does the same: submitted orders have none to freeze. */
  lemma {:induction false} LoopIsRun(root: RootFunction, o: Order, stock: Stock, tmp: seq<Tflow>, moved: nat,
                                     freeze: bool)
    requires IsRoot(root) && AllCached(root, o, stock, tmp) && AllExecutable(tmp)
    ensures MatchLoop(root, tmp, moved, freeze).Ok?
    ensures Run(root, o, stock, MatchLoop(root, tmp, moved, freeze).value)
    decreases |tmp|
  {
    hide *;
    var best := Best(root, tmp);
    if tmp == [] || moved + |best.x| > MAXMVTPERTRANS {
      LoopStops(root, tmp, moved, freeze);
      RunNil(root, o, stock);
    } else {
      RoundKeepsCached(root, o, stock, tmp, best, freeze);
      RoundShrinks(root, tmp, best, freeze);
      var ds := Drafts(UpdateAll(root, tmp, best, freeze).value);
      LoopIsRun(root, o, Debit(stock, best), ds, moved + |best.x|, false);
      LoopGoesOn(root, tmp, moved, freeze);
      RunCons(root, o, stock, best, MatchLoop(root, ds, moved + |best.x|, false).value);
    }
  }

  // ---------------------------------------------------------------------------
  // The limit of the new order

  lemma NothingTraded(o: Order)
    ensures TotalGive([]) == 0 && TotalReceive([]) == 0 && WithinLimit(o, 0, 0)
  {}

  lemma TotalsCons(cs: seq<Tflow>)
    requires |cs| > 0 && Long(cs) && |cs[0].x| >= 2 && Long(cs[1..])
    ensures TotalGive(cs) == Give(cs[0]) + TotalGive(cs[1..])
    ensures TotalReceive(cs) == Receive(cs[0]) + TotalReceive(cs[1..])
  {}

  lemma {:induction false} RunIsLong(root: RootFunction, o: Order, stock: Stock, cs: seq<Tflow>)
    requires IsRoot(root) && Run(root, o, stock, cs)
    ensures Long(cs)
    decreases |cs|
  {
    hide *;
    if |cs| == 0 {
      LongNil(cs);
    } else {
      RunTail(root, o, stock, cs);
      RunIsLong(root, o, Debit(stock, cs[0]), cs[1..]);
      assert [cs[0]] + cs[1..] == cs;
      LongCons(cs[0], cs[1..]);
    }
  }

  lemma LongNil(cs: seq<Tflow>)
    requires |cs| == 0
    ensures Long(cs)
  {}

  lemma CycleObservesLimit(root: RootFunction, o: Order, stock: Stock, c: Tflow)
    requires IsRoot(root) && Cached(root, o, stock, c) && o.kind == ORDER_LIMIT
    ensures |c.x| >= 2 && Give(c) > 0 && Receive(c) > 0
    ensures WithinLimit(o, Give(c), Receive(c))
  {
    hide FlowcMaximum;
    RegularUnflagged(c.x);
    DraftObservesLimit(root, c, c, |c.x| - 1);
  }

  /** The quantities given and received are within the limit of the order. */
  ghost predicate WithinLimit(o: Order, give: int, receive: int) {
    give * o.qttRequ <= o.qttProv * receive
  }

  lemma Mediant(o: Order, g1: int, r1: int, g2: int, r2: int)
    requires WithinLimit(o, g1, r1) && WithinLimit(o, g2, r2)
    ensures WithinLimit(o, g1 + g2, r1 + r2)
  {}

  /** A limit order never gives above its limit over all its cycles together. */
  lemma {:induction false} RunObservesLimit(root: RootFunction, o: Order, stock: Stock, cs: seq<Tflow>)
    requires IsRoot(root) && Run(root, o, stock, cs) && Long(cs) && o.kind == ORDER_LIMIT
    ensures WithinLimit(o, TotalGive(cs), TotalReceive(cs))
    ensures TotalGive(cs) >= 0 && TotalReceive(cs) >= 0
    ensures cs != [] ==> TotalGive(cs) > 0 && TotalReceive(cs) > 0
    decreases |cs|
  {
    hide *;
    if |cs| == 0 {
      NothingTraded(o);
      assert cs == [];
    } else {
      RunTail(root, o, stock, cs);
      RunIsLong(root, o, Debit(stock, cs[0]), cs[1..]);
      CycleObservesLimit(root, o, stock, cs[0]);
      RunObservesLimit(root, o, Debit(stock, cs[0]), cs[1..]);
      TotalsCons(cs);
      Mediant(o, Give(cs[0]), Receive(cs[0]), TotalGive(cs[1..]), TotalReceive(cs[1..]));
    }
  }

  // ---------------------------------------------------------------------------
  // The stock of the new order

  lemma {:induction false} RunTrades(root: RootFunction, o: Order, stock: Stock, cs: seq<Tflow>)
    requires IsRoot(root) && Run(root, o, stock, cs)
    ensures Trading(cs)
    decreases |cs|
  {
    hide FlowcMaximum, Debit, Backed, EndsWith, IsDraft;
    if |cs| > 0 {
      RunTrades(root, o, Debit(stock, cs[0]), cs[1..]);
      assert Cached(root, o, stock, cs[0]);
      TradingCons(cs);
    }
  }

  lemma TradingCons(cs: seq<Tflow>)
    requires |cs| > 0 && IsDraft(cs[0]) && Trading(cs[1..])
    ensures Trading(cs)
  {
    hide IsDraft;
    forall k | 0 <= k < |cs|
      ensures IsDraft(cs[k])
    {
      if k > 0 { assert cs[1..][k - 1] == cs[k]; }
    }
  }

  /** A cycle takes from the stock of the new order what the order gives. */
  lemma GivesFromOwnStock(root: RootFunction, o: Order, stock: Stock, c: Tflow)
    requires IsRoot(root) && Cached(root, o, stock, c)
    ensures |c.x| >= 2 && o.oid in stock && Give(c) <= stock[o.oid]
    ensures Debit(stock, c)[o.oid] == stock[o.oid] - Give(c)
  {
    hide FlowcMaximum, Amount;
    RecordedWithinStocks(root, c);
    AmountAt(c, |c.x| - 1);
  }

  /** Over all its cycles together the new order gives no more than its stock. */
  lemma {:induction false} RunGivesWithinStock(root: RootFunction, o: Order, stock: Stock, cs: seq<Tflow>)
    requires IsRoot(root) && Run(root, o, stock, cs) && Long(cs)
    requires o.oid in stock && stock[o.oid] >= 0
    ensures TotalGive(cs) <= stock[o.oid]
    decreases |cs|
  {
    hide *;
    if |cs| == 0 {
      NothingTraded(o);
      assert cs == [];
    } else {
      RunTail(root, o, stock, cs);
      RunIsLong(root, o, Debit(stock, cs[0]), cs[1..]);
      GivesFromOwnStock(root, o, stock, cs[0]);
      RunGivesWithinStock(root, o, Debit(stock, cs[0]), cs[1..]);
      TotalsCons(cs);
    }
  }
}
