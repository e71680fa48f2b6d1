/** The id of a new order is a name: the search, the kernel and the loops compare
    ids, so that two orders of the same terms have the same cycles but for it. */
module Renaming {
  import opened Numeric
  import opened FlowTypes
  import opened ExactFlow
  import opened Kernel
  import opened Congruence
  import opened Yflow
  import opened Orders
  import opened Search
  import opened Matching
  import opened MarketRuns
  import opened Primitives
  import opened Quotes

  /** The order under another id; it owns its stock. */
  function Renamed(o: Order, name: int): Order {
    o.(id := name, oid := name)
  }

  /** The nodes with the last one renamed. */
  function Named(x: seq<Tfl>, name: int): (y: seq<Tfl>)
    ensures |y| == |x| && forall i :: 0 <= i < |x| - 1 ==> y[i] == x[i]
    ensures |x| >= 1 ==> y[|x| - 1] == x[|x| - 1].(id := name, oid := name)
  {
    if |x| == 0 then x else x[|x| - 1 := x[|x| - 1].(id := name, oid := name)]
  }

  function NamedFlow(c: Tflow, name: int): Tflow {
    FlowRecord(Named(c.x, name), c.flowr)
  }

  function AllNamed(cs: seq<Tflow>, name: int): (ds: seq<Tflow>)
    ensures |ds| == |cs| && forall k :: 0 <= k < |cs| ==> ds[k] == NamedFlow(cs[k], name)
  {
    seq(|cs|, k requires 0 <= k < |cs| => NamedFlow(cs[k], name))
  }

  /** The last node is that of the order `own`. */
  ghost predicate EndsAt(c: Tflow, own: int) {
    |c.x| >= 2 && c.x[|c.x| - 1].id == own && c.x[|c.x| - 1].oid == own
  }

  ghost predicate AllEndAt(cs: seq<Tflow>, own: int) {
    forall k :: 0 <= k < |cs| ==> EndsAt(cs[k], own)
  }

  // ---------------------------------------------------------------------------
  // The kernel

  function NamedComputed(r: Result<Computed>, name: int): Result<Computed> {
    if r.Ok? then Ok(Computed(r.value.status, NamedFlow(r.value.flow, name))) else r
  }

  /** The nodes keep their ids. */
  ghost predicate SameIds(x: seq<Tfl>, y: seq<Tfl>) {
    |x| == |y| && forall i :: 0 <= i < |x| ==> x[i].id == y[i].id && x[i].oid == y[i].oid
  }

  lemma MovedNamed(g: Computed, y: seq<Tfl>, name: int)
    requires Movable(g, |y|)
    ensures Moved(g, Named(y, name)) == NamedComputed(Ok(Moved(g, y)), name).value
    ensures SameIds(Moved(g, y).flow.x, y)
  {
    var z := Named(y, name);
    if g.status == Draft {
      assert Settled(z, g.flow.flowr) == Named(Settled(y, g.flow.flowr), name);
    }
  }

  lemma OpenedNamed(x: seq<Tfl>, name: int)
    requires |x| >= 2
    ensures Opened(Named(x, name)) == Named(Opened(x), name)
    ensures SomeStockEmpty(Named(x, name)) <==> SomeStockEmpty(x)
    ensures NonNegative(Named(x, name)) <==> NonNegative(x)
    ensures Alike(Opened(x), Named(Opened(x), name), IgnoresOmega(Opened(x)))
    ensures Dropped(Named(x, name)) == NamedFlow(Dropped(x), name)
    ensures SameIds(Opened(x), x)
  {
    var y := Named(x, name);
    assert forall i :: 0 <= i < |x| ==> y[i].qtt == x[i].qtt && y[i].proba == x[i].proba && y[i].kind == x[i].kind;
    assert Opened(y) == Named(Opened(x), name);
  }

  lemma NamedOpened(root: RootFunction, y: seq<Tfl>, name: int)
    requires IsRoot(root) && |y| >= 2 && Stocked(y) && Alike(y, Named(y, name), IgnoresOmega(y))
    ensures Stocked(Named(y, name))
    ensures FlowOpened(root, Named(y, name)) == NamedComputed(FlowOpened(root, y), name)
    ensures FlowOpened(root, y).Ok? ==> SameIds(FlowOpened(root, y).value.flow.x, y)
  {
    hide FlowOpened, Stocked, Moved, SameIds, Alike, IgnoresOmega, IsRoot, Movable;
    AlikeItself(y);
    SameOpened(root, y, y);
    SameOpened(root, y, Named(y, name));
    if FlowOpened(root, y).Ok? { MovedNamed(FlowOpened(root, y).value, y, name); }
  }

  lemma AlikeItself(y: seq<Tfl>)
    requires |y| >= 2
    ensures Alike(y, y, IgnoresOmega(y))
  {}

  lemma SameIdsThrough(x: seq<Tfl>, y: seq<Tfl>, z: seq<Tfl>)
    requires SameIds(z, y) && SameIds(y, x)
    ensures SameIds(z, x)
  {}

  lemma NamedMaximum(root: RootFunction, x: seq<Tfl>, name: int)
    requires IsRoot(root) && |x| >= 2 && NonNegative(x)
    ensures NonNegative(Named(x, name))
    ensures FlowMaximum(root, Named(x, name)) == NamedComputed(FlowMaximum(root, x), name)
    ensures FlowMaximum(root, x).Ok? ==> SameIds(FlowMaximum(root, x).value.flow.x, x)
  {
    hide FlowOpened, Opened, NonNegative, SomeStockEmpty, IsRoot, SameIds, IgnoresOmega, Alike, Dropped, IgnoresQtt;
    OpenedNamed(x, name);
    SameIdsItself(x);
    if !SomeStockEmpty(x) {
      OpenedStocked(x);
      NamedOpened(root, Opened(x), name);
      if FlowOpened(root, Opened(x)).Ok? { SameIdsThrough(x, Opened(x), FlowOpened(root, Opened(x)).value.flow.x); }
    }
  }

  lemma SameIdsItself(x: seq<Tfl>)
    ensures SameIds(x, x) && Dropped(x).x == x
  {}

  /** Nodes that are renamed have the same flow, whatever their stocks and prices. */
  lemma NamedComputes(root: RootFunction, f: Tflow, name: int)
    requires IsRoot(root) && |f.x| >= 2
    requires DistinctOids(f.x) <==> DistinctOids(Named(f.x, name))
    ensures FlowcMaximum(root, NamedFlow(f, name)) == NamedComputed(FlowcMaximum(root, f), name)
    ensures FlowcMaximum(root, f).Ok? ==> SameIds(FlowcMaximum(root, f).value.flow.x, f.x)
  {
    hide FlowMaximum, NonNegative, DistinctOids, IsRoot, SameIds;
    OpenedNamed(f.x, name);
    if NonNegative(f.x) { NamedMaximum(root, f.x, name); }
  }

  // ---------------------------------------------------------------------------
  // The reduction

  lemma NamedDraft(c: Tflow, name: int)
    ensures IsDraft(NamedFlow(c, name)) <==> IsDraft(c)
  {}

  lemma {:induction false} AmountInner(f: Tflow, n: nat, oid: int, name: int)
    requires IsDraft(f) && IsDraft(NamedFlow(f, name)) && n < |f.x|
    ensures AmountUpTo(NamedFlow(f, name), n, oid) == AmountUpTo(f, n, oid)
  {
    if n > 0 { AmountInner(f, n - 1, oid, name); }
  }

  /** What is taken from the stock of node j. */
  lemma AmountNamed(x: seq<Tfl>, f: Tflow, own: int, name: int, j: nat)
    requires IsDraft(f) && EndsAt(f, own) && DistinctOids(f.x) && DistinctOids(Named(f.x, name))
    requires |x| >= 2 && x[|x| - 1].oid == own && DistinctOids(x) && DistinctOids(Named(x, name)) && j < |x|
    ensures IsDraft(NamedFlow(f, name))
    ensures Amount(NamedFlow(f, name), Named(x, name)[j].oid) == Amount(f, x[j].oid)
  {
    var n, k := |x|, |f.x| - 1;
    var g := NamedFlow(f, name);
    if j < n - 1 {
      assert x[j].oid != x[n - 1].oid && Named(x, name)[j].oid != Named(x, name)[n - 1].oid;
      AmountInner(f, k, x[j].oid, name);
    } else {
      AmountAt(f, k);
      AmountAt(g, k);
      hide Amount;
      assert g.x[k].oid == name && f.x[k].oid == own;
    }
  }

  function NamedResult(r: Result<Tflow>, name: int): Result<Tflow> {
    if r.Ok? then Ok(NamedFlow(r.value, name)) else r
  }

  lemma ReducedNamed(x: seq<Tfl>, f: Tflow, freeze: bool, own: int, name: int)
    requires IsDraft(f) && EndsAt(f, own) && DistinctOids(f.x) && DistinctOids(Named(f.x, name))
    requires |x| >= 2 && x[|x| - 1].oid == own && DistinctOids(x) && DistinctOids(Named(x, name))
    ensures IsDraft(NamedFlow(f, name))
    ensures AllCanGive(x, f) <==> AllCanGive(Named(x, name), NamedFlow(f, name))
    ensures AllCanGive(x, f) ==>
              && ReducedNodes(Named(x, name), NamedFlow(f, name), freeze) == Named(ReducedNodes(x, f, freeze), name)
              && SameIds(ReducedNodes(x, f, freeze), x)
  {
    hide Amount, DistinctOids, EndsAt;
    var y, g := Named(x, name), NamedFlow(f, name);
    NamedDraft(f, name);
    forall j | 0 <= j < |x|
      ensures Amount(g, y[j].oid) == Amount(f, x[j].oid)
    {
      AmountNamed(x, f, own, name, j);
    }
    hide IsDraft;
    assert forall j :: 0 <= j < |x| ==> (CanGive(x[j], Amount(f, x[j].oid)) <==> CanGive(y[j], Amount(g, y[j].oid)));
    if AllCanGive(x, f) {
      SubtractedNamed(x, f, name);
      LastPrices(f, name);
      hide Subtracted, AllCanGive, NamedFlow;
      assert ReducedNodes(y, g, freeze) == Named(ReducedNodes(x, f, freeze), name);
    }
  }

  lemma SubtractedNamed(x: seq<Tfl>, f: Tflow, name: int)
    requires IsDraft(f) && IsDraft(NamedFlow(f, name)) && |x| >= 2
    requires AllCanGive(x, f) && AllCanGive(Named(x, name), NamedFlow(f, name))
    requires forall j :: 0 <= j < |x| ==> Amount(NamedFlow(f, name), Named(x, name)[j].oid) == Amount(f, x[j].oid)
    ensures Subtracted(Named(x, name), NamedFlow(f, name)) == Named(Subtracted(x, f), name)
    ensures SameIds(Subtracted(x, f), x)
  {
    hide Amount, IsDraft, AllCanGive, NamedFlow;
  }

  lemma LastPrices(f: Tflow, name: int)
    requires |f.x| >= 1
    ensures var a, b := f.x[|f.x| - 1], Named(f.x, name)[|f.x| - 1];
            a.qttRequ == b.qttRequ && a.qttProv == b.qttProv
  {}

  lemma DistinctIs(x: seq<Tfl>, y: seq<Tfl>, name: int)
    requires SameIds(x, y) && DistinctOids(y) && DistinctOids(Named(y, name))
    ensures DistinctOids(x) && DistinctOids(Named(x, name))
  {
    forall i, j | 0 <= i < j < |x|
      ensures Named(x, name)[i].oid != Named(x, name)[j].oid
    {
      assert Named(y, name)[i].oid != Named(y, name)[j].oid;
    }
  }

  /** Two cycles of one new order, and what is left of one after the other. */
  lemma NamedReduces(root: RootFunction, c: Tflow, f: Tflow, freeze: bool, own: int, name: int)
    requires IsRoot(root) && IsDraft(f) && EndsAt(f, own) && EndsAt(c, own)
    requires DistinctOids(f.x) && DistinctOids(Named(f.x, name))
    requires DistinctOids(c.x) && DistinctOids(Named(c.x, name))
    ensures IsDraft(NamedFlow(f, name))
    ensures Reduce(root, NamedFlow(c, name), NamedFlow(f, name), freeze) ==
            NamedResult(Reduce(root, c, f, freeze), name)
    ensures Reduce(root, c, f, freeze).Ok? ==> EndsAt(Reduce(root, c, f, freeze).value, own)
  {
    hide FlowcMaximum, DistinctOids, AllCanGive, ReducedNodes, IsDraft, IsRoot;
    ReducedNamed(c.x, f, freeze, own, name);
    if AllCanGive(c.x, f) {
      var z := ReducedNodes(c.x, f, freeze);
      DistinctIs(z, c.x, name);
      NamedComputes(root, FlowRecord(z, c.flowr), name);
      assert NamedFlow(FlowRecord(z, c.flowr), name) == FlowRecord(Named(z, name), c.flowr);
    }
  }

  // ---------------------------------------------------------------------------
  // The table

  function NamedTable(r: Result<seq<Tflow>>, name: int): Result<seq<Tflow>> {
    if r.Ok? then Ok(AllNamed(r.value, name)) else r
  }

  lemma ExecutableDistinct(c: Tflow)
    requires Executable(c)
    ensures DistinctOids(c.x) && IsDraft(c)
  {}

  lemma AllNamedSnoc(cs: seq<Tflow>, c: Tflow, name: int)
    ensures AllNamed(cs + [c], name) == AllNamed(cs, name) + [NamedFlow(c, name)]
  {}

  lemma UpdateLast(root: RootFunction, tmp: seq<Tflow>, best: Tflow, freeze: bool)
    requires IsRoot(root) && AllExecutable(tmp) && Executable(best) && |tmp| > 0
    ensures AllExecutable(tmp[..|tmp| - 1]) && |tmp[|tmp| - 1].x| >= 1
    ensures var us := UpdateAll(root, tmp[..|tmp| - 1], best, freeze);
            var u := Reduce(root, tmp[|tmp| - 1], best, freeze);
            UpdateAll(root, tmp, best, freeze) ==
            if us.Err? then us else if u.Err? then Err(u.error) else Ok(us.value + [u.value])
  {
    hide Reduce, IsRoot;
  }

  /** The reduction of one row, under either name. */
  lemma NamedRow(root: RootFunction, c: Tflow, best: Tflow, freeze: bool, own: int, name: int)
    requires IsRoot(root) && Executable(c) && Executable(NamedFlow(c, name)) && EndsAt(c, own)
    requires Executable(best) && Executable(NamedFlow(best, name)) && EndsAt(best, own)
    ensures |c.x| >= 1 && IsDraft(best) && IsDraft(NamedFlow(best, name))
    ensures Reduce(root, NamedFlow(c, name), NamedFlow(best, name), freeze) ==
            NamedResult(Reduce(root, c, best, freeze), name)
    ensures Reduce(root, c, best, freeze).Ok? ==> EndsAt(Reduce(root, c, best, freeze).value, own)
  {
    hide Reduce, IsRoot, Executable;
    ExecutableDistinct(c);
    ExecutableDistinct(best);
    ExecutableDistinct(NamedFlow(c, name));
    ExecutableDistinct(NamedFlow(best, name));
    hide DistinctOids, IsDraft;
    NamedReduces(root, c, best, freeze, own, name);
  }

  lemma TableParts(tmp: seq<Tflow>, own: int, name: int)
    requires |tmp| > 0 && AllExecutable(tmp) && AllExecutable(AllNamed(tmp, name)) && AllEndAt(tmp, own)
    ensures var init, c := tmp[..|tmp| - 1], tmp[|tmp| - 1];
            && AllExecutable(init) && AllExecutable(AllNamed(init, name)) && AllEndAt(init, own)
            && Executable(c) && Executable(NamedFlow(c, name)) && EndsAt(c, own)
            && AllNamed(tmp, name)[..|tmp| - 1] == AllNamed(init, name)
            && AllNamed(tmp, name)[|tmp| - 1] == NamedFlow(c, name)
  {
    hide Executable, EndsAt;
    var init := tmp[..|tmp| - 1];
    forall k | 0 <= k < |init|
      ensures Executable(AllNamed(init, name)[k])
    {
      assert AllNamed(init, name)[k] == AllNamed(tmp, name)[k];
    }
  }

  lemma EndsSnoc(us: seq<Tflow>, u: Tflow, own: int)
    requires AllEndAt(us, own) && EndsAt(u, own)
    ensures AllEndAt(us + [u], own)
  {}

  lemma NoRows(name: int, own: int)
    ensures AllNamed([], name) == [] && AllEndAt([], own)
  {}

  lemma UpdateNone(root: RootFunction, best: Tflow, freeze: bool)
    requires IsRoot(root) && Executable(best)
    ensures AllExecutable([]) && UpdateAll(root, [], best, freeze) == Ok([])
  {}

  /** Every row reduced, under either name. */
  lemma {:induction false} NamedUpdates(root: RootFunction, tmp: seq<Tflow>, best: Tflow, freeze: bool,
                                        own: int, name: int)
    requires IsRoot(root) && AllExecutable(tmp) && AllExecutable(AllNamed(tmp, name)) && AllEndAt(tmp, own)
    requires Executable(best) && Executable(NamedFlow(best, name)) && EndsAt(best, own)
    ensures UpdateAll(root, AllNamed(tmp, name), NamedFlow(best, name), freeze) ==
            NamedTable(UpdateAll(root, tmp, best, freeze), name)
    ensures UpdateAll(root, tmp, best, freeze).Ok? ==> AllEndAt(UpdateAll(root, tmp, best, freeze).value, own)
  {
    hide *;
    NoRows(name, own);
    if tmp == [] {
      UpdateNone(root, best, freeze);
      UpdateNone(root, NamedFlow(best, name), freeze);
      NamedNone(name);
    } else {
      var init, c := tmp[..|tmp| - 1], tmp[|tmp| - 1];
      TableParts(tmp, own, name);
      NamedUpdates(root, init, best, freeze, own, name);
      NamedRow(root, c, best, freeze, own, name);
      UpdateLast(root, tmp, best, freeze);
      UpdateLast(root, AllNamed(tmp, name), NamedFlow(best, name), freeze);
      NamedSnoc(UpdateAll(root, init, best, freeze), Reduce(root, c, best, freeze), own, name);
    }
  }

  lemma NamedNone(name: int)
    ensures NamedTable(Ok([]), name) == Ok([])
  {
    assert AllNamed([], name) == [];
  }

  lemma NamedSnoc(us: Result<seq<Tflow>>, u: Result<Tflow>, own: int, name: int)
    requires us.Ok? ==> AllEndAt(us.value, own)
    requires u.Ok? ==> EndsAt(u.value, own)
    ensures us.Ok? && u.Ok? ==> AllEndAt(us.value + [u.value], own)
    ensures us.Ok? && u.Ok? ==>
              NamedTable(Ok(us.value + [u.value]), name) == Ok(AllNamed(us.value, name) + [NamedFlow(u.value, name)])
    ensures us.Ok? ==> NamedTable(us, name) == Ok(AllNamed(us.value, name))
    ensures us.Err? ==> NamedTable(us, name) == us
    ensures u.Err? ==> NamedTable(Err(u.error), name) == Err(u.error)
    ensures u.Ok? ==> NamedResult(u, name) == Ok(NamedFlow(u.value, name))
    ensures u.Err? ==> NamedResult(u, name) == u
  {
    if us.Ok? && u.Ok? {
      AllNamedSnoc(us.value, u.value, name);
      EndsSnoc(us.value, u.value, own);
    }
  }

  lemma {:induction false} NamedDrafts(us: seq<Tflow>, own: int, name: int)
    requires AllEndAt(us, own)
    ensures Drafts(AllNamed(us, name)) == AllNamed(Drafts(us), name)
    ensures AllEndAt(Drafts(us), own)
  {
    hide IsDraft, EndsAt;
    if |us| > 0 {
      var init, u := us[..|us| - 1], us[|us| - 1];
      NamedDrafts(init, own, name);
      NamedDraft(u, name);
      assert AllNamed(us, name)[..|us| - 1] == AllNamed(init, name);
      AllNamedSnoc(Drafts(init), u, name);
    }
  }

  // ---------------------------------------------------------------------------
  // The rank

  lemma {:induction false} PriceProductNamed(x: seq<Tfl>, n: nat, name: int)
    requires n <= |x| && forall i :: 0 <= i < n ==> x[i].qttRequ > 0 && x[i].qttProv > 0
    ensures forall i :: 0 <= i < n ==> Named(x, name)[i].qttRequ > 0 && Named(x, name)[i].qttProv > 0
    ensures PriceProduct(Named(x, name), n) == PriceProduct(x, n)
  {
    assert forall i :: 0 <= i < n ==>
      Named(x, name)[i].qttRequ == x[i].qttRequ && Named(x, name)[i].qttProv == x[i].qttProv;
    if n > 0 { PriceProductNamed(x, n - 1, name); }
  }

  lemma {:induction false} ProbaProductNamed(x: seq<Tfl>, n: nat, name: int)
    requires n <= |x| && forall i :: 0 <= i < n ==> x[i].proba >= 0.0
    ensures forall i :: 0 <= i < n ==> Named(x, name)[i].proba >= 0.0
    ensures ProbaProduct(Named(x, name), n) == ProbaProduct(x, n)
  {
    assert forall i :: 0 <= i < n ==> Named(x, name)[i].proba == x[i].proba;
    if n > 0 { ProbaProductNamed(x, n - 1, name); }
  }

  lemma RankNamed(root: RootFunction, c: Tflow, name: int)
    requires Rankable(c) && Probable(c)
    ensures var d := NamedFlow(c, name);
            && Rankable(d) && Probable(d)
            && OmegaFlow(d) == OmegaFlow(c) && MeanProba(root, d) == MeanProba(root, c)
  {
    var d := NamedFlow(c, name);
    hide PriceProduct, ProbaProduct;
    assert forall i :: 0 <= i < |c.x| ==>
      c.x[i].qttRequ == d.x[i].qttRequ && c.x[i].qttProv == d.x[i].qttProv && c.x[i].kind == d.x[i].kind;
    ProbaProductNamed(c.x, |c.x|, name);
    if |c.x| >= 2 { PriceProductNamed(c.x, RankedNodes(c), name); }
  }

  lemma {:induction false} NamedMax(root: RootFunction, cs: seq<Tflow>, name: int)
    requires AllRanked(cs) && AllRanked(AllNamed(cs, name))
    ensures MaxFlow(root, AllNamed(cs, name)) == NamedFlow(MaxFlow(root, cs), name)
  {
    hide OmegaFlow, MeanProba, Rankable, Probable;
    if |cs| > 0 {
      var init, c := cs[..|cs| - 1], cs[|cs| - 1];
      assert AllNamed(cs, name)[..|cs| - 1] == AllNamed(init, name);
      assert forall k :: 0 <= k < |init| ==> AllNamed(init, name)[k] == AllNamed(cs, name)[k];
      hide NamedFlow, AllNamed;
      NamedMax(root, init, name);
      NamedStep(root, MaxFlow(root, init), c, name);
    }
  }

  /** The step of the aggregate prefers the same flow. */
  lemma NamedStep(root: RootFunction, m: Tflow, c: Tflow, name: int)
    requires Rankable(m) && Probable(m) && Rankable(c) && Probable(c)
    ensures var n, d := NamedFlow(m, name), NamedFlow(c, name);
            && Rankable(n) && Probable(n) && Rankable(d) && Probable(d)
            && MaxG(root, n, d) == NamedFlow(MaxG(root, m, c), name)
  {
    hide OmegaFlow, MeanProba, Rankable, Probable, NamedFlow;
    RankNamed(root, c, name);
    RankNamed(root, m, name);
  }

  lemma NamedBest(root: RootFunction, tmp: seq<Tflow>, own: int, name: int)
    requires AllExecutable(tmp) && AllExecutable(AllNamed(tmp, name)) && AllEndAt(tmp, own) && tmp != []
    ensures Best(root, AllNamed(tmp, name)) == NamedFlow(Best(root, tmp), name)
    ensures EndsAt(Best(root, tmp), own)
  {
    hide Executable, MaxFlow, EndsAt, AllRanked, IsDraft;
    ExecutableRanked(tmp);
    ExecutableRanked(AllNamed(tmp, name));
    NamedMax(root, tmp, name);
  }

  // ---------------------------------------------------------------------------
  // The loop of a quote

  function NamedVisited(r: Result<Visited>, name: int): Result<Visited> {
    if r.Ok? then Ok(Visited(r.value.quoting, AllNamed(r.value.cycles, name))) else r
  }

  lemma NamedQuote(t: Quoting, c: Tflow, flags: QuoteFlags, first: bool, name: int)
    requires |c.x| >= 2
    ensures Quote(t, NamedFlow(c, name), flags, first) == Quote(t, c, flags, first)
  {
    var d := NamedFlow(c, name);
    assert Give(c) == Give(d) && Receive(c) == Receive(d);
    assert d.x[|d.x| - 1] == c.x[|c.x| - 1].(id := name, oid := name);
  }

  /** The loop of a quote visits the same cycles, under either name. */
  lemma {:induction false} NamedLoop(root: RootFunction, tmp: seq<Tflow>, moved: nat, flags: QuoteFlags,
                                     t: Quoting, first: bool, done: seq<Tflow>, own: int, name: int)
    requires IsRoot(root) && AllExecutable(tmp) && AllExecutable(AllNamed(tmp, name)) && AllEndAt(tmp, own)
    ensures QuoteLoop(root, AllNamed(tmp, name), moved, flags, t, first, AllNamed(done, name)) ==
            NamedVisited(QuoteLoop(root, tmp, moved, flags, t, first, done), name)
    decreases |tmp|
  {
    hide *;
    var tmp', best := AllNamed(tmp, name), Best(root, tmp);
    if tmp == [] {
      LengthsNamed(tmp, best, name);
      QuoteLoopStops(root, tmp, moved, flags, t, first, done);
      QuoteLoopStops(root, tmp', moved, flags, t, first, AllNamed(done, name));
      NamedStops(t, done, name);
    } else {
      NamedBest(root, tmp, own, name);
      LengthsNamed(tmp, best, name);
      if moved + |best.x| > MAXMVTPERTRANS {
        QuoteLoopStops(root, tmp, moved, flags, t, first, done);
        QuoteLoopStops(root, tmp', moved, flags, t, first, AllNamed(done, name));
        NamedStops(t, done, name);
      } else {
        var freeze := first && flags.isIgnoreOmega && flags.isQuote;
        QuoteLoopTurn(root, tmp, moved, flags, t, first, done);
        QuoteLoopTurn(root, tmp', moved, flags, t, first, AllNamed(done, name));
        BestLong(best);
        NamedQuote(t, best, flags, first, name);
        NamedUpdates(root, tmp, best, freeze, own, name);
        TableIs(UpdateAll(root, tmp, best, freeze), name);
        var t1 := Quote(t, best, flags, first);
        var us := UpdateAll(root, tmp, best, freeze);
        if t1.Ok? && us.Ok? {
          NamedDrafts(us.value, own, name);
          AllNamedSnoc(done, best, name);
          NamedLoop(root, Drafts(us.value), moved + |best.x|, flags, t1.value, false, done + [best], own, name);
        } else {
          NamedRaises(name);
        }
      }
    }
  }

  lemma BestLong(best: Tflow)
    requires IsDraft(best)
    ensures |best.x| >= 2
  {}

  lemma LengthsNamed(tmp: seq<Tflow>, best: Tflow, name: int)
    ensures |AllNamed(tmp, name)| == |tmp| && |NamedFlow(best, name).x| == |best.x|
  {}

  lemma NamedStops(t: Quoting, done: seq<Tflow>, name: int)
    ensures NamedVisited(Ok(Visited(t, done)), name) == Ok(Visited(t, AllNamed(done, name)))
  {}

  lemma NamedRaises(name: int)
    ensures forall e: Failure :: NamedVisited(Err(e), name) == Err(e)
  {}

  lemma TableIs(r: Result<seq<Tflow>>, name: int)
    ensures r.Ok? ==> NamedTable(r, name) == Ok(AllNamed(r.value, name))
    ensures r.Err? ==> NamedTable(r, name) == r
  {}

  // ---------------------------------------------------------------------------
  // The search

  /** No row of the book has one of the two ids. */
  ghost predicate Unused(book: seq<Row>, own: int, name: int) {
    forall k :: 0 <= k < |book| ==> Other(book[k].ord, own, name)
  }

  ghost predicate Other(o: Order, own: int, name: int) {
    o.id != own && o.oid != own && o.id != name && o.oid != name
  }

  /** A path grown backwards from the order `own`. */
  ghost predicate Trail(y: Path, own: int, name: int) {
    var x := y.path.x;
    && |x| >= 1
    && x[|x| - 1].id == own && x[|x| - 1].oid == own && y.fin.id == own
    && (|x| == 1 ==> y.debut.id == own)
    && forall i :: 0 <= i < |x| - 1 ==> x[i].oid != own && x[i].oid != name
  }

  ghost predicate AllTrails(ps: seq<Path>, own: int, name: int) {
    forall k :: 0 <= k < |ps| ==> Trail(ps[k], own, name)
  }

  function NamedPath(y: Path, name: int): Path {
    Path(if |y.path.x| == 1 then Renamed(y.debut, name) else y.debut, NamedFlow(y.path, name),
         Renamed(y.fin, name), y.depth, y.cycle)
  }

  function NamedPaths(ps: seq<Path>, name: int): (qs: seq<Path>)
    ensures |qs| == |ps| && forall k :: 0 <= k < |ps| ==> qs[k] == NamedPath(ps[k], name)
  {
    seq(|ps|, k requires 0 <= k < |ps| => NamedPath(ps[k], name))
  }

  function NamedLevel(r: Result<seq<Path>>, name: int): Result<seq<Path>> {
    if r.Ok? then Ok(NamedPaths(r.value, name)) else r
  }

  /** A row of the book meets the same node, or none. */
  lemma {:induction false} ClashNamed(b: Tfl, x: seq<Tfl>, i: nat, own: int, name: int)
    requires 1 <= |x| && i <= |x| && x[|x| - 1].id == own && x[|x| - 1].oid == own
    requires b.id != own && b.oid != own && b.id != name && b.oid != name
    ensures Clash(b, Named(x, name), i) == Clash(b, x, i)
    decreases |x| - i
  {
    if i < |x| { ClashNamed(b, x, i + 1, own, name); }
  }

  lemma ContainsNamed(oid: int, x: seq<Tfl>, own: int, name: int)
    requires 1 <= |x| && x[|x| - 1].oid == own && oid != own && oid != name
    ensures ContainsOid(oid, Named(x, name)) <==> ContainsOid(oid, x)
  {
    assert forall i :: 0 <= i < |x| ==> (Named(x, name)[i].oid == oid <==> x[i].oid == oid);
  }

  lemma JoinsNamed(r: Row, y: Path, now: int, own: int, name: int)
    requires Trail(y, own, name) && Other(r.ord, own, name)
    ensures Joins(r, NamedPath(y, name), now) <==> Joins(r, y, now)
    ensures ContainsOid(r.ord.oid, NamedPath(y, name).path.x) <==> ContainsOid(r.ord.oid, y.path.x)
  {
    ContainsNamed(r.ord.oid, y.path.x, own, name);
    hide ContainsOid, Live;
  }

  /** One step backwards, under either name. */
  lemma GrownNamed(r: Row, y: Path, now: int, own: int, name: int)
    requires Trail(y, own, name) && Other(r.ord, own, name) && Joins(r, y, now)
    ensures var g := GrowBackward(r.ord, y.debut, y.path);
            var z := NamedPath(y, name);
            && GrowBackward(r.ord, z.debut, z.path) == NamedResult(g, name)
            && (g.Ok? ==> |g.value.x| >= 2 &&
                          Trail(Path(r.ord, g.value, y.fin, y.depth + 1, false), own, name))
  {
    JoinsNamed(r, y, now, own, name);
    JoinedIsNew(r, y, now);
    hide Matches, Live, ContainsOid;
    var x, b := y.path.x, ToFl(r.ord);
    ClashNamed(b, x, 0, own, name);
    NoClash(b, x, 0);
    var g := FlowRecord([b] + x, [0] + y.path.flowr);
    assert FlowRecord([b] + Named(x, name), [0] + y.path.flowr) == NamedFlow(g, name);
    assert WithFirst(NamedFlow(g, name), 1.0) == NamedFlow(WithFirst(g, 1.0), name);
  }

  lemma {:induction false} NoClash(b: Tfl, x: seq<Tfl>, i: nat)
    requires i <= |x| && !ContainsOid(b.oid, x)
    ensures Clash(b, x, i).Some? ==> Clash(b, x, i).value.oid != b.oid
    decreases |x| - i
  {
    if i < |x| { NoClash(b, x, i + 1); }
  }

  lemma PathsSnoc(ps: seq<Path>, p: Path, own: int, name: int)
    requires AllTrails(ps, own, name) && Trail(p, own, name)
    ensures AllTrails(ps + [p], own, name)
    ensures NamedPaths(ps + [p], name) == NamedPaths(ps, name) + [NamedPath(p, name)]
  {}

  lemma {:induction false} NamedJoins(book: seq<Row>, y: Path, now: int, own: int, name: int)
    requires Unused(book, own, name) && Trail(y, own, name)
    ensures JoinRows(book, NamedPath(y, name), now) == NamedLevel(JoinRows(book, y, now), name)
    ensures JoinRows(book, y, now).Ok? ==> AllTrails(JoinRows(book, y, now).value, own, name)
  {
    hide Trail, Joins, GrowBackward, ContainsOid;
    if |book| > 0 {
      var init, r := book[..|book| - 1], book[|book| - 1];
      assert Unused(init, own, name);
      NamedJoins(init, y, now, own, name);
      JoinsNamed(r, y, now, own, name);
      if JoinRows(init, y, now).Ok? && Joins(r, y, now) {
        GrownNamed(r, y, now, own, name);
        JoinedIsNew(r, y, now);
        if GrowBackward(r.ord, y.debut, y.path).Ok? {
          var p := Path(r.ord, GrowBackward(r.ord, y.debut, y.path).value, y.fin, y.depth + 1, false);
          PathsSnoc(JoinRows(init, y, now).value, p, own, name);
        }
      }
    }
  }

  lemma JoinedIsNew(r: Row, y: Path, now: int)
    requires Joins(r, y, now)
    ensures !ContainsOid(r.ord.oid, y.path.x)
  {}

  lemma PathsConcat(ps: seq<Path>, qs: seq<Path>, own: int, name: int)
    requires AllTrails(ps, own, name) && AllTrails(qs, own, name)
    ensures AllTrails(ps + qs, own, name)
    ensures NamedPaths(ps + qs, name) == NamedPaths(ps, name) + NamedPaths(qs, name)
  {}

  lemma {:induction false} NamedNext(book: seq<Row>, level: seq<Path>, now: int, own: int, name: int)
    requires Unused(book, own, name) && AllTrails(level, own, name)
    ensures NextLevel(book, NamedPaths(level, name), now) == NamedLevel(NextLevel(book, level, now), name)
    ensures NextLevel(book, level, now).Ok? ==> AllTrails(NextLevel(book, level, now).value, own, name)
  {
    hide Trail, JoinRows, Unused;
    if |level| > 0 {
      var init, y := level[..|level| - 1], level[|level| - 1];
      assert NamedPaths(level, name)[..|level| - 1] == NamedPaths(init, name);
      NamedNext(book, init, now, own, name);
      NamedJoins(book, y, now, own, name);
      if NextLevel(book, init, now).Ok? && JoinRows(book, y, now).Ok? {
        PathsConcat(NextLevel(book, init, now).value, JoinRows(book, y, now).value, own, name);
      }
    }
  }

  lemma {:induction false} NamedSearch(book: seq<Row>, level: seq<Path>, depth: nat, now: int, own: int, name: int)
    requires depth <= MAXCYCLE && Unused(book, own, name) && AllTrails(level, own, name)
    ensures SearchFrom(book, NamedPaths(level, name), depth, now) ==
            NamedLevel(SearchFrom(book, level, depth, now), name)
    ensures SearchFrom(book, level, depth, now).Ok? ==> AllTrails(SearchFrom(book, level, depth, now).value, own, name)
    decreases MAXCYCLE - depth
  {
    hide AllTrails, NextLevel, Unused;
    if depth < MAXCYCLE {
      NamedNext(book, level, now, own, name);
      if NextLevel(book, level, now).Ok? {
        var next := NextLevel(book, level, now).value;
        NamedSearch(book, next, depth + 1, now, own, name);
        if SearchFrom(book, next, depth + 1, now).Ok? {
          PathsConcat(level, SearchFrom(book, next, depth + 1, now).value, own, name);
        }
      }
    }
  }

  /** The closing of one path, under either name. */
  lemma NamedFinish(root: RootFunction, p: Path, own: int, name: int)
    requires IsRoot(root) && Trail(p, own, name)
    ensures var q := NamedPath(p, name);
            && (Matches(q.fin, q.debut) <==> Matches(p.fin, p.debut))
            && Finish(root, q.debut, q.path, q.fin) == NamedResult(Finish(root, p.debut, p.path, p.fin), name)
            && (Finish(root, p.debut, p.path, p.fin).Ok? ==>
                  EndsAt(Finish(root, p.debut, p.path, p.fin).value, own))
  {
    hide FlowcMaximum, IsRoot, MatchQuality;
    var n := |p.path.x|;
    if n >= 2 {
      var x := p.path.x[n - 1 := p.path.x[n - 1].(proba := 1.0)];
      var z := NamedPath(p, name).path.x;
      assert z[n - 1 := z[n - 1].(proba := 1.0)] == Named(x, name);
      InnerDistinct(x, own, name);
      hide DistinctOids;
      NamedComputes(root, FlowRecord(x, p.path.flowr), name);
    }
  }

  lemma InnerDistinct(x: seq<Tfl>, own: int, name: int)
    requires |x| >= 1 && x[|x| - 1].oid == own
    requires forall i :: 0 <= i < |x| - 1 ==> x[i].oid != own && x[i].oid != name
    ensures DistinctOids(x) <==> DistinctOids(Named(x, name))
  {
    var y := Named(x, name);
    assert forall i :: 0 <= i < |x| - 1 ==> x[i].oid == y[i].oid;
  }

  lemma {:induction false} NamedClose(root: RootFunction, ps: seq<Path>, own: int, name: int)
    requires IsRoot(root) && AllTrails(ps, own, name)
    ensures Close(root, NamedPaths(ps, name)) == NamedTable(Close(root, ps), name)
    ensures Close(root, ps).Ok? ==> AllEndAt(Close(root, ps).value, own)
  {
    hide Trail, Finish, Matches, IsRoot, IsDraft, EndsAt;
    NoRows(name, own);
    if |ps| > 0 {
      var init, p := ps[..|ps| - 1], ps[|ps| - 1];
      assert NamedPaths(ps, name)[..|ps| - 1] == NamedPaths(init, name);
      assert AllTrails(init, own, name);
      NamedClose(root, init, own, name);
      NamedFinish(root, p, own, name);
      var c := Finish(root, p.debut, p.path, p.fin);
      if Close(root, init).Ok? && c.Ok? {
        NamedDraft(c.value, name);
        AllNamedSnoc(Close(root, init).value, c.value, name);
        EndsSnoc(Close(root, init).value, c.value, own);
      }
    }
  }

  lemma NamedLimited(ps: seq<Path>, own: int, name: int)
    requires AllTrails(ps, own, name)
    ensures Limited(NamedPaths(ps, name)) == NamedPaths(Limited(ps), name)
    ensures AllTrails(Limited(ps), own, name)
  {}

  lemma NamedFirst(o: Order, name: int)
    requires o.id == o.oid
    ensures FirstLevel(Renamed(o, name)) == NamedPaths(FirstLevel(o), name)
    ensures AllTrails(FirstLevel(o), o.id, name)
  {
    assert YflowInit(Renamed(o, name)) == NamedFlow(YflowInit(o), name);
    assert FirstLevel(Renamed(o, name))[0] == NamedPath(FirstLevel(o)[0], name);
  }

  /** The table of the cycles through an order, under either name. */
  lemma NamedCycles(root: RootFunction, book: seq<Row>, o: Order, now: int, name: int)
    requires IsRoot(root) && o.id == o.oid && Unused(book, o.id, name)
    ensures FcreateTmp(root, book, Renamed(o, name), now) == NamedTable(FcreateTmp(root, book, o, now), name)
    ensures FcreateTmp(root, book, o, now).Ok? ==> AllEndAt(FcreateTmp(root, book, o, now).value, o.id)
  {
    hide SearchFrom, Close, AllTrails, Unused, AllEndAt, FirstLevel, Limited, IsRoot;
    NamedFirst(o, name);
    NamedSearch(book, FirstLevel(o), 1, now, o.id, name);
    var ps := SearchFrom(book, FirstLevel(o), 1, now);
    if ps.Ok? {
      NamedLimited(ps.value, o.id, name);
      NamedClose(root, Limited(ps.value), o.id, name);
    }
  }

  // ---------------------------------------------------------------------------
  // The quote of an order that comes later

  /** A quote does not depend on the id that the stack gave to it. */
  lemma QuoteForgetsName(root: RootFunction, book: seq<Row>, o: Order, now: int, flags: QuoteFlags, name: int)
    requires IsRoot(root) && Quotable(book, o) && Quotable(book, Renamed(o, name))
    requires o.id == o.oid && Unused(book, o.id, name)
    ensures QuoteRun(root, book, Renamed(o, name), now, flags) ==
            NamedVisited(QuoteRun(root, book, o, now, flags), name)
  {
    hide *;
    var o' := Renamed(o, name);
    NamedCycles(root, book, o, now, name);
    var r := FcreateTmp(root, book, o, now);
    TableIs(r, name);
    NamedRaises(name);
    QuoteRunIs(root, book, o, now, flags);
    QuoteRunIs(root, book, o', now, flags);
    if r.Ok? {
      QuoteTableExecutable(root, book, o, now);
      QuoteTableExecutable(root, book, o', now);
      NamedNothing(name);
      NamedLoop(root, r.value, 0, flags, UNQUOTED, true, [], o.id, name);
      SameQuoting(QuoteLoop(root, r.value, 0, flags, UNQUOTED, true, []), flags, name);
    }
  }

  lemma NamedNothing(name: int)
    ensures AllNamed([], name) == []
  {}

  /** The totals are the same, and the check of the price. */
  lemma SameQuoting(v: Result<Visited>, flags: QuoteFlags, name: int)
    ensures v.Ok? ==> NamedVisited(v, name).Ok?
    ensures v.Ok? ==>
              QuoteChecked(NamedVisited(v, name).value, flags) == NamedVisited(QuoteChecked(v.value, flags), name)
    ensures v.Err? ==> NamedVisited(v, name) == v
  {
    hide AboveLimit;
  }

  lemma QuoteRunIs(root: RootFunction, book: seq<Row>, o: Order, now: int, flags: QuoteFlags)
    requires IsRoot(root) && Quotable(book, o)
    ensures var tmp := FcreateTmp(root, book, o, now);
            if tmp.Err? then QuoteRun(root, book, o, now, flags) == Err(tmp.error)
            else
              && AllExecutable(tmp.value)
              && var v := QuoteLoop(root, tmp.value, 0, flags, UNQUOTED, true, []);
              QuoteRun(root, book, o, now, flags) == if v.Ok? then QuoteChecked(v.value, flags) else v
  {
    hide FcreateTmp, QuoteLoop, Quotable, IsRoot, AllExecutable, AboveLimit;
    if FcreateTmp(root, book, o, now).Ok? { QuoteTableExecutable(root, book, o, now); }
  }

  /** The quote that is executed under an earlier id predicts the order: both fail
      or both succeed, with the same quantities, over the same cycles. */
  lemma QuotePredictsLaterOrder(root: RootFunction, m: Market, r: Row, now: int, idq: int)
    requires IsRoot(root) && ValidBook(m.torder)
    requires NewOrder(m.torder, r.ord) && NewOrder(m.torder, Renamed(r.ord, idq))
    ensures Quotable(m.torder, Renamed(r.ord, idq))
    ensures var q := Renamed(r.ord, idq);
            var v, e := QuoteRun(root, m.torder, q, now, FlagsOf(q)), InsertOrder(root, m, r, now);
            && (v.Ok? <==> e.Ok?)
            && (v.Ok? ==> v.value.quoting.totals == e.value.totals
                          && v.value.cycles == AllNamed(e.value.cycles, idq))
  {
    hide *;
    var q := Renamed(r.ord, idq);
    NewIsQuotable(m.torder, r.ord);
    NewIsQuotable(m.torder, q);
    NewNames(m.torder, r.ord, idq);
    QuotePredictsOrder(root, m, r, now);
    QuoteForgetsName(root, m.torder, r.ord, now, FlagsOf(q), idq);
    VisitedNamed(QuoteRun(root, m.torder, r.ord, now, FlagsOf(q)), idq);
  }

  lemma NewNames(book: seq<Row>, o: Order, name: int)
    requires NewOrder(book, o) && NewOrder(book, Renamed(o, name))
    ensures o.id == o.oid && Unused(book, o.id, name) && FlagsOf(Renamed(o, name)) == FlagsOf(o)
  {}

  lemma VisitedNamed(v: Result<Visited>, name: int)
    ensures v.Ok? <==> NamedVisited(v, name).Ok?
    ensures v.Ok? ==>
              && NamedVisited(v, name).value.quoting == v.value.quoting
              && NamedVisited(v, name).value.cycles == AllNamed(v.value.cycles, name)
  {}
}
