/** The matching loop: the best cached cycle is executed, every cached cycle is
    reduced by it, and those that are no longer drafts are dropped. */
module Matching {
  import opened Numeric
  import opened FlowTypes
  import opened Gains
  import opened ExactFlow
  import opened Kernel
  import opened Guarantees
  import opened Yflow

  const MAXMVTPERTRANS: nat := 128

  // ---------------------------------------------------------------------------
  // Cached cycles

  /** Only the last node can have an unlimited stock. */
  predicate InnerLimited(x: seq<Tfl>) {
    forall i :: 0 <= i < |x| - 1 ==> !IsNoQttLimit(x[i].kind)
  }

  /** The stock of node e limits the flow. */
  predicate IsLimited(x: seq<Tfl>, e: nat)
    requires e < |x|
  {
    e < |x| - 1 || !IgnoresQtt(x)
  }

  /** The flow takes the whole stock of some node that limits it. */
  ghost predicate SpendsOne(c: Tflow) {
    exists e :: 0 <= e < |c.x| && IsLimited(c.x, e) && c.flowr[e] == c.x[e].qtt
  }

  /** A cycle of the temporary table. */
  ghost predicate Executable(c: Tflow) {
    && 2 <= |c.x| <= FLOW_MAX_DIM
    && DistinctOids(c.x)
    && InnerLimited(c.x)
    && IsDraft(c)
    && Rankable(c) && Probable(c)
    && SpendsOne(c)
  }

  ghost predicate AllExecutable(tmp: seq<Tflow>) {
    forall k :: 0 <= k < |tmp| ==> Executable(tmp[k])
  }

  lemma FoundSpendsOne(root: RootFunction, f: Tflow, g: Tflow)
    requires IsRoot(root) && FlowcMaximum(root, f) == Ok(Computed(Draft, g))
    ensures |f.x| == |g.x| >= 2 && SpendsOne(g)
  {
    hide FlowcMaximum, CubeOf, Choose, AllPriced, ProdOmega, DistinctOids, NonNegative, SomeStockEmpty, IsRoot;
    FoundHasNodes(root, f, g);
    DraftWithinStocks(root, f, g);
    var y := Opened(f.x);
    var e :| 0 <= e < |y| && IsDefined(y[e]) && g.flowr[e] == y[e].qtt;
    assert IsLimited(g.x, e);
  }

  /** What is known of the nodes of a flow found. */
  ghost predicate FoundNodes(x: seq<Tfl>, g: Tflow) {
    && 2 <= |x| <= FLOW_MAX_DIM
    && NonNegative(x) && DistinctOids(x)
    && AllPriced(Opened(x), IgnoresOmega(x))
    && |g.flowr| == |x|
    && (forall k :: 0 <= k < |x| ==> 0 <= g.flowr[k] <= INT64_MAX)
    && g.x == Settled(Opened(x), g.flowr)
  }

  lemma FoundHasNodes(root: RootFunction, f: Tflow, g: Tflow)
    requires IsRoot(root) && FlowcMaximum(root, f) == Ok(Computed(Draft, g))
    ensures FoundNodes(f.x, g)
  {
    hide FlowcMaximum, CubeOf, Choose, ProdOmega, SomeStockEmpty, AllPriced, Opened, Settled, NonNegative, DistinctOids;
    var c, mat := DraftFound(root, f, g);
  }

  lemma NodesDistinct(x: seq<Tfl>, g: Tflow)
    requires FoundNodes(x, g)
    ensures DistinctOids(g.x) && (InnerLimited(x) ==> InnerLimited(g.x))
  {
    hide AllPriced;
    assert forall k :: 0 <= k < |x| ==> g.x[k].oid == x[k].oid;
  }

  lemma NodesRanked(x: seq<Tfl>, g: Tflow)
    requires FoundNodes(x, g)
    ensures Rankable(g) && Probable(g)
  {
    hide AllPriced, DistinctOids;
    assert forall k :: 0 <= k < |x| ==> g.x[k].proba == x[k].proba;
    forall i | 0 <= i < RankedNodes(g)
      ensures g.x[i].qttRequ > 0 && g.x[i].qttProv > 0
    {
      PricedStays(x, g, i);
    }
  }

  lemma PricedStays(x: seq<Tfl>, g: Tflow, i: nat)
    requires FoundNodes(x, g) && i < RankedNodes(g)
    ensures g.x[i].qttRequ > 0 && g.x[i].qttProv > 0
  {
    var y := Opened(x);
    assert PricedNodes(y, IgnoresOmega(x))[i] == y[i];
  }

  /** What the kernel finds can be cached. */
  lemma FoundIsExecutable(root: RootFunction, f: Tflow, g: Tflow)
    requires IsRoot(root) && FlowcMaximum(root, f) == Ok(Computed(Draft, g)) && IsDraft(g)
    requires InnerLimited(f.x)
    ensures Executable(g)
  {
    hide FlowcMaximum, SpendsOne, Rankable, Probable, DistinctOids, InnerLimited, IsDraft;
    FoundSpendsOne(root, f, g);
    FoundHasNodes(root, f, g);
    NodesDistinct(f.x, g);
    NodesRanked(f.x, g);
    hide FoundNodes;
  }

  // ---------------------------------------------------------------------------
  // What an executed cycle takes from a stock

  lemma {:induction false} AmountNone(f: Tflow, n: nat, oid: int)
    requires IsDraft(f) && n <= |f.x|
    requires forall i :: 0 <= i < n ==> f.x[i].oid != oid
    ensures AmountUpTo(f, n, oid) == 0
  {
    if n > 0 { AmountNone(f, n - 1, oid); }
  }

  /** It takes from the stock of a node the flow of the node. */
  lemma {:induction false} AmountUpToAt(f: Tflow, n: nat, i: nat)
    requires IsDraft(f) && DistinctOids(f.x) && i < n <= |f.x|
    ensures AmountUpTo(f, n, f.x[i].oid) == f.flowr[i]
  {
    if i == n - 1 {
      AmountNone(f, n - 1, f.x[i].oid);
    } else {
      assert f.x[i].oid != f.x[n - 1].oid;
      AmountUpToAt(f, n - 1, i);
    }
  }

  lemma AmountAt(f: Tflow, i: nat)
    requires IsDraft(f) && DistinctOids(f.x) && i < |f.x|
    ensures Amount(f, f.x[i].oid) == f.flowr[i]
  {
    AmountUpToAt(f, |f.x|, i);
  }

  // ---------------------------------------------------------------------------
  // One round

  /** A cycle takes the whole of some of its own stocks. */
  lemma SpentNodes(f: Tflow, freeze: bool)
    requires Executable(f) && AllCanGive(f.x, f)
    ensures SomeStockEmpty(ReducedNodes(f.x, f, freeze))
  {
    hide Rankable, Probable;
    var e :| 0 <= e < |f.x| && IsLimited(f.x, e) && f.flowr[e] == f.x[e].qtt;
    AmountAt(f, e);
    hide Amount;
    assert ReducedNodes(f.x, f, freeze)[e].qtt == 0;
  }

  /** The executed cycle, reduced by itself, is not a draft any more. */
  lemma SpentIsDropped(root: RootFunction, f: Tflow, freeze: bool)
    requires IsRoot(root) && Executable(f) && Reduce(root, f, f, freeze).Ok?
    ensures !IsDraft(Reduce(root, f, f, freeze).value)
  {
    hide ReducedNodes, SomeStockEmpty, SpendsOne, InnerLimited, DistinctOids, Rankable, Probable, FlowcMaximum;
    SpentNodes(f, freeze);
    EmptyStockNotDraft(root, FlowRecord(ReducedNodes(f.x, f, freeze), f.flowr));
  }

  lemma EmptyStockNotDraft(root: RootFunction, f: Tflow)
    requires IsRoot(root) && |f.x| >= 2 && SomeStockEmpty(f.x) && FlowcMaximum(root, f).Ok?
    ensures !IsDraft(FlowcMaximum(root, f).value.flow)
  {
    assert Dropped(f.x).flowr[0] == QTTFLOW_UNDEFINED;
  }

  /** What is reduced and still a draft can be cached again. */
  lemma ReducedIsExecutable(root: RootFunction, c: Tflow, best: Tflow, freeze: bool)
    requires IsRoot(root) && Executable(c) && Executable(best) && Reduce(root, c, best, freeze).Ok?
    requires IsDraft(Reduce(root, c, best, freeze).value)
    ensures Executable(Reduce(root, c, best, freeze).value)
  {
    hide ReducedNodes, SpendsOne, DistinctOids, Rankable, Probable, FlowcMaximum, InnerLimited, IsDraft;
    ReducedInnerLimited(c.x, best, freeze);
    var f := FlowRecord(ReducedNodes(c.x, best, freeze), c.flowr);
    var g := FlowcMaximum(root, f).value;
    DraftStatus(root, f, g);
    FoundIsExecutable(root, f, g.flow);
  }

  lemma ReducedInnerLimited(x: seq<Tfl>, best: Tflow, freeze: bool)
    requires |x| >= 1 && IsDraft(best) && AllCanGive(x, best) && InnerLimited(x)
    ensures InnerLimited(ReducedNodes(x, best, freeze))
  {
    hide Amount;
  }

  /** A flow that can be executed was found with the status draft. */
  lemma DraftStatus(root: RootFunction, f: Tflow, g: Computed)
    requires IsRoot(root) && |f.x| >= 2 && FlowcMaximum(root, f) == Ok(g) && IsDraft(g.flow)
    ensures g.status == Draft
  {
    hide CubeOf, IsRoot, Ready, AllPriced, DistinctOids, NonNegative, SomeStockEmpty, Opened, Choose, CalType;
    if g.status != Draft {
      var y := if SomeStockEmpty(f.x) then f.x else Opened(f.x);
      DroppedIsNotDraft(y);
    }
  }

  lemma DroppedIsNotDraft(y: seq<Tfl>)
    requires |y| >= 1
    ensures !IsDraft(Dropped(y))
  {
    assert Dropped(y).flowr[0] == QTTFLOW_UNDEFINED;
  }

  /** Every row of the table reduced by the executed cycle. */
  function UpdateAll(root: RootFunction, tmp: seq<Tflow>, best: Tflow, freeze: bool): (r: Result<seq<Tflow>>)
    requires IsRoot(root) && AllExecutable(tmp) && Executable(best)
    ensures r.Ok? ==> |r.value| == |tmp|
  {
    if |tmp| == 0 then Ok([])
    else
      var us :- UpdateAll(root, tmp[..|tmp| - 1], best, freeze);
      var u :- Reduce(root, tmp[|tmp| - 1], best, freeze);
      Ok(us + [u])
  }

  lemma {:induction false} UpdateAllAt(root: RootFunction, tmp: seq<Tflow>, best: Tflow, freeze: bool, k: nat)
    requires IsRoot(root) && AllExecutable(tmp) && Executable(best) && k < |tmp|
    requires UpdateAll(root, tmp, best, freeze).Ok?
    ensures Reduce(root, tmp[k], best, freeze) == Ok(UpdateAll(root, tmp, best, freeze).value[k])
  {
    hide Executable, Reduce, IsRoot;
    if k < |tmp| - 1 { UpdateAllAt(root, tmp[..|tmp| - 1], best, freeze, k); }
  }

  /** The rows that are drafts. */
  function Drafts(tmp: seq<Tflow>): (ds: seq<Tflow>)
    ensures |ds| <= |tmp|
    ensures forall k :: 0 <= k < |ds| ==> ds[k] in tmp && IsDraft(ds[k])
  {
    if |tmp| == 0 then []
    else if IsDraft(tmp[|tmp| - 1]) then Drafts(tmp[..|tmp| - 1]) + [tmp[|tmp| - 1]]
    else Drafts(tmp[..|tmp| - 1])
  }

  lemma {:induction false} DraftsFewer(tmp: seq<Tflow>, k: nat)
    requires k < |tmp| && !IsDraft(tmp[k])
    ensures |Drafts(tmp)| < |tmp|
  {
    if k < |tmp| - 1 { DraftsFewer(tmp[..|tmp| - 1], k); }
  }

  /** A round leaves fewer rows, and they can be executed. */
  lemma RoundShrinks(root: RootFunction, tmp: seq<Tflow>, best: Tflow, freeze: bool)
    requires IsRoot(root) && AllExecutable(tmp) && best in tmp && Executable(best)
    requires UpdateAll(root, tmp, best, freeze).Ok?
    ensures var ds := Drafts(UpdateAll(root, tmp, best, freeze).value);
            |ds| < |tmp| && AllExecutable(ds)
  {
    hide Executable, Reduce, IsDraft, UpdateAll, Drafts, IsRoot;
    var us := UpdateAll(root, tmp, best, freeze).value;
    var b :| 0 <= b < |tmp| && tmp[b] == best;
    UpdateAllAt(root, tmp, best, freeze, b);
    SpentIsDropped(root, best, freeze);
    DraftsFewer(us, b);
    forall k | 0 <= k < |Drafts(us)|
      ensures Executable(Drafts(us)[k])
    {
      StaysExecutable(root, tmp, best, freeze, us, Drafts(us)[k]);
    }
  }

  lemma StaysExecutable(root: RootFunction, tmp: seq<Tflow>, best: Tflow, freeze: bool, us: seq<Tflow>, u: Tflow)
    requires IsRoot(root) && AllExecutable(tmp) && Executable(best)
    requires UpdateAll(root, tmp, best, freeze) == Ok(us) && u in us && IsDraft(u)
    ensures Executable(u)
  {
    hide Executable, Reduce, UpdateAll, IsRoot, IsDraft;
    var j :| 0 <= j < |us| && us[j] == u;
    UpdateAllAt(root, tmp, best, freeze, j);
    ReducedIsExecutable(root, tmp[j], best, freeze);
  }

  lemma ExecutableRanked(tmp: seq<Tflow>)
    requires AllExecutable(tmp)
    ensures AllRanked(tmp) && AllDrafts(tmp)
  {}

  /** The best row of the table. */
  function Best(root: RootFunction, tmp: seq<Tflow>): (best: Tflow)
    requires AllExecutable(tmp)
    ensures tmp != [] ==> best in tmp && Executable(best)
    ensures tmp == [] ==> best == EMPTY_FLOW
  {
    ExecutableRanked(tmp);
    MaxFlowIsGreatest(root, tmp);
    MaxFlow(root, tmp)
  }

  // ---------------------------------------------------------------------------
  // What the new order gives and receives

  /** What the last node of a cycle gives and receives. */
  function Give(c: Tflow): int
    requires |c.x| >= 2
  {
    c.flowr[|c.x| - 1]
  }

  function Receive(c: Tflow): int
    requires |c.x| >= 2
  {
    c.flowr[|c.x| - 2]
  }

  ghost predicate Long(cs: seq<Tflow>) {
    forall k :: 0 <= k < |cs| ==> |cs[k].x| >= 2
  }

  function TotalGive(cs: seq<Tflow>): int
    requires Long(cs)
  {
    if |cs| == 0 then 0 else Give(cs[0]) + TotalGive(cs[1..])
  }

  function TotalReceive(cs: seq<Tflow>): int
    requires Long(cs)
  {
    if |cs| == 0 then 0 else Receive(cs[0]) + TotalReceive(cs[1..])
  }

  /** What the loops add up in bigint variables: what the new order receives and
      gives. */
  datatype Totals = Totals(reci: Int64, give: Int64)

  const NOTHING: Totals := Totals(0, 0)

  lemma NothingYet()
    ensures NOTHING == Totals(0, 0)
  {}

  predicate FitsInt64(q: int) {
    -0x8000_0000_0000_0000 <= q <= INT64_MAX
  }

  /** The totals with one more cycle; the addition of bigints raises out of range. */
  function AddUp(t: Totals, c: Tflow): Result<Totals>
    requires |c.x| >= 2
  {
    if !FitsInt64(t.reci + Receive(c)) || !FitsInt64(t.give + Give(c)) then Err(OutOfRange)
    else Ok(Totals(t.reci + Receive(c), t.give + Give(c)))
  }

  /** The totals after all cycles are within range. */
  predicate SumsFit(t: Totals, cs: seq<Tflow>)
    requires Long(cs)
  {
    t.reci + TotalReceive(cs) <= INT64_MAX && t.give + TotalGive(cs) <= INT64_MAX
  }

  function SumsOf(t: Totals, cs: seq<Tflow>): Totals
    requires Long(cs) && t.reci >= 0 && t.give >= 0 && SumsFit(t, cs)
    requires TotalReceive(cs) >= 0 && TotalGive(cs) >= 0
  {
    Totals(t.reci + TotalReceive(cs), t.give + TotalGive(cs))
  }

  /** All cycles are drafts. */
  ghost predicate Trading(cs: seq<Tflow>) {
    forall k :: 0 <= k < |cs| ==> IsDraft(cs[k])
  }

  lemma {:induction false} TotalsPositive(cs: seq<Tflow>)
    requires Trading(cs)
    ensures Long(cs) && TotalReceive(cs) >= 0 && TotalGive(cs) >= 0
  {
    if |cs| > 0 {
      assert IsDraft(cs[0]);
      TotalsPositive(cs[1..]);
    }
  }

  /** Adding up one cycle and then the others is adding up all of them. */
  lemma AddUpFirst(t: Totals, c: Tflow, rest: seq<Tflow>)
    requires t.reci >= 0 && t.give >= 0 && IsDraft(c) && Trading(rest)
    ensures Long(rest) && Long([c] + rest) && |c.x| >= 2
    ensures TotalReceive([c] + rest) >= 0 && TotalGive([c] + rest) >= 0
    ensures TotalReceive(rest) >= 0 && TotalGive(rest) >= 0
    ensures AddUp(t, c).Err? ==> AddUp(t, c) == Err(OutOfRange) && !SumsFit(t, [c] + rest)
    ensures AddUp(t, c).Ok? ==> AddUp(t, c).value.reci >= 0 && AddUp(t, c).value.give >= 0
    ensures AddUp(t, c).Ok? ==> (SumsFit(AddUp(t, c).value, rest) <==> SumsFit(t, [c] + rest))
    ensures AddUp(t, c).Ok? && SumsFit(t, [c] + rest) ==>
              SumsOf(AddUp(t, c).value, rest) == SumsOf(t, [c] + rest)
  {
    TotalsPositive(rest);
    assert ([c] + rest)[1..] == rest;
    assert Give(c) > 0 && Receive(c) > 0;
    LongCons(c, rest);
  }

  /** What is received over all cycles, the first one apart. */
  lemma ReceiveFirst(c: Tflow, rest: seq<Tflow>)
    requires |c.x| >= 2 && Long(rest)
    ensures Long([c] + rest) && TotalReceive([c] + rest) == Receive(c) + TotalReceive(rest)
    ensures Trading([c] + rest) ==> Trading(rest)
  {
    LongCons(c, rest);
    assert ([c] + rest)[1..] == rest;
    if Trading([c] + rest) {
      forall k | 0 <= k < |rest|
        ensures IsDraft(rest[k])
      {
        assert ([c] + rest)[k + 1] == rest[k];
      }
    }
  }

  lemma LongCons(c: Tflow, cs: seq<Tflow>)
    requires |c.x| >= 2 && Long(cs)
    ensures Long([c] + cs)
  {}

  // ---------------------------------------------------------------------------
  // The loop

  /** The cycles executed, in order. Each round executes the best cycle, reduces the
      table by it and keeps the drafts; the loop stops when no cycle is left, or
      before the limit of movements is passed. Every round leaves fewer rows, so
      it ends without that limit. */
  function MatchLoop(root: RootFunction, tmp: seq<Tflow>, moved: nat, freeze: bool): (r: Result<seq<Tflow>>)
    requires IsRoot(root) && AllExecutable(tmp)
    ensures r.Ok? ==> Long(r.value)
    decreases |tmp|
  {
    if tmp == [] then Ok([])
    else
      var best := Best(root, tmp);
      if moved + |best.x| > MAXMVTPERTRANS then Ok([])
      else
        var us :- UpdateAll(root, tmp, best, freeze);
        RoundShrinks(root, tmp, best, freeze);
        var rest :- MatchLoop(root, Drafts(us), moved + |best.x|, false);
        LongCons(best, rest);
        Ok([best] + rest)
  }

  lemma LoopStops(root: RootFunction, tmp: seq<Tflow>, moved: nat, freeze: bool)
    requires IsRoot(root) && AllExecutable(tmp)
    requires tmp == [] || moved + |Best(root, tmp).x| > MAXMVTPERTRANS
    ensures MatchLoop(root, tmp, moved, freeze) == Ok([])
  {
    hide Best, AllExecutable, IsRoot, UpdateAll, Drafts;
  }

  lemma LoopGoesOn(root: RootFunction, tmp: seq<Tflow>, moved: nat, freeze: bool)
    requires IsRoot(root) && AllExecutable(tmp) && tmp != []
    requires moved + |Best(root, tmp).x| <= MAXMVTPERTRANS
    requires UpdateAll(root, tmp, Best(root, tmp), freeze).Ok?
    ensures var best := Best(root, tmp);
            var ds := Drafts(UpdateAll(root, tmp, best, freeze).value);
            && |ds| < |tmp| && AllExecutable(ds)
            && var rest := MatchLoop(root, ds, moved + |best.x|, false);
               MatchLoop(root, tmp, moved, freeze) == if rest.Ok? then Ok([best] + rest.value) else rest
  {
    RoundShrinks(root, tmp, Best(root, tmp), freeze);
    hide Best, AllExecutable, Executable, IsRoot, UpdateAll, Drafts;
  }
}
