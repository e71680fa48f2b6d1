/** Operations on flows: rank and maximum, and the reduction of a cached flow by
    an executed one. */
module Yflow {
  import opened Numeric
  import opened FlowTypes
  import opened Kernel

  const MAXCYCLE: nat := 64

  // ---------------------------------------------------------------------------
  // Rank

  /** The nodes whose price counts in the rank: an ignored last price does not. */
  function RankedNodes(f: Tflow): nat
    requires |f.x| >= 1
  {
    if IgnoresOmega(f.x) then |f.x| - 1 else |f.x|
  }

  /** The nodes that are ranked have a price. */
  predicate Rankable(f: Tflow) {
    |f.x| >= 2 ==> forall i :: 0 <= i < RankedNodes(f) ==> f.x[i].qttRequ > 0 && f.x[i].qttProv > 0
  }

  /** The prices of the first n nodes multiplied. */
  function PriceProduct(x: seq<Tfl>, n: nat): (p: real)
    requires n <= |x| && forall i :: 0 <= i < n ==> x[i].qttRequ > 0 && x[i].qttProv > 0
    ensures p > 0.0
  {
    if n == 0 then 1.0
    else
      MulPos(PriceProduct(x, n - 1), x[n - 1].qttProv as real / x[n - 1].qttRequ as real);
      PriceProduct(x, n - 1) * (x[n - 1].qttProv as real / x[n - 1].qttRequ as real)
  }

  /** The rank of a flow; zero when it cannot be executed. */
  function OmegaFlow(f: Tflow): (r: real)
    requires Rankable(f)
    ensures r >= 0.0
    ensures IsDraft(f) ==> r > 0.0
  {
    if |f.x| < 2 then 0.0
    else if exists i :: 0 <= i < RankedNodes(f) && f.flowr[i] <= 0 then 0.0
    else PriceProduct(f.x, RankedNodes(f))
  }

  method GetOmegaFlow(f: Tflow) returns (rank: real)
    requires Rankable(f)
    ensures rank == OmegaFlow(f)
  {
    if |f.x| < 2 {
      return 0.0;
    }
    var k := |f.x|;
    if IgnoresOmega(f.x) {
      k := k - 1;
    }
    rank := 1.0;
    for i := 0 to k
      invariant rank == PriceProduct(f.x, i)
      invariant forall j :: 0 <= j < i ==> f.flowr[j] > 0
    {
      if f.flowr[i] <= 0 {
        return 0.0;
      }
      rank := rank * (f.x[i].qttProv as real / f.x[i].qttRequ as real);
    }
  }

  method YflowIsDraft(f: Tflow) returns (isDraft: bool)
    ensures isDraft == IsDraft(f)
  {
    if |f.x| < 2 {
      return false;
    }
    isDraft := true;
    for i := 0 to |f.x|
      invariant forall j :: 0 <= j < i ==> f.flowr[j] > 0
      invariant isDraft
    {
      if f.flowr[i] <= 0 {
        return false;
      }
    }
  }

  predicate Probable(f: Tflow) {
    forall i :: 0 <= i < |f.x| ==> f.x[i].proba >= 0.0
  }

  function ProbaProduct(x: seq<Tfl>, n: nat): (p: real)
    requires n <= |x| && forall i :: 0 <= i < n ==> x[i].proba >= 0.0
    ensures p >= 0.0
  {
    if n == 0 then 1.0 else
      assert x[n - 1].proba * ProbaProduct(x, n - 1) >= 0.0;
      ProbaProduct(x, n - 1) * x[n - 1].proba
  }

  /** The geometric mean of the probabilities. */
  function MeanProba(root: RootFunction, f: Tflow): real
    requires Probable(f)
  {
    var p := ProbaProduct(f.x, |f.x|);
    if p == 0.0 then 0.0 else root(p, |f.x|)
  }

  /** f0 is preferred to f1. */
  predicate Above(root: RootFunction, f0: Tflow, f1: Tflow)
    requires Rankable(f0) && Rankable(f1) && Probable(f0) && Probable(f1)
  {
    OmegaFlow(f0) > OmegaFlow(f1) ||
    (OmegaFlow(f0) == OmegaFlow(f1) && MeanProba(root, f0) > MeanProba(root, f1))
  }

  /** The step of the aggregate: f0 is kept only when both can be executed and it
      is preferred. */
  function MaxG(root: RootFunction, f0: Tflow, f1: Tflow): Tflow
    requires Rankable(f0) && Rankable(f1) && Probable(f0) && Probable(f1)
  {
    if OmegaFlow(f0) == 0.0 || OmegaFlow(f1) == 0.0 then f1
    else if Above(root, f0, f1) then f0
    else f1
  }

  predicate AllRanked(fs: seq<Tflow>) {
    forall i :: 0 <= i < |fs| ==> Rankable(fs[i]) && Probable(fs[i])
  }

  /** The aggregate over rows, from the empty flow. */
  function MaxFlow(root: RootFunction, fs: seq<Tflow>): (m: Tflow)
    requires AllRanked(fs)
    ensures m == EMPTY_FLOW || m in fs
    ensures Rankable(m) && Probable(m)
  {
    if |fs| == 0 then EMPTY_FLOW
    else MaxG(root, MaxFlow(root, fs[..|fs| - 1]), fs[|fs| - 1])
  }

  predicate AllDrafts(fs: seq<Tflow>) {
    forall i :: 0 <= i < |fs| ==> IsDraft(fs[i])
  }

  /** Over drafts, in any order, the aggregate is one of them, and none is
      preferred to it; it is empty only when there are none. */
  lemma {:induction false} MaxFlowIsGreatest(root: RootFunction, fs: seq<Tflow>)
    requires AllRanked(fs) && AllDrafts(fs)
    ensures MaxFlow(root, fs) == EMPTY_FLOW <==> fs == []
    ensures fs != [] ==> MaxFlow(root, fs) in fs
    ensures forall i :: 0 <= i < |fs| ==> !Above(root, fs[i], MaxFlow(root, fs))
  {
    if |fs| > 0 {
      var init, last := fs[..|fs| - 1], fs[|fs| - 1];
      MaxFlowIsGreatest(root, init);
      hide OmegaFlow, MeanProba;
      forall i | 0 <= i < |fs|
        ensures !Above(root, fs[i], MaxFlow(root, fs))
      {
        if i < |fs| - 1 { assert fs[i] == init[i]; }
      }
    }
  }

  /** A row that cannot be executed makes the aggregate forget all the rows before
      it: the guard of the query, which keeps drafts only, is needed. */
  lemma {:induction false} MaxFlowForgets(root: RootFunction, fs: seq<Tflow>, k: nat)
    requires AllRanked(fs) && k < |fs| && OmegaFlow(fs[k]) == 0.0
    ensures MaxFlow(root, fs) == if k == |fs| - 1 then fs[k] else MaxFlow(root, fs[k + 1..])
  {
    hide MaxFlow, MaxG, OmegaFlow, Rankable, Probable;
    var n := |fs| - 1;
    MaxFlowLast(root, fs);
    if k == n {
      MaxGForgets(root, MaxFlow(root, fs[..n]), fs[n]);
    } else {
      MaxFlowForgets(root, fs[..n], k);
      var later := fs[k + 1..];
      assert later[..|later| - 1] == fs[..n][k + 1..] && later[|later| - 1] == fs[n];
      MaxFlowLast(root, later);
      if k == n - 1 {
        NothingRanked(root);
        MaxGForgets(root, fs[k], fs[n]);
        MaxGForgets(root, EMPTY_FLOW, fs[n]);
      }
    }
  }

  lemma MaxFlowLast(root: RootFunction, fs: seq<Tflow>)
    requires AllRanked(fs) && |fs| > 0
    ensures MaxFlow(root, fs) == MaxG(root, MaxFlow(root, fs[..|fs| - 1]), fs[|fs| - 1])
  {
    hide MaxG, OmegaFlow, Rankable, Probable;
  }

  /** The step keeps the second flow when one of the two cannot be executed. */
  lemma MaxGForgets(root: RootFunction, f0: Tflow, f1: Tflow)
    requires Rankable(f0) && Rankable(f1) && Probable(f0) && Probable(f1)
    requires OmegaFlow(f0) == 0.0 || OmegaFlow(f1) == 0.0
    ensures MaxG(root, f0, f1) == f1
  {
    hide OmegaFlow, Rankable, Probable, Above;
  }

  lemma NothingRanked(root: RootFunction)
    ensures Rankable(EMPTY_FLOW) && Probable(EMPTY_FLOW) && OmegaFlow(EMPTY_FLOW) == 0.0
    ensures MaxFlow(root, []) == EMPTY_FLOW
  {}

  method ProbaOf(f: Tflow) returns (p: real)
    requires Probable(f)
    ensures p == ProbaProduct(f.x, |f.x|)
  {
    p := 1.0;
    for i := 0 to |f.x|
      invariant p == ProbaProduct(f.x, i)
    {
      p := p * f.x[i].proba;
    }
  }

  /** The step as it runs; the mean is compared only when the ranks are equal. */
  method YflowMaxG(root: RootFunction, f0: Tflow, f1: Tflow) returns (m: Tflow)
    requires Rankable(f0) && Rankable(f1) && Probable(f0) && Probable(f1)
    ensures m == MaxG(root, f0, f1)
  {
    hide OmegaFlow, ProbaProduct;
    var rank0 := GetOmegaFlow(f0);
    if rank0 == 0.0 {
      return f1;
    }
    var rank1 := GetOmegaFlow(f1);
    if rank1 == 0.0 {
      return f1;
    }
    var sup := rank0 > rank1;
    if rank0 == rank1 {
      var p0 := ProbaOf(f0);
      var p1 := ProbaOf(f1);
      var mean0 := if p0 == 0.0 then 0.0 else root(p0, |f0.x|);
      var mean1 := if p1 == 0.0 then 0.0 else root(p1, |f1.x|);
      sup := mean0 > mean1;
    }
    m := if sup then f0 else f1;
  }

  // ---------------------------------------------------------------------------
  // Reduction

  /** What the first n nodes of an executed flow took from a stock. */
  function AmountUpTo(f: Tflow, n: nat, oid: int): (q: nat)
    requires n <= |f.x| && forall i :: 0 <= i < n ==> f.flowr[i] >= 0
  {
    if n == 0 then 0
    else AmountUpTo(f, n - 1, oid) + if f.x[n - 1].oid == oid then f.flowr[n - 1] else 0
  }

  function Amount(f: Tflow, oid: int): nat
    requires IsDraft(f)
  {
    AmountUpTo(f, |f.x|, oid)
  }

  /** Nothing is asked of the stock of the node, or it has enough. */
  predicate CanGive(b: Tfl, q: nat) {
    IsNoQttLimit(b.kind) || q == 0 || b.qtt >= q
  }

  /** A node with what was taken from its stock; an unlimited one is untouched. */
  function Given(b: Tfl, q: nat): Tfl
    requires CanGive(b, q)
  {
    if IsNoQttLimit(b.kind) then b else b.(qtt := b.qtt - q)
  }

  predicate AllCanGive(x: seq<Tfl>, f: Tflow)
    requires IsDraft(f)
  {
    forall j :: 0 <= j < |x| ==> CanGive(x[j], Amount(f, x[j].oid))
  }

  function Subtracted(x: seq<Tfl>, f: Tflow): (y: seq<Tfl>)
    requires IsDraft(f) && AllCanGive(x, f)
    ensures |y| == |x| && forall j :: 0 <= j < |x| ==> y[j] == Given(x[j], Amount(f, x[j].oid))
  {
    seq(|x|, j requires 0 <= j < |x| => Given(x[j], Amount(f, x[j].oid)))
  }

  /** The price found by a quote is kept, and frozen when asked for. */
  function Frozen(last: Tfl, found: Tfl, freeze: bool): Tfl {
    if !IsIgnoreOmega(last.kind) then last
    else
      last.(qttProv := found.qttProv,
            qttRequ := found.qttRequ,
            kind := if freeze then last.kind - 8 else last.kind)
  }

  /** The nodes of a cached flow after the execution of f1. */
  function ReducedNodes(x: seq<Tfl>, f1: Tflow, freeze: bool): (z: seq<Tfl>)
    requires |x| >= 1 && IsDraft(f1) && AllCanGive(x, f1)
    ensures |z| == |x|
  {
    var y := Subtracted(x, f1);
    y[|y| - 1 := Frozen(y[|y| - 1], f1.x[|f1.x| - 1], freeze)]
  }

  /** A cached flow after the execution of f1. */
  function Reduce(root: RootFunction, f0: Tflow, f1: Tflow, freeze: bool): Result<Tflow>
    requires IsRoot(root) && |f0.x| >= 1 && IsDraft(f1)
  {
    if f0.x[|f0.x| - 1].id != f1.x[|f1.x| - 1].id then Err(LastNodesDiffer)
    else if !AllCanGive(f0.x, f1) then Err(FlowAboveStock)
    else
      var m :- FlowcMaximum(root, FlowRecord(ReducedNodes(f0.x, f1, freeze), f0.flowr));
      Ok(m.flow)
  }
}
