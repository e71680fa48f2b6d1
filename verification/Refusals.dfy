/** What is lost by refusing a cycle with a LIMIT order as soon as its prices multiply
    to less than one: nothing when all orders are LIMIT, and flows otherwise. */
module Refusals {
  import opened Numeric
  import opened FlowTypes
  import opened Owners
  import opened Gains
  import opened ExactFlow
  import opened Rounding
  import opened Kernel
  import opened Guarantees
  import opened Positivity

  /** The kernel refuses the cycle before it searches its flow. */
  predicate RefusedEarly(x: seq<Tfl>) {
    && 2 <= |x| <= FLOW_MAX_DIM && NonNegative(x) && DistinctOids(x) && !SomeStockEmpty(x)
    && Stocked(Opened(x)) && AllPriced(Opened(x), IgnoresOmega(x))
    && CalType(Opened(x)) == CycleLimit && ProdOmega(Opened(x), IgnoresOmega(x)) < 1.0
  }

  /** What is refused early is refused by the kernel. */
  ghost predicate KernelRefuses(root: RootFunction)
    requires IsRoot(root)
  {
    forall f: Tflow :: RefusedEarly(f.x) ==> FlowcMaximum(root, f) == Ok(Computed(Refused, Dropped(Opened(f.x))))
  }

  lemma RefusedIsRefused(root: RootFunction, f: Tflow)
    requires IsRoot(root) && RefusedEarly(f.x)
    ensures FlowcMaximum(root, f) == Ok(Computed(Refused, Dropped(Opened(f.x))))
  {
    hide Opened, AllPriced, Stocked, ProdOmega, CalType, NonNegative, DistinctOids, SomeStockEmpty, Rounded;
    OpenedStocked(f.x);
  }

  /** Integers within the stocks that observe every limit, each order giving something. */
  ghost predicate Feasible(y: seq<Tfl>, ignoreLast: bool, v: seq<int>)
    requires |y| >= 1 && AllPriced(y, ignoreLast)
  {
    && |v| == |y| && (forall i :: 0 <= i < |v| ==> v[i] > 0)
    && StockAllows(y, v) && LimitsObserved(y, Omegas(y, ignoreLast), v, ignoreLast)
  }

  /** No refused cycle of these types has a feasible flow. */
  ghost predicate NothingFeasibleIsLost(kinds: seq<nat>) {
    forall x: seq<Tfl>, v: seq<int> ::
      OfKinds(x, kinds) && RefusedEarly(x) ==> !Feasible(Opened(x), IgnoresOmega(x), v)
  }

  /** No refused cycle of these types would be rounded to a draft. */
  ghost predicate NoDraftIsLost(root: RootFunction, kinds: seq<nat>)
    requires IsRoot(root)
  {
    forall x: seq<Tfl>, g: Tflow ::
      OfKinds(x, kinds) && RefusedEarly(x) ==>
        Rounded(root, Opened(x), IgnoresOmega(x)) != Ok(Computed(Draft, g))
  }

  predicate KindsNoLimit(kinds: seq<nat>) {
    forall i :: 0 <= i < |kinds| ==> OrderType(kinds[i]) != ORDER_LIMIT
  }

  /** The types for which the refusal is right: all LIMIT, or never refused. */
  predicate RefusalIsRight(kinds: seq<nat>)
    requires |kinds| >= 1
  {
    PriceIgnored(kinds) || KindsNoLimit(kinds) || KindsAllLimit(kinds)
  }

  // ---------------------------------------------------------------------------
  // When the refusal is right

  lemma NeverRefused(x: seq<Tfl>, kinds: seq<nat>)
    requires OfKinds(x, kinds) && |kinds| >= 2 && (PriceIgnored(kinds) || KindsNoLimit(kinds))
    ensures !RefusedEarly(x)
  {
    KindsOfLimit(x, kinds);
    if |x| >= 2 && KindsNoLimit(kinds) {
      forall i | 0 <= i < |x|
        ensures !Opened(x)[i].IsLimit()
      {
        OpenedKeepsPrice(x, i);
      }
    }
  }

  /** With all orders LIMIT no vector of natural numbers observes the limits. */
  lemma AllLimitNothing(x: seq<Tfl>, kinds: seq<nat>, v: seq<int>)
    requires OfKinds(x, kinds) && |kinds| >= 2 && KindsAllLimit(kinds) && !PriceIgnored(kinds) && RefusedEarly(x)
    requires |v| == |x| && forall i :: 0 <= i < |v| ==> v[i] >= 0
    ensures !IgnoresOmega(x) && !LimitsObserved(Opened(x), Omegas(Opened(x), false), v, false)
  {
    KindsOfLimit(x, kinds);
    var y := Opened(x);
    forall i | 0 <= i < |y|
      ensures y[i].IsLimit()
    {
      OpenedKeepsPrice(x, i);
    }
    hide Opened, LimitsObserved, Omegas;
    RefusalLosesNothing(y, v);
  }

  lemma RightLosesNothing(kinds: seq<nat>, x: seq<Tfl>, v: seq<int>)
    requires |kinds| >= 2 && RefusalIsRight(kinds) && OfKinds(x, kinds) && RefusedEarly(x)
    ensures !Feasible(Opened(x), IgnoresOmega(x), v)
  {
    hide RefusedEarly, KindsNoLimit, KindsAllLimit, OfKinds, PriceIgnored;
    if PriceIgnored(kinds) || KindsNoLimit(kinds) {
      NeverRefused(x, kinds);
    } else {
      RefusedSize(x);
      if |v| == |x| && forall i :: 0 <= i < |v| ==> v[i] >= 0 { AllLimitNothing(x, kinds, v); }
    }
  }

  lemma RefusedSize(x: seq<Tfl>)
    requires RefusedEarly(x)
    ensures |x| >= 2 && Ready(Opened(x), IgnoresOmega(x))
  {}

  lemma RightLosesNoDraft(root: RootFunction, kinds: seq<nat>, x: seq<Tfl>, g: Tflow)
    requires IsRoot(root) && |kinds| >= 2 && RefusalIsRight(kinds) && OfKinds(x, kinds) && RefusedEarly(x)
    ensures Ready(Opened(x), IgnoresOmega(x))
    ensures Rounded(root, Opened(x), IgnoresOmega(x)) != Ok(Computed(Draft, g))
  {
    hide *;
    RefusedSize(x);
    if Rounded(root, Opened(x), IgnoresOmega(x)) == Ok(Computed(Draft, g)) {
      var c, mat := RoundedFound(root, Opened(x), IgnoresOmega(x), g);
      DraftObserves(root, Opened(x), IgnoresOmega(x), c, mat, g);
      RightCases(kinds);
      if PriceIgnored(kinds) || KindsNoLimit(kinds) {
        NeverRefused(x, kinds);
      } else {
        AllLimitNothing(x, kinds, g.flowr);
      }
    }
  }

  lemma RightCases(kinds: seq<nat>)
    requires |kinds| >= 1 && RefusalIsRight(kinds)
    ensures PriceIgnored(kinds) || KindsNoLimit(kinds) || KindsAllLimit(kinds)
  {}

  lemma DraftObserves(root: RootFunction, y: seq<Tfl>, ig: bool, c: Cube, mat: nat, g: Tflow)
    requires IsRoot(root) && Ready(y, ig) && CubeOf(root, y, ig) == Ok(c) && c.Accepts(mat)
    requires g.flowr == Vertex(c.floor, mat) && forall i :: 0 <= i < |g.flowr| ==> 0 <= g.flowr[i]
    ensures |g.flowr| == |y| && LimitsObserved(y, Omegas(y, ig), g.flowr, ig)
  {
    hide Exact, Exhausted, Vertex, Ready, LimitsObserved, StockAllows, SetPriceHolds, BitSetInMatrix, FloorsUpTo;
  }

  // ---------------------------------------------------------------------------
  // A cycle refused although its orders could trade

  /** All of one owner. Node b gives two for three, the others one for one; node b has
      one unit in stock, the others two. */
  function SpurnedNode(kind: nat, i: nat, b: nat): Tfl {
    if i == b then Tfl(kind, i, i, 0, 3, 2, 1, 1.0) else Tfl(kind, i, i, 0, 1, 1, 2, 1.0)
  }

  function Spurned(kinds: seq<nat>, b: nat): (x: seq<Tfl>)
    ensures |x| == |kinds| && forall i :: 0 <= i < |x| ==> x[i] == SpurnedNode(kinds[i], i, b)
  {
    seq(|kinds|, i requires 0 <= i < |kinds| => SpurnedNode(kinds[i], i, b))
  }

  /** Some order is LIMIT, and b is not. */
  predicate Mixed(kinds: seq<nat>, b: nat) {
    && 2 <= |kinds| <= FLOW_MAX_DIM && b < |kinds| && !PriceIgnored(kinds)
    && OrderType(kinds[b]) != ORDER_LIMIT
    && exists i :: 0 <= i < |kinds| && OrderType(kinds[i]) == ORDER_LIMIT
  }

  lemma SpurnedOpened(kinds: seq<nat>, b: nat, i: nat)
    requires Mixed(kinds, b) && i < |kinds|
    ensures var t := Opened(Spurned(kinds, b))[i];
            && t.kind == kinds[i] && t.own == 0 && Priced(t)
            && Omega(t) == (if i == b then 2.0 / 3.0 else 1.0)
            && t.qtt == if StockIgnored(kinds) && i == |kinds| - 1 then QTTFLOW_UNDEFINED else if i == b then 1 else 2
  {}

  lemma SpurnedChecked(kinds: seq<nat>, b: nat)
    ensures NonNegative(Spurned(kinds, b)) && DistinctOids(Spurned(kinds, b))
    ensures |kinds| >= 1 ==> !SomeStockEmpty(Spurned(kinds, b))
  {}

  lemma SpurnedIsRefused(kinds: seq<nat>, b: nat)
    requires Mixed(kinds, b)
    ensures OfKinds(Spurned(kinds, b), kinds) && RefusedEarly(Spurned(kinds, b))
    ensures !IgnoresOmega(Spurned(kinds, b))
    ensures ProdOmega(Opened(Spurned(kinds, b)), false) == 2.0 / 3.0
  {
    var x := Spurned(kinds, b);
    var y := Opened(x);
    assert OfKinds(x, kinds);
    KindsOfLimit(x, kinds);
    SpurnedChecked(kinds, b);
    OpenedStocked(x);
    hide Opened, Spurned, SomeStockEmpty, DistinctOids, NonNegative, Stocked;
    forall i | 0 <= i < |y|
      ensures Priced(y[i]) && y[i].kind == kinds[i]
    {
      SpurnedOpened(kinds, b, i);
    }
    assert PricedNodes(y, false) == y;
    var omega := OmegaPath(y);
    forall i | 0 <= i < |y|
      ensures omega[i] == if i == b then 2.0 / 3.0 else 1.0
    {
      SpurnedOpened(kinds, b, i);
    }
    OneFactor(omega, b);
  }

  lemma SpurnedOmega(kinds: seq<nat>, b: nat, i: nat)
    requires Mixed(kinds, b) && i < |kinds|
    ensures AllPriced(Opened(Spurned(kinds, b)), false)
    ensures Omegas(Opened(Spurned(kinds, b)), false)[i] == if i == b then 2.0 / 3.0 else 1.0
  {
    SpurnedIsRefused(kinds, b);
    SpurnedOpened(kinds, b, i);
    var y := Opened(Spurned(kinds, b));
    hide Opened, Spurned, Omegas;
    OmegaAt(y, false, i);
  }

  lemma OnesFeasible(kinds: seq<nat>, b: nat)
    requires Mixed(kinds, b)
    ensures AllPriced(Opened(Spurned(kinds, b)), false)
    ensures var ones := seq(|kinds|, i => 1); Feasible(Opened(Spurned(kinds, b)), false, ones)
  {
    var y, ones := Opened(Spurned(kinds, b)), seq(|kinds|, i => 1);
    SpurnedIsRefused(kinds, b);
    hide Opened, Spurned, Omegas, RefusedEarly;
    forall k | 0 <= k < |y|
      ensures NodeLimitObserved(y, Omegas(y, false), ones, false, k)
      ensures IsDefined(y[k]) ==> ones[k] <= y[k].qtt
    {
      SpurnedOpened(kinds, b, k);
      SpurnedOmega(kinds, b, k);
    }
  }

  lemma MixedIfWrong(kinds: seq<nat>) returns (b: nat)
    requires 2 <= |kinds| <= FLOW_MAX_DIM && !RefusalIsRight(kinds)
    ensures Mixed(kinds, b)
  {
    b :| 0 <= b < |kinds| && OrderType(kinds[b]) != ORDER_LIMIT;
  }

  lemma AlwaysRefused(root: RootFunction)
    requires IsRoot(root)
    ensures KernelRefuses(root)
  {
    hide RefusedEarly, FlowcMaximum, Opened, IsRoot;
    forall f: Tflow | RefusedEarly(f.x)
      ensures |f.x| >= 1 && FlowcMaximum(root, f) == Ok(Computed(Refused, Dropped(Opened(f.x))))
    {
      RefusedSize(f.x);
      RefusedIsRefused(root, f);
    }
  }

  /** For given types, quote flags included, the refusal loses no flow that would be
      within the stocks and the limits if and only if all orders are LIMIT, unless
      cycles of these types are never refused. */
  lemma RefusalIff(root: RootFunction, kinds: seq<nat>)
    requires IsRoot(root) && 2 <= |kinds| <= FLOW_MAX_DIM
    ensures KernelRefuses(root)
    ensures NothingFeasibleIsLost(kinds) <==> RefusalIsRight(kinds)
  {
    AlwaysRefused(root);
    hide KernelRefuses, IsRoot;
    hide OfKinds, RefusedEarly, Feasible, RefusalIsRight, Opened, IgnoresOmega, Mixed, Spurned;
    if RefusalIsRight(kinds) {
      forall x: seq<Tfl>, v: seq<int> | OfKinds(x, kinds) && RefusedEarly(x)
        ensures |x| >= 2 && Ready(Opened(x), IgnoresOmega(x)) && !Feasible(Opened(x), IgnoresOmega(x), v)
      {
        RefusedSize(x);
        RightLosesNothing(kinds, x, v);
      }
    } else {
      var b := MixedIfWrong(kinds);
      SpurnedIsRefused(kinds, b);
      OnesFeasible(kinds, b);
      var x, ones := Spurned(kinds, b), seq(|kinds|, i => 1);
      assert OfKinds(x, kinds) && RefusedEarly(x) && Feasible(Opened(x), IgnoresOmega(x), ones);
    }
  }

  // ---------------------------------------------------------------------------
  // Its rounding

  lemma {:induction false} OneOwner(own: seq<int>, n: nat)
    requires n <= |own| && forall i :: 0 <= i < |own| ==> own[i] == 0
    ensures Group(own, n).nbOwn == (if n == 0 then 0 else 1)
    ensures forall i :: 0 <= i < n ==> Group(own, n).index[i] == 0
  {
    if n > 0 { OneOwner(own, n - 1); }
  }

  lemma {:induction false} CountAll(index: seq<nat>, c: nat)
    requires forall i :: 0 <= i < |index| ==> index[i] == c
    ensures Count(index, c) == |index|
  {
    if |index| > 0 { CountAll(index[..|index| - 1], c); }
  }

  /** The gain of a node when all are of one owner. */
  lemma SharedGain(root: RootFunction, y: seq<Tfl>, i: nat) returns (k: real)
    requires IsRoot(root) && Ready(y, false) && i < |y| && forall j :: 0 <= j < |y| ==> y[j].own == 0
    ensures k > 0.0 && Pow(k, |y|) == ProdOmega(y, false) && k == root(ProdOmega(y, false), |y|)
    ensures Corrected(root, y, false)[i] * k == Omegas(y, false)[i]
  {
    hide *;
    ReadyIs(y);
    var p := ProdOmega(y, false);
    ProdOfOmegas(y, false);
    GainIs(root, y, p, i);
    k := root(p, |y|);
    CorrectedTimesGain(root, y, i);
    RootPower(root, p, |y|);
  }

  lemma ReadyIs(y: seq<Tfl>)
    requires Ready(y, false)
    ensures |y| >= 2 && AllPriced(y, false)
  {}

  lemma RootPower(root: RootFunction, p: real, n: nat)
    requires IsRoot(root) && p > 0.0 && n >= 1
    ensures root(p, n) > 0.0 && Pow(root(p, n), n) == p
  {}

  lemma CorrectedTimesGain(root: RootFunction, y: seq<Tfl>, i: nat)
    requires IsRoot(root) && Ready(y, false) && i < |y| && ProdOmega(y, false) > 0.0
    ensures Corrected(root, y, false)[i] * NodeGains(root, ProdOmega(y, false), Grouped(y))[i] == Omegas(y, false)[i]
  {
    hide Omegas, ProdOmega, NodeGains, Grouped, IsRoot;
  }

  lemma GainIs(root: RootFunction, y: seq<Tfl>, p: real, i: nat)
    requires IsRoot(root) && |y| >= 2 && p > 0.0 && i < |y| && forall j :: 0 <= j < |y| ==> y[j].own == 0
    ensures NodeGains(root, p, Grouped(y))[i] == root(p, |y|)
  {
    var g := Grouped(y);
    OneOwner(OwnersOf(y), |y|);
    CountAll(g.index, 0);
    FirstRoot(root, p);
    hide Count, Group;
  }

  lemma FirstRoot(root: RootFunction, p: real)
    requires IsRoot(root) && p > 0.0
    ensures root(p, 1) == p
  {
    var r := root(p, 1);
    assert Pow(r, 1) == r * Pow(r, 0);
  }

  /** A root of a number below one is below one. */
  lemma RootBelowOne(k: real, n: nat)
    requires k > 0.0 && Pow(k, n) < 1.0
    ensures k < 1.0
  {
    if k >= 1.0 {
      PowMono(1.0, k, n);
      PowOfOne(n);
    }
  }

  /** Flows that grow from b on, round the cycle. */
  ghost predicate Rising(f: seq<real>, b: nat) {
    b < |f| && forall i :: 0 <= i < |f| && i != b ==> f[Before(i, |f|)] < f[i]
  }

  lemma {:induction false} LeastAtB(f: seq<real>, b: nat, i: nat)
    requires Rising(f, b) && i < |f|
    ensures f[b] <= f[i] && (i != b ==> f[b] < f[i])
    decreases if i >= b then i - b else i + |f| - b
  {
    if i != b { LeastAtB(f, b, Before(i, |f|)); }
  }

  lemma {:induction false} GreatestBeforeB(f: seq<real>, b: nat, i: nat)
    requires Rising(f, b) && i < |f|
    ensures f[i] <= f[Before(b, |f|)] && (i != Before(b, |f|) ==> f[i] < f[Before(b, |f|)])
    decreases if i < b then b - i else b + |f| - i
  {
    var next := if i == |f| - 1 then 0 else i + 1;
    assert Before(next, |f|) == i;
    if next != b { GreatestBeforeB(f, b, next); }
  }

  /** Node b gets the least flow, and the node before it less than half more. */
  lemma GrowthStep(om: real, k: real, w: real, f: real, before: real)
    requires 0.0 < k < 1.0 && om * k == w && f == om * before && before > 0.0 && w > 0.0
    ensures w == 1.0 ==> before < f
    ensures w == 2.0 / 3.0 ==> 2.0 * before < 3.0 * f
  {
    PositiveFactor(om, k);
    MulPos(om, before);
    LessThanWhole(f, k);
    SameProduct(om, k, w, f, before);
    GrowthCases(f * k, w, before, f);
  }

  lemma LessThanWhole(f: real, k: real)
    requires f > 0.0 && k < 1.0
    ensures f * k < f
  {
    ScaleStrict(k, 1.0, f);
  }

  lemma SameProduct(om: real, k: real, w: real, f: real, before: real)
    requires om * k == w && f == om * before
    ensures f * k == w * before
  {
    assert f * k == om * k * before;
  }

  lemma GrowthCases(a: real, w: real, before: real, f: real)
    requires a == w * before && a < f
    ensures w == 1.0 ==> before < f
    ensures w == 2.0 / 3.0 ==> 2.0 * before < 3.0 * f
  {
    if w == 2.0 / 3.0 { TwoThirds(a, w, before, f); }
    if w == 1.0 { Whole(a, w, before, f); }
  }

  lemma Whole(a: real, w: real, before: real, f: real)
    requires a == w * before && w == 1.0 && a < f
    ensures before < f
  {}

  lemma TwoThirds(a: real, w: real, before: real, f: real)
    requires a == w * before && w == 2.0 / 3.0 && a < f
    ensures 2.0 * before < 3.0 * f
  {
    var t := 2.0 / 3.0;
    assert a == t * before;
    assert 3.0 * a == 2.0 * before;
  }

  lemma PositiveFactor(a: real, k: real)
    requires k > 0.0 && a * k > 0.0
    ensures a > 0.0
  {
    if a <= 0.0 { MulMono(0.0, -a, k, k); }
  }

  /** Some order is LIMIT, b is not, and the rounding would keep a vertex: b has a stock,
      or the cycle is short. */
  predicate Losable(kinds: seq<nat>, b: nat) {
    Mixed(kinds, b) && (FreeLast(kinds, b) ==> |kinds| <= NMATBITS + 1)
  }

  /** Node b is the last one, without a stock. */
  predicate FreeLast(kinds: seq<nat>, b: nat)
    requires |kinds| >= 1
  {
    b == |kinds| - 1 && StockIgnored(kinds)
  }

  /** The nodes of the refused cycle as the rounding would take them. */
  function Turned(kinds: seq<nat>, b: nat): (y: seq<Tfl>)
    requires |kinds| >= 2
    ensures |y| == |kinds|
  {
    Opened(Spurned(kinds, b))
  }

  lemma SpurnedReady(kinds: seq<nat>, b: nat)
    requires Mixed(kinds, b)
    ensures 2 <= |kinds| <= FLOW_MAX_DIM && b < |kinds|
    ensures Ready(Turned(kinds, b), false) && ProdOmega(Turned(kinds, b), false) == 2.0 / 3.0
    ensures !IgnoresOmega(Spurned(kinds, b))
  {
    SpurnedIsRefused(kinds, b);
    hide Mixed, Opened, Spurned, ProdOmega, AllPriced, Stocked, CalType;
  }

  function SpurnedFlow(root: RootFunction, kinds: seq<nat>, b: nat): (f: seq<real>)
    requires IsRoot(root) && Mixed(kinds, b)
    ensures |f| == |kinds|
  {
    SpurnedReady(kinds, b);
    Exact(root, Turned(kinds, b), false)
  }

  lemma SpurnedIs(root: RootFunction, kinds: seq<nat>, b: nat)
    requires IsRoot(root) && Mixed(kinds, b)
    ensures 2 <= |kinds| <= FLOW_MAX_DIM && b < |kinds| && |Turned(kinds, b)| == |kinds|
    ensures Ready(Turned(kinds, b), false) && SpurnedFlow(root, kinds, b) == Exact(root, Turned(kinds, b), false)
  {
    SpurnedReady(kinds, b);
    hide Exact, Ready;
  }

  /** A node of the cycle: its stock, and what it reads of its order. */
  lemma TurnedNode(kinds: seq<nat>, b: nat, i: nat)
    requires Mixed(kinds, b) && i < |kinds|
    ensures |kinds| >= 2
    ensures var t := Turned(kinds, b)[i];
            && t.kind == kinds[i] && t.own == 0
            && (IsDefined(t) <==> !FreeLast(kinds, i))
            && (IsDefined(t) ==> t.qtt == if i == b then 1 else 2)
  {
    SpurnedOpened(kinds, b, i);
  }

  lemma SpurnedGrows(root: RootFunction, kinds: seq<nat>, b: nat, i: nat)
    requires IsRoot(root) && Mixed(kinds, b) && i < |kinds|
    ensures var f := SpurnedFlow(root, kinds, b);
            && f[Before(i, |f|)] > 0.0
            && (i != b ==> f[Before(i, |f|)] < f[i])
            && (i == b ==> 2.0 * f[Before(b, |f|)] < 3.0 * f[b])
  {
    hide *;
    SpurnedIs(root, kinds, b);
    SpurnedReady(kinds, b);
    SpurnedOmega(kinds, b, i);
    var y := Turned(kinds, b);
    TurnedIs(kinds, b);
    OwnedByOne(kinds, b);
    var k := SharedGain(root, y, i);
    RootBelowOne(k, |y|);
    ExactCloses(root, y, false, i);
    ExactFits(root, y, false);
    var f := SpurnedFlow(root, kinds, b);
    ClosesIs(f, Corrected(root, y, false), i);
    GrowthStep(Corrected(root, y, false)[i], k, Omegas(y, false)[i], f[i], f[Before(i, |f|)]);
  }

  lemma TurnedIs(kinds: seq<nat>, b: nat)
    requires |kinds| >= 2
    ensures Turned(kinds, b) == Opened(Spurned(kinds, b))
  {}

  lemma OwnedByOne(kinds: seq<nat>, b: nat)
    requires Mixed(kinds, b)
    ensures |kinds| >= 2 && forall i :: 0 <= i < |kinds| ==> Turned(kinds, b)[i].own == 0
  {
    hide Turned, FreeLast;
    forall i | 0 <= i < |kinds|
      ensures Turned(kinds, b)[i].own == 0
    {
      TurnedNode(kinds, b, i);
    }
  }

  lemma ClosesIs(f: seq<real>, om: seq<real>, i: nat)
    requires |f| == |om| && i < |f| && ClosesAt(f, om, i) && Positive(f)
    ensures f[i] == om[i] * f[Before(i, |f|)] && f[Before(i, |f|)] > 0.0
  {}

  lemma SpurnedRises(root: RootFunction, kinds: seq<nat>, b: nat)
    requires IsRoot(root) && Mixed(kinds, b)
    ensures Rising(SpurnedFlow(root, kinds, b), b)
    ensures var f := SpurnedFlow(root, kinds, b);
            2.0 * f[Before(b, |f|)] < 3.0 * f[b] && f[Before(b, |f|)] > 0.0
  {
    hide *;
    SpurnedIs(root, kinds, b);
    var f, n := SpurnedFlow(root, kinds, b), |kinds|;
    forall i | 0 <= i < n && i != b
      ensures f[Before(i, n)] < f[i]
    {
      SpurnedGrows(root, kinds, b, i);
    }
    RisingIs(f, b);
    SpurnedGrows(root, kinds, b, b);
  }

  lemma RisingIs(f: seq<real>, b: nat)
    requires b < |f| && forall i :: 0 <= i < |f| && i != b ==> f[Before(i, |f|)] < f[i]
    ensures Rising(f, b)
  {}

  /** The exact flow, and the node that it exhausts: b when it has a stock, with one
      unit, and otherwise the node before it, with two. */
  lemma SpurnedExact(root: RootFunction, kinds: seq<nat>, b: nat)
    requires IsRoot(root) && Mixed(kinds, b)
    ensures |kinds| >= 2 && b < |kinds| && Ready(Turned(kinds, b), false)
    ensures Exhausted(root, Turned(kinds, b), false) == if FreeLast(kinds, b) then |kinds| - 2 else b
    ensures forall i :: 0 <= i < |kinds| && !(FreeLast(kinds, b) && i == |kinds| - 2) ==>
              1.0 <= SpurnedFlow(root, kinds, b)[i] < 2.0
    ensures FreeLast(kinds, b) ==> SpurnedFlow(root, kinds, b)[|kinds| - 2] == 2.0
  {
    hide *;
    SpurnedIs(root, kinds, b);
    SpurnedRises(root, kinds, b);
    var y, f := Turned(kinds, b), SpurnedFlow(root, kinds, b);
    var ex, n := Exhausted(root, y, false), |kinds|;
    var top := Before(b, n);
    ExactFits(root, y, false);
    TurnedNode(kinds, b, ex);
    TurnedNode(kinds, b, b);
    TurnedNode(kinds, b, top);
    LastIsFree(kinds, b);
    LeastAtB(f, b, ex);
    GreatestBeforeB(f, b, ex);
    if FreeLast(kinds, b) { FitsAt(y, f, top); } else { FitsAt(y, f, b); }
    forall i | 0 <= i < n
      ensures f[b] <= f[i] <= f[top] && (i != top ==> f[i] < f[top])
    {
      LeastAtB(f, b, i);
      GreatestBeforeB(f, b, i);
    }
  }

  lemma LastIsFree(kinds: seq<nat>, b: nat)
    requires |kinds| >= 2 && b < |kinds|
    ensures FreeLast(kinds, b) ==> b == |kinds| - 1 && Before(b, |kinds|) == |kinds| - 2
    ensures FreeLast(kinds, b) ==> !FreeLast(kinds, |kinds| - 2)
  {}

  /** Small flows are rounded. */
  lemma SmallFloors(x: seq<Tfl>, exact: seq<real>, ex: nat)
    requires |exact| == |x| && ex < |x| && IsDefined(x[ex]) && exact[ex] == x[ex].qtt as real
    requires forall i :: 0 <= i < |x| ==> 0.0 < exact[i] <= 2.0
    ensures FloorsUpTo(x, exact, ex, |x|).Ok?
  {
    hide FloorsUpTo;
    forall i | 0 <= i < |x|
      ensures FloorOf(x[i], exact[i], i == ex).Ok?
    {
      assert 0.0 <= exact[i] < (INT64_MAX_DOUBLE + 1) as real;
    }
  }

  /** The cube of the refused cycle: what it is searched from, and the vector kept. */
  lemma SpurnedCube(root: RootFunction, kinds: seq<nat>, b: nat) returns (c: Cube)
    requires IsRoot(root) && Mixed(kinds, b)
    ensures |kinds| >= 2 && b < |kinds| && Ready(Turned(kinds, b), false)
    ensures CubeOf(root, Turned(kinds, b), false) == Ok(c) && c.x == Turned(kinds, b) && !c.ignoreLast
    ensures c.ex == if FreeLast(kinds, b) then |kinds| - 2 else b
    ensures c.floor == seq(|kinds|, i => if FreeLast(kinds, b) && i == |kinds| - 2 then 2 else 1)
    ensures c.omega == Omegas(c.x, false)
  {
    hide *;
    SpurnedIs(root, kinds, b);
    SpurnedExact(root, kinds, b);
    var y, f := Turned(kinds, b), SpurnedFlow(root, kinds, b);
    ExactFits(root, y, false);
    SmallFloors(y, f, Exhausted(root, y, false));
    CubeExists(root, y);
    c := CubeOf(root, y, false).value;
    CubeSizes(c);
    FloorsFound(root, y, false, c);
    TurnedNode(kinds, b, c.ex);
    LastIsFree(kinds, b);
    SmallFloorIs(c, FreeLast(kinds, b));
  }

  lemma CubeExists(root: RootFunction, y: seq<Tfl>)
    requires IsRoot(root) && Ready(y, false)
    requires FloorsUpTo(y, Exact(root, y, false), Exhausted(root, y, false), |y|).Ok?
    ensures CubeOf(root, y, false).Ok?
  {
    hide Exact, Exhausted, FloorsUpTo, Omegas, PathPrice, Ready;
  }

  lemma SmallFloorIs(c: Cube, free: bool)
    requires c.Valid() && |c.x| >= 2 && c.floor[c.ex] == (if free then 2 else 1) && (free ==> c.ex == |c.x| - 2)
    requires forall i :: 0 <= i < |c.x| && i != c.ex ==>
               c.floor[i] as real <= c.exact[i] < (c.floor[i] + 1) as real && 1.0 <= c.exact[i] < 2.0
    ensures c.floor == seq(|c.x|, i => if free && i == |c.x| - 2 then 2 else 1)
  {
    forall i | 0 <= i < |c.x| && i != c.ex
      ensures c.floor[i] == 1
    {
      assert c.floor[i] < 2 && c.floor[i] + 1 > 1;
    }
  }

  /** What the rounding can keep: one unit each, or two when b has no stock. */
  function Levels(kinds: seq<nat>, b: nat): (v: seq<int>)
    requires |kinds| >= 1
    ensures |v| == |kinds| && forall i :: 0 <= i < |v| ==> v[i] == if FreeLast(kinds, b) then 2 else 1
  {
    seq(|kinds|, i => if FreeLast(kinds, b) then 2 else 1)
  }

  lemma LevelsFeasible(kinds: seq<nat>, b: nat)
    requires Mixed(kinds, b)
    ensures |kinds| >= 2 && AllPriced(Turned(kinds, b), false)
    ensures Feasible(Turned(kinds, b), false, Levels(kinds, b))
  {
    var y, v := Turned(kinds, b), Levels(kinds, b);
    SpurnedReady(kinds, b);
    ReadyIs(y);
    hide *;
    forall k | 0 <= k < |y|
      ensures NodeLimitObserved(y, Omegas(y, false), v, false, k)
      ensures IsDefined(y[k]) ==> v[k] <= y[k].qtt
    {
      LevelAt(kinds, b, k);
    }
    FeasibleIf(y, v);
  }

  lemma LevelAt(kinds: seq<nat>, b: nat, k: nat)
    requires Mixed(kinds, b) && k < |kinds|
    ensures |kinds| >= 2 && AllPriced(Turned(kinds, b), false)
    ensures var y, v := Turned(kinds, b), Levels(kinds, b);
            && NodeLimitObserved(y, Omegas(y, false), v, false, k)
            && (IsDefined(y[k]) ==> v[k] <= y[k].qtt)
  {
    TurnedNode(kinds, b, k);
    SpurnedOmega(kinds, b, k);
    hide Opened, Spurned, Turned, Omegas;
    EqualRatio(Levels(kinds, b)[k]);
    hide RatioWithin;
  }

  lemma EqualRatio(a: int)
    requires a > 0
    ensures RatioWithin(a, a, 1.0)
  {}

  lemma FeasibleIf(y: seq<Tfl>, v: seq<int>)
    requires |y| >= 1 && AllPriced(y, false) && |v| == |y| && forall i :: 0 <= i < |v| ==> v[i] > 0
    requires forall k :: 0 <= k < |y| ==>
               NodeLimitObserved(y, Omegas(y, false), v, false, k) && (IsDefined(y[k]) ==> v[k] <= y[k].qtt)
    ensures Feasible(y, false, v)
  {
    hide Omegas, NodeLimitObserved, AllPriced;
  }

  lemma LevelsInCube(c: Cube, kinds: seq<nat>, b: nat)
    requires c.Valid() && Losable(kinds, b) && |c.x| == |kinds|
    requires c.ex == if FreeLast(kinds, b) then |kinds| - 2 else b
    requires c.floor == seq(|kinds|, i => if FreeLast(kinds, b) && i == |kinds| - 2 then 2 else 1)
    ensures CubeVertex(c, Levels(kinds, b))
  {
    var v := Levels(kinds, b);
    forall i, j | 0 <= i < j < |v| && i % NMATBITS == j % NMATBITS
      ensures v[i] - c.floor[i] == v[j] - c.floor[j]
    {
      EightApart(i, j);
    }
  }

  lemma EightApart(i: nat, j: nat)
    requires i < j && i % NMATBITS == j % NMATBITS
    ensures j >= i + NMATBITS
  {}

  /** The rounding would keep a vertex. */
  lemma SpurnedDraft(root: RootFunction, kinds: seq<nat>, b: nat) returns (g: Tflow)
    requires IsRoot(root) && Losable(kinds, b)
    ensures |kinds| >= 2 && Ready(Turned(kinds, b), false)
    ensures Rounded(root, Turned(kinds, b), false) == Ok(Computed(Draft, g))
  {
    hide *;
    LosableIsMixed(kinds, b);
    SpurnedIs(root, kinds, b);
    var c := SpurnedCube(root, kinds, b);
    var v := Levels(kinds, b);
    LevelsFeasible(kinds, b);
    LevelsInCube(c, kinds, b);
    FeasibleIsAdmissible(c.x, c, v);
    DraftIffAdmissible(root, c);
    g := Kept(root, c).flow;
    RoundedIs(root, c.x, c);
  }

  lemma LosableIsMixed(kinds: seq<nat>, b: nat)
    requires Losable(kinds, b)
    ensures Mixed(kinds, b)
  {}

  lemma FeasibleIsAdmissible(x: seq<Tfl>, c: Cube, v: seq<int>)
    requires c.Valid() && c.x == x && !c.ignoreLast && AllPriced(x, false) && c.omega == Omegas(x, false)
    requires Feasible(x, false, v)
    ensures |v| == |c.x| && c.Admissible(v)
  {
    hide Omegas, LimitsObserved, StockAllows, Cube.Valid;
  }

  lemma RoundedIs(root: RootFunction, x: seq<Tfl>, c: Cube)
    requires IsRoot(root) && Ready(x, false) && CubeOf(root, x, false) == Ok(c) && c.Valid() && Choose(root, c).Chosen?
    ensures Rounded(root, x, false) == Ok(Computed(Draft, Kept(root, c).flow))
  {
    hide CubeOf, Choose, Ready, Vertex, Settled;
  }

  // ---------------------------------------------------------------------------
  // Long cycles whose last order alone is not LIMIT, and has no stock

  /** The masks move nodes eight apart together: in these cycles no vertex observes the
      limits. */
  predicate LongFree(kinds: seq<nat>)
    requires |kinds| >= 1
  {
    && StockIgnored(kinds) && !PriceIgnored(kinds) && |kinds| > NMATBITS + 1
    && forall i :: 0 <= i < |kinds| - 1 ==> OrderType(kinds[i]) == ORDER_LIMIT
  }

  lemma RootBelow(root: RootFunction, p: real, n: nat)
    requires IsRoot(root) && 0.0 < p < 1.0 && n >= 1
    ensures 0.0 < root(p, n) < 1.0
  {
    RootPower(root, p, n);
    RootBelowOne(root(p, n), n);
  }

  /** When the prices multiply to less than one, every price is raised. */
  lemma CorrectedAbove(root: RootFunction, y: seq<Tfl>, i: nat)
    requires IsRoot(root) && Ready(y, false) && i < |y| && ProdOmega(y, false) < 1.0
    ensures Corrected(root, y, false)[i] > Omegas(y, false)[i] > 0.0
  {
    hide *;
    ReadyIs(y);
    var p := ProdOmega(y, false);
    ProdOfOmegas(y, false);
    CorrectedTimesGain(root, y, i);
    GainBelow(root, p, Grouped(y), i);
    OmegaPositive(y, i);
    Raised(Corrected(root, y, false)[i], NodeGains(root, p, Grouped(y))[i], Omegas(y, false)[i]);
  }

  lemma OmegaPositive(y: seq<Tfl>, i: nat)
    requires |y| >= 1 && AllPriced(y, false) && i < |y|
    ensures Omegas(y, false)[i] > 0.0
  {}

  lemma GainBelow(root: RootFunction, p: real, g: Grouping, i: nat)
    requires IsRoot(root) && 0.0 < p < 1.0 && ValidGrouping(g) && i < |g.index|
    ensures 0.0 < NodeGains(root, p, g)[i] < 1.0
  {
    hide IsRoot, Count;
    RootBelow(root, p, g.nbOwn);
    var gain, occ := OwnerGain(root, p, g.nbOwn), Count(g.index, g.index[i]);
    if occ != 1 { RootBelow(root, gain, occ); }
  }

  lemma Raised(om: real, k: real, w: real)
    requires om * k == w && w > 0.0 && 0.0 < k < 1.0
    ensures om > w
  {
    PositiveFactor(om, k);
    var x := 1.0 - k;
    MulPos(x, om);
    assert om - w == x * om;
  }

  /** What is known of a draft of the rounding of a refused cycle. */
  ghost predicate DraftOf(y: seq<Tfl>, c: Cube, om: seq<real>, v: seq<int>) {
    && c.Valid() && c.x == y && |om| == |v| == |y| && Positive(c.exact) && Positive(om)
    && v[c.ex] as real == c.exact[c.ex]
    && (forall i :: 0 <= i < |y| ==> v[i] >= 0 && ClosesAt(c.exact, om, i) && 0.0 < c.omega[i] < om[i])
    && LimitsObserved(y, c.omega, v, false)
  }

  /** A LIMIT order that gives its part of the exact flow or more receives more than
      the exact flow. */
  lemma MoreBefore(y: seq<Tfl>, c: Cube, om: seq<real>, v: seq<int>, i: nat)
    requires DraftOf(y, c, om, v) && i < |y| && y[i].IsLimit() && v[i] as real >= c.exact[i]
    ensures v[Before(i, |y|)] as real > c.exact[Before(i, |y|)]
  {
    var j := Before(i, |y|);
    assert NodeLimitObserved(y, c.omega, v, false, i);
    assert ClosesAt(c.exact, om, i);
    hide *;
    ExactAt(c.exact, om, i);
    Overtakes(v[i], v[j], c.exact[i], c.exact[j], om[i], c.omega[i]);
  }

  lemma ExactAt(f: seq<real>, om: seq<real>, i: nat)
    requires |f| == |om| && i < |f| && Positive(f) && ClosesAt(f, om, i)
    ensures f[i] == om[i] * f[Before(i, |f|)] && f[Before(i, |f|)] > 0.0 && f[i] > 0.0
  {}

  lemma Overtakes(a: int, b: int, f: real, before: real, om: real, w: real)
    requires RatioWithin(a, b, w) && b >= 0 && a as real >= f && f == om * before && before > 0.0 && 0.0 < w < om
    ensures b as real > before
  {
    var q := a as real / b as real;
    assert a as real == q * b as real;
    if b as real <= before {
      MulMono(q, w, b as real, b as real);
      MulMono(w, w, b as real, before);
      ScaleStrict(w, om, before);
    }
  }

  lemma RoundsUp(c: Cube, v: seq<int>, mat: nat, i: nat)
    requires c.Valid() && v == Vertex(c.floor, mat) && i < |c.x| && i != c.ex
    requires c.floor[i] as real <= c.exact[i] < (c.floor[i] + 1) as real
    ensures v[i] as real > c.exact[i] <==> BitSetInMatrix(mat, i)
  {
    hide BitSetInMatrix;
  }

  /** The vertex is one of the cube: what is rounded up has its bit set. */
  ghost predicate VertexOf(c: Cube, v: seq<int>, mat: nat) {
    && c.Valid() && v == Vertex(c.floor, mat) && !BitSetInMatrix(mat, c.ex)
    && forall i :: 0 <= i < |c.x| && i != c.ex ==>
         c.floor[i] as real <= c.exact[i] < (c.floor[i] + 1) as real
  }

  /** No LIMIT order after the exhausted one is rounded up. */
  lemma {:induction false} NotUpAfter(y: seq<Tfl>, c: Cube, om: seq<real>, v: seq<int>, mat: nat, i: nat)
    requires DraftOf(y, c, om, v) && VertexOf(c, v, mat) && c.ex < i < |y|
    requires forall j :: c.ex < j <= i ==> y[j].IsLimit()
    ensures !BitSetInMatrix(mat, i)
    decreases i
  {
    hide Cube.Valid, ClosesAt, LimitsObserved, BitSetInMatrix, Vertex;
    RoundsUp(c, v, mat, i);
    if BitSetInMatrix(mat, i) {
      MoreBefore(y, c, om, v, i);
      if i - 1 > c.ex {
        RoundsUp(c, v, mat, i - 1);
        NotUpAfter(y, c, om, v, mat, i - 1);
      }
    }
  }

  /** The orders before the exhausted one give more than the exact flow, back to the
      last node. */
  lemma {:induction false} UpBefore(y: seq<Tfl>, c: Cube, om: seq<real>, v: seq<int>, i: nat)
    requires DraftOf(y, c, om, v) && i <= c.ex
    requires forall j :: i <= j <= c.ex ==> y[j].IsLimit()
    ensures |y| >= 1 && i < |y|
    ensures v[Before(i, |y|)] as real > c.exact[Before(i, |y|)]
    decreases c.ex - i
  {
    hide Cube.Accepts, ClosesAt, LimitsObserved;
    if i < c.ex {
      UpBefore(y, c, om, v, i + 1);
      assert Before(i + 1, |y|) == i;
    }
    MoreBefore(y, c, om, v, i);
  }

  lemma SameBit(mat: nat, i: nat)
    ensures BitSetInMatrix(mat, i) <==> BitSetInMatrix(mat, i + NMATBITS)
  {
    assert i % NMATBITS == (i + NMATBITS) % NMATBITS;
  }

  lemma EightBits()
    ensures NMATBITS == 8
  {}

  /** All orders but the last one are LIMIT. */
  predicate LimitsButLast(y: seq<Tfl>) {
    forall i :: 0 <= i < |y| - 1 ==> y[i].IsLimit()
  }

  lemma BitBefore(y: seq<Tfl>, c: Cube, om: seq<real>, v: seq<int>, mat: nat, i: nat)
    requires DraftOf(y, c, om, v) && VertexOf(c, v, mat) && LimitsButLast(y) && c.ex < |y| - 1
    requires i < c.ex || i == |y| - 1
    ensures BitSetInMatrix(mat, i)
  {
    hide ClosesAt, LimitsObserved, BitSetInMatrix, Vertex;
    UpBefore(y, c, om, v, if i == |y| - 1 then 0 else i + 1);
    RoundsUp(c, v, mat, i);
  }

  lemma NoBitAfter(y: seq<Tfl>, c: Cube, om: seq<real>, v: seq<int>, mat: nat, i: nat)
    requires DraftOf(y, c, om, v) && VertexOf(c, v, mat) && LimitsButLast(y) && c.ex <= i < |y| - 1
    ensures !BitSetInMatrix(mat, i)
  {
    hide DraftOf, BitSetInMatrix, Vertex, Cube.Valid;
    if c.ex < i {
      NodesAre(y, c, om, v);
      NotUpAfter(y, c, om, v, mat, i);
    }
  }

  lemma NodesAre(y: seq<Tfl>, c: Cube, om: seq<real>, v: seq<int>)
    requires DraftOf(y, c, om, v)
    ensures c.x == y && c.ex < |y|
  {}

  /** In a long cycle two nodes eight apart would have to be moved apart. */
  lemma LongHasNone(y: seq<Tfl>, c: Cube, om: seq<real>, v: seq<int>, mat: nat)
    requires DraftOf(y, c, om, v) && VertexOf(c, v, mat) && |y| > NMATBITS + 1 && c.ex < |y| - 1
    ensures !LimitsButLast(y)
  {
    hide *;
    EightBits();
    if LimitsButLast(y) {
      var m := |y| - 1 - NMATBITS;
      if c.ex <= m {
        BitBefore(y, c, om, v, mat, |y| - 1);
        SameBit(mat, m);
        NoBitAfter(y, c, om, v, mat, m);
      } else if c.ex <= NMATBITS {
        BitBefore(y, c, om, v, mat, 0);
        SameBit(mat, 0);
        NoBitAfter(y, c, om, v, mat, NMATBITS);
      } else {
        BitBefore(y, c, om, v, mat, c.ex - NMATBITS);
        SameBit(mat, c.ex - NMATBITS);
        NoBitAfter(y, c, om, v, mat, c.ex);
      }
    }
  }

  /** A draft of the rounding of a refused cycle, as a vertex. */
  lemma RefusedDraft(root: RootFunction, y: seq<Tfl>, g: Tflow) returns (c: Cube, mat: nat)
    requires IsRoot(root) && Ready(y, false) && ProdOmega(y, false) < 1.0
    requires Rounded(root, y, false) == Ok(Computed(Draft, g))
    ensures c.x == y && c.ex == Exhausted(root, y, false)
    ensures DraftOf(y, c, Corrected(root, y, false), g.flowr) && VertexOf(c, g.flowr, mat)
  {
    hide *;
    c, mat := RoundedFound(root, y, false, g);
    CubeSizes(c);
    CubeIsOf(root, y, c);
    FloorsFound(root, y, false, c);
    DraftObserves(root, y, false, c, mat, g);
    ExactFits(root, y, false);
    var om := Corrected(root, y, false);
    forall i | 0 <= i < |y|
      ensures ClosesAt(c.exact, om, i) && 0.0 < c.omega[i] < om[i]
    {
      ExactCloses(root, y, false, i);
      CorrectedAbove(root, y, i);
    }
    AcceptsFixes(c, mat);
    VertexIs(c, g.flowr, mat);
    DraftIs(y, c, om, g.flowr);
  }

  lemma CubeIsOf(root: RootFunction, y: seq<Tfl>, c: Cube)
    requires IsRoot(root) && Ready(y, false) && CubeOf(root, y, false) == Ok(c)
    ensures c.Valid() && c.x == y && c.exact == Exact(root, y, false) && c.ex == Exhausted(root, y, false)
    ensures |y| >= 1 && AllPriced(y, false) && c.omega == Omegas(y, false)
  {
    hide CubeOf, Exact, Exhausted, Omegas;
  }

  lemma AcceptsFixes(c: Cube, mat: nat)
    requires c.Valid() && c.Accepts(mat)
    ensures !BitSetInMatrix(mat, c.ex)
  {
    hide BitSetInMatrix, Cube.Valid, Vertex;
  }

  lemma VertexIs(c: Cube, v: seq<int>, mat: nat)
    requires c.Valid() && v == Vertex(c.floor, mat) && !BitSetInMatrix(mat, c.ex)
    requires forall i :: 0 <= i < |c.x| && i != c.ex ==>
               c.floor[i] as real <= c.exact[i] < (c.floor[i] + 1) as real
    ensures VertexOf(c, v, mat) && |v| == |c.x| && v[c.ex] == c.floor[c.ex]
  {
    hide BitSetInMatrix;
  }

  lemma DraftIs(y: seq<Tfl>, c: Cube, om: seq<real>, v: seq<int>)
    requires c.Valid() && c.x == y && |om| == |v| == |y| && Positive(c.exact) && Positive(om)
    requires v[c.ex] == c.floor[c.ex] == y[c.ex].qtt && c.exact[c.ex] == y[c.ex].qtt as real
    requires forall i :: 0 <= i < |y| ==> v[i] >= 0 && ClosesAt(c.exact, om, i) && 0.0 < c.omega[i] < om[i]
    requires LimitsObserved(y, c.omega, v, false)
    ensures DraftOf(y, c, om, v)
  {
    hide ClosesAt, LimitsObserved;
  }

  lemma LongLosesNoDraft(root: RootFunction, kinds: seq<nat>, x: seq<Tfl>, g: Tflow)
    requires IsRoot(root) && |kinds| >= 2 && LongFree(kinds) && OfKinds(x, kinds) && RefusedEarly(x)
    ensures Ready(Opened(x), IgnoresOmega(x))
    ensures Rounded(root, Opened(x), IgnoresOmega(x)) != Ok(Computed(Draft, g))
  {
    hide *;
    RefusedSize(x);
    LongParts(kinds, x);
    var y := Opened(x);
    if Rounded(root, y, IgnoresOmega(x)) == Ok(Computed(Draft, g)) {
      var c, mat := RefusedDraft(root, y, g);
      LongHasNone(y, c, Corrected(root, y, false), g.flowr, mat);
    }
  }

  lemma LongParts(kinds: seq<nat>, x: seq<Tfl>)
    requires |kinds| >= 2 && LongFree(kinds) && OfKinds(x, kinds) && RefusedEarly(x)
    ensures |x| == |kinds| > NMATBITS + 1 && !IgnoresOmega(x) && LimitsButLast(Opened(x))
    ensures |Opened(x)| == |x| && !IsDefined(Opened(x)[|x| - 1])
    ensures ProdOmega(Opened(x), false) < 1.0
  {
    KindsOfLimit(x, kinds);
    hide NonNegative, DistinctOids, SomeStockEmpty, Stocked, AllPriced, ProdOmega, CalType;
  }

  // ---------------------------------------------------------------------------
  // Which drafts are lost

  /** Where a draft is lost, when one is. */
  lemma LosableIfWrong(kinds: seq<nat>) returns (b: nat)
    requires 2 <= |kinds| <= FLOW_MAX_DIM && !RefusalIsRight(kinds) && !LongFree(kinds)
    ensures Losable(kinds, b)
  {
    b := MixedIfWrong(kinds);
    if i :| 0 <= i < |kinds| - 1 && OrderType(kinds[i]) != ORDER_LIMIT { b := i; }
  }

  /** For given types, quote flags included, the early refusal loses no draft if and only
      if all orders are LIMIT, or such cycles are never refused, or they are too long
      for the rounding: more than nine orders, of which the last one has no stock
      and is the only one that is not LIMIT. */
  lemma DraftRefusalIff(root: RootFunction, kinds: seq<nat>)
    requires IsRoot(root) && 2 <= |kinds| <= FLOW_MAX_DIM
    ensures KernelRefuses(root)
    ensures NoDraftIsLost(root, kinds) <==> RefusalIsRight(kinds) || LongFree(kinds)
  {
    AlwaysRefused(root);
    hide KernelRefuses, IsRoot;
    hide OfKinds, RefusedEarly, Rounded, Opened, IgnoresOmega, Mixed, Losable, Spurned, Turned;
    hide RefusalIsRight, LongFree;
    if RefusalIsRight(kinds) || LongFree(kinds) {
      forall x: seq<Tfl>, g: Tflow | OfKinds(x, kinds) && RefusedEarly(x)
        ensures |x| >= 2 && Ready(Opened(x), IgnoresOmega(x))
        ensures Rounded(root, Opened(x), IgnoresOmega(x)) != Ok(Computed(Draft, g))
      {
        RefusedSize(x);
        if RefusalIsRight(kinds) {
          RightLosesNoDraft(root, kinds, x, g);
        } else {
          LongLosesNoDraft(root, kinds, x, g);
        }
      }
    } else {
      var b := LosableIfWrong(kinds);
      LosableIsMixed(kinds, b);
      SpurnedIsRefused(kinds, b);
      TurnedIs(kinds, b);
      var g := SpurnedDraft(root, kinds, b);
    }
  }
}
