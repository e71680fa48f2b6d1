/** When is every flow of a draft positive? The rounding never asks for it: in a
    cycle of LIMIT orders the limits force it, and one other order, or a price that
    is ignored, is enough to lose it. */
module Positivity {
  import opened Numeric
  import opened FlowTypes
  import opened Owners
  import opened Gains
  import opened ExactFlow
  import opened Rounding
  import opened Kernel
  import opened Guarantees

  predicate OfKinds(x: seq<Tfl>, kinds: seq<nat>) {
    |x| == |kinds| && forall i :: 0 <= i < |x| ==> x[i].kind == kinds[i]
  }

  /** In every draft found for orders of these types, each node gives something. */
  ghost predicate DraftsArePositive(root: RootFunction, kinds: seq<nat>)
    requires IsRoot(root)
  {
    forall f: Tflow, g: Tflow ::
      OfKinds(f.x, kinds) && FlowcMaximum(root, f) == Ok(Computed(Draft, g)) ==> IsDraft(g)
  }

  predicate KindsAllLimit(kinds: seq<nat>) {
    forall i :: 0 <= i < |kinds| ==> OrderType(kinds[i]) == ORDER_LIMIT
  }

  /** The price, or the stock, of the last order is not read. */
  predicate PriceIgnored(kinds: seq<nat>)
    requires |kinds| >= 1
  {
    IsIgnoreOmega(kinds[|kinds| - 1])
  }

  predicate StockIgnored(kinds: seq<nat>)
    requires |kinds| >= 1
  {
    IsNoQttLimit(kinds[|kinds| - 1]) || PriceIgnored(kinds)
  }

  /** The types that make every draft positive. With the last price ignored, only the
      cycles of two; with the last stock ignored, those of two whose first order is
      LIMIT, and those of LIMIT orders; otherwise those of LIMIT orders. */
  predicate ForcesPositive(kinds: seq<nat>)
    requires |kinds| >= 2
  {
    if PriceIgnored(kinds) then |kinds| == 2
    else if StockIgnored(kinds) && |kinds| == 2 then OrderType(kinds[0]) == ORDER_LIMIT
    else KindsAllLimit(kinds)
  }

  // ---------------------------------------------------------------------------
  // Types that force positive flows

  /** In a cycle of two whose last stock is ignored, the first node is exhausted. */
  lemma FirstIsExhausted(root: RootFunction, x: seq<Tfl>, c: Cube, mat: nat, g: Tflow)
    requires IsRoot(root) && FoundAt(root, x, c, mat, g) && |x| == 2 && IgnoresQtt(x)
    ensures |g.flowr| == 2 && g.flowr[0] > 0 && g.flowr[1] >= 0
    ensures c.x == Opened(x) && c.Accepts(mat) && g.flowr == Vertex(c.floor, mat)
  {
    hide Exact, Exhausted, Choose, LimitsObserved, SetPriceHolds, FloorsUpTo, Omegas, AllPriced, DistinctOids;
    hide CalType, ProdOmega, NonNegative, SomeStockEmpty, Settled, BitSetInMatrix, IsRoot, PathPrice;
    var y := Opened(x);
    assert y[1].qtt == QTTFLOW_UNDEFINED;
    assert IsDefined(y[c.ex]) && c.ex == 0;
    assert c.floor[0] > 0;
  }

  lemma TwoWithoutPrice(root: RootFunction, f: Tflow, g: Tflow)
    requires IsRoot(root) && FlowcMaximum(root, f) == Ok(Computed(Draft, g))
    requires |f.x| == 2 && IgnoresOmega(f.x)
    ensures IsDraft(g)
  {
    hide *;
    var c, mat := DraftFound(root, f, g);
    QttIgnoredToo(f.x);
    FirstIsExhausted(root, f.x, c, mat, g);
    FoundHoldsPrice(root, f.x, c, mat, g);
    PathPositive(Opened(f.x));
    SecondGives(g, Prod(OmegaPath(PricedNodes(Opened(f.x), true))));
  }

  lemma QttIgnoredToo(x: seq<Tfl>)
    requires |x| >= 1 && IgnoresOmega(x)
    ensures IgnoresQtt(x)
  {}

  lemma PathPositive(y: seq<Tfl>)
    requires |y| >= 1
    requires forall i :: 0 <= i < |PricedNodes(y, true)| ==> Priced(PricedNodes(y, true)[i])
    ensures Prod(OmegaPath(PricedNodes(y, true))) > 0.0
  {
    ProdPos(OmegaPath(PricedNodes(y, true)));
  }

  lemma SecondGives(g: Tflow, p: real)
    requires |g.x| == 2 && |g.flowr| == 2 && g.flowr[0] > 0 && g.flowr[1] >= 0 && p > 0.0
    requires PriceNotBelowOne(g.flowr[1], g.flowr[0], p)
    ensures IsDraft(g)
  {
    NothingHasNoPrice(g.flowr[0], p);
  }

  lemma NothingHasNoPrice(b: int, p: real)
    requires b > 0
    ensures !PriceNotBelowOne(0, b, p)
  {
    assert 0.0 / b as real == 0.0;
  }

  lemma TwoWithFirstLimit(root: RootFunction, f: Tflow, g: Tflow)
    requires IsRoot(root) && FlowcMaximum(root, f) == Ok(Computed(Draft, g))
    requires |f.x| == 2 && IgnoresQtt(f.x) && f.x[0].IsLimit()
    ensures IsDraft(g)
  {
    hide FlowcMaximum, CubeOf, Choose, Vertex, Opened, Omegas, AllPriced, DistinctOids, NonNegative, IgnoresQtt;
    hide CalType, ProdOmega, SomeStockEmpty, IsRoot, BitSetInMatrix, StockAllows, SetPriceHolds, Cube.Valid, Settled;
    var c, mat := DraftFound(root, f, g);
    FirstIsExhausted(root, f.x, c, mat, g);
    OpenedKeepsPrice(f.x, 0);
    assert NodeLimitObserved(c.x, c.omega, g.flowr, c.ignoreLast, 0);
  }

  lemma KindsOfLimit(x: seq<Tfl>, kinds: seq<nat>)
    requires OfKinds(x, kinds) && |kinds| >= 2
    ensures KindsAllLimit(kinds) ==> AllLimit(x)
    ensures OrderType(kinds[0]) == ORDER_LIMIT ==> x[0].IsLimit()
    ensures IgnoresOmega(x) <==> PriceIgnored(kinds)
    ensures IgnoresQtt(x) <==> StockIgnored(kinds)
  {}

  lemma ForcedIsPositive(root: RootFunction, kinds: seq<nat>, f: Tflow, g: Tflow)
    requires IsRoot(root) && |kinds| >= 2 && ForcesPositive(kinds)
    requires OfKinds(f.x, kinds) && FlowcMaximum(root, f) == Ok(Computed(Draft, g))
    ensures IsDraft(g)
  {
    hide FlowcMaximum, KindsAllLimit, AllLimit, OfKinds, PriceIgnored, StockIgnored, IgnoresOmega, IgnoresQtt, IsDraft;
    KindsOfLimit(f.x, kinds);
    assert |f.x| == |kinds| by { SameSize(f.x, kinds); }
    if PriceIgnored(kinds) {
      TwoWithoutPrice(root, f, g);
    } else if StockIgnored(kinds) && |kinds| == 2 {
      TwoWithFirstLimit(root, f, g);
    } else {
      AllLimitDraftIsPositive(root, f, g);
    }
  }

  lemma SameSize(x: seq<Tfl>, kinds: seq<nat>)
    requires OfKinds(x, kinds)
    ensures |x| == |kinds|
  {}

  // ---------------------------------------------------------------------------
  // A cycle that gives nothing before the node `b`

  /** Where a node can be starved: before the last node when its price is ignored, and
      otherwise before a node that is not LIMIT, unless only the starved node would
      have a stock. */
  predicate CanStarve(kinds: seq<nat>, b: nat) {
    && 2 <= |kinds| <= FLOW_MAX_DIM && b < |kinds|
    && if PriceIgnored(kinds) then b == |kinds| - 1 && |kinds| >= 3
       else OrderType(kinds[b]) != ORDER_LIMIT && (StockIgnored(kinds) && |kinds| == 2 ==> b == 0)
  }

  /** One unit in each stock. The node before `b` gives a quarter of what it
      receives, and `b` four times. */
  function StarvedNode(kind: nat, i: nat, b: nat, n: nat): Tfl
    requires b < n
  {
    var requ := if i == Before(b, n) then 4 else 1;
    var prov := if i == b then 4 else 1;
    Tfl(kind, i, i, i, requ, prov, 1, 1.0)
  }

  function Starved(kinds: seq<nat>, b: nat): (x: seq<Tfl>)
    requires b < |kinds|
    ensures |x| == |kinds|
    ensures forall i :: 0 <= i < |x| ==> x[i] == StarvedNode(kinds[i], i, b, |kinds|)
  {
    seq(|kinds|, i requires 0 <= i < |kinds| => StarvedNode(kinds[i], i, b, |kinds|))
  }

  /** Its nodes when its flow is searched. */
  function Hungry(kinds: seq<nat>, b: nat): (y: seq<Tfl>)
    requires |kinds| >= 2 && b < |kinds|
    ensures |y| == |kinds|
  {
    Opened(Starved(kinds, b))
  }

  lemma HungryNode(kinds: seq<nat>, b: nat, i: nat)
    requires |kinds| >= 2 && b < |kinds| && i < |kinds|
    ensures var t := Hungry(kinds, b)[i];
            && t.qttRequ == (if i == Before(b, |kinds|) then 4 else 1)
            && t.qttProv == (if i == b then 4 else 1)
            && t.kind == kinds[i] && t.oid == i && t.proba == 1.0
            && t.qtt == if StockIgnored(kinds) && i == |kinds| - 1 then QTTFLOW_UNDEFINED else 1
  {}

  lemma StarvedChecked(kinds: seq<nat>, b: nat)
    requires CanStarve(kinds, b)
    ensures var x := Starved(kinds, b);
            && 2 <= |x| <= FLOW_MAX_DIM && NonNegative(x) && DistinctOids(x) && !SomeStockEmpty(x)
            && OfKinds(x, kinds) && (IgnoresOmega(x) <==> PriceIgnored(kinds))
  {}

  lemma HungryReady(kinds: seq<nat>, b: nat)
    requires CanStarve(kinds, b)
    ensures Ready(Hungry(kinds, b), PriceIgnored(kinds))
    ensures IgnoresOmega(Hungry(kinds, b)) <==> PriceIgnored(kinds)
  {
    var y := Hungry(kinds, b);
    hide Hungry;
    forall i | 0 <= i < |y|
      ensures Priced(y[i]) && (IsDefined(y[i]) ==> y[i].qtt > 0) && (i == 0 ==> IsDefined(y[i]))
      ensures y[i].kind == kinds[i]
    {
      HungryNode(kinds, b, i);
    }
  }

  function Weight(i: nat, b: nat, n: nat): real
    requires b < n
  {
    if i == Before(b, n) then 4.0 else 1.0
  }

  function StarvedPrice(i: nat, b: nat, n: nat): real
    requires b < n
  {
    if i == b then 4.0 else if i == Before(b, n) then 0.25 else 1.0
  }

  /** The product of prices that are all one but that of node p. */
  lemma OneFactor(omega: seq<real>, p: nat)
    requires p < |omega|
    requires forall i :: 0 <= i < |omega| && i != p ==> omega[i] == 1.0
    ensures Prod(omega) == omega[p]
  {
    var ones := seq(|omega|, i requires 0 <= i < |omega| => 1.0);
    hide Prod;
    ProdConstant(ones, 1.0);
    PowOfOne(|omega|);
    ProdScaleOne(ones, omega, p, omega[p]);
  }

  lemma PathOfHungry(kinds: seq<nat>, b: nat)
    requires CanStarve(kinds, b) && PriceIgnored(kinds)
    ensures var y := Hungry(kinds, b);
            && AllPriced(y, true)
            && (forall i :: 0 <= i < |PricedNodes(y, true)| ==> Priced(PricedNodes(y, true)[i]))
            && Prod(OmegaPath(PricedNodes(y, true))) == 0.25
  {
    HungryReady(kinds, b);
    var y := Hungry(kinds, b);
    var path := OmegaPath(PricedNodes(y, true));
    hide Hungry, Prod;
    forall i | 0 <= i < |path|
      ensures path[i] == if i == |kinds| - 2 then 0.25 else 1.0
    {
      HungryNode(kinds, b, i);
      assert PricedNodes(y, true)[i] == y[i];
    }
    OneFactor(path, |kinds| - 2);
  }

  lemma LastIsEater(kinds: seq<nat>, b: nat)
    requires CanStarve(kinds, b) && PriceIgnored(kinds)
    ensures StarvedPrice(|kinds| - 1, b, |kinds|) == 4.0
  {}

  lemma ReadyIsPriced(y: seq<Tfl>, ignoreLast: bool)
    requires Ready(y, ignoreLast)
    ensures |y| >= 2 && AllPriced(y, ignoreLast)
  {}

  /** The price of one node. */
  lemma StarvedOmega(kinds: seq<nat>, b: nat, i: nat)
    requires |kinds| >= 2 && b < |kinds| && i < |kinds|
    requires Priced(Hungry(kinds, b)[i])
    ensures Omega(Hungry(kinds, b)[i]) == StarvedPrice(i, b, |kinds|)
  {
    HungryNode(kinds, b, i);
    hide Hungry;
  }

  lemma HungryOmega(kinds: seq<nat>, b: nat, i: nat)
    requires CanStarve(kinds, b) && i < |kinds|
    ensures AllPriced(Hungry(kinds, b), PriceIgnored(kinds))
    ensures Omegas(Hungry(kinds, b), PriceIgnored(kinds))[i] == StarvedPrice(i, b, |kinds|)
  {
    HungryReady(kinds, b);
    hide *;
    LongEnough(kinds, b);
    var y := Hungry(kinds, b);
    ReadyIsPriced(y, PriceIgnored(kinds));
    if PriceIgnored(kinds) && i == |kinds| - 1 {
      PathOfHungry(kinds, b);
      LastIsEater(kinds, b);
      LastOmega(y);
    } else {
      OmegaAt(y, PriceIgnored(kinds), i);
      StarvedOmega(kinds, b, i);
    }
  }

  lemma LongEnough(kinds: seq<nat>, b: nat)
    requires CanStarve(kinds, b)
    ensures |kinds| >= 2 && b < |kinds| && |Hungry(kinds, b)| == |kinds|
  {}

  lemma LastOmega(y: seq<Tfl>)
    requires |y| >= 1 && AllPriced(y, true)
    requires forall i :: 0 <= i < |PricedNodes(y, true)| ==> Priced(PricedNodes(y, true)[i])
    requires Prod(OmegaPath(PricedNodes(y, true))) == 0.25
    ensures Omegas(y, true)[|y| - 1] == 4.0
  {
    hide Prod;
  }

  lemma HungryProduct(kinds: seq<nat>, b: nat)
    requires CanStarve(kinds, b)
    ensures AllPriced(Hungry(kinds, b), PriceIgnored(kinds))
    ensures ProdOmega(Hungry(kinds, b), PriceIgnored(kinds)) == 1.0
  {
    HungryReady(kinds, b);
    if !PriceIgnored(kinds) {
      var n, p := |kinds|, Before(b, |kinds|);
      var omega := Omegas(Hungry(kinds, b), false);
      var quarter := seq(n, i requires 0 <= i < n => if i == p then 0.25 else 1.0);
      forall i | 0 <= i < n
        ensures omega[i] == quarter[b := 4.0][i]
      {
        HungryOmega(kinds, b, i);
      }
      hide Omegas, Hungry, AllPriced, Prod, ProdOmega, CanStarve;
      OneFactor(quarter, p);
      ProdScaleOne(quarter, omega, b, 4.0);
      ProdOfOmegas(Hungry(kinds, b), false);
    }
  }

  /** With no gain to share, the prices are not corrected. */
  lemma NothingToCorrect(root: RootFunction, x: seq<Tfl>, ignoreLast: bool, i: nat)
    requires IsRoot(root) && Ready(x, ignoreLast) && ProdOmega(x, ignoreLast) == 1.0 && i < |x|
    ensures Corrected(root, x, ignoreLast)[i] == Omegas(x, ignoreLast)[i]
  {
    var g := Grouped(x);
    RootOfOne(root, g.nbOwn);
    var occ := Count(g.index, g.index[i]);
    RootOfOne(root, occ);
    assert NodeGains(root, 1.0, g)[i] == 1.0;
    hide NodeGains, Omegas, Grouped;
    assert OmegaCorrige(root, Omegas(x, ignoreLast), g, 1.0)[i] * 1.0 == Omegas(x, ignoreLast)[i];
  }

  lemma WeightStep(f: seq<real>, om: seq<real>, b: nat, i: nat)
    requires |f| == |om| >= 2 && b < |f| && i < |f|
    requires ClosesAt(f, om, i) && om[i] == StarvedPrice(i, b, |f|)
    ensures f[i] * Weight(i, b, |f|) == f[Before(i, |f|)] * Weight(Before(i, |f|), b, |f|)
  {}

  /** The exact flow of the starved cycle. */
  function HungryFlow(root: RootFunction, kinds: seq<nat>, b: nat): (f: seq<real>)
    requires IsRoot(root) && CanStarve(kinds, b)
    ensures |f| == |kinds|
  {
    HungryReady(kinds, b);
    Exact(root, Hungry(kinds, b), PriceIgnored(kinds))
  }

  lemma HungryCloses(root: RootFunction, kinds: seq<nat>, b: nat, i: nat)
    requires IsRoot(root) && CanStarve(kinds, b) && i < |kinds|
    ensures var f, n := HungryFlow(root, kinds, b), |kinds|;
            f[i] * Weight(i, b, n) == f[Before(i, n)] * Weight(Before(i, n), b, n)
  {
    hide *;
    StarveSize(kinds, b);
    HungryIs(root, kinds, b);
    var y, ig := Hungry(kinds, b), PriceIgnored(kinds);
    HungryProduct(kinds, b);
    NothingToCorrect(root, y, ig, i);
    HungryOmega(kinds, b, i);
    ExactCloses(root, y, ig, i);
    WeightStep(Exact(root, y, ig), Corrected(root, y, ig), b, i);
  }

  lemma StarveSize(kinds: seq<nat>, b: nat)
    requires CanStarve(kinds, b)
    ensures 2 <= |kinds| <= FLOW_MAX_DIM && b < |kinds|
  {}

  lemma HungryIs(root: RootFunction, kinds: seq<nat>, b: nat)
    requires IsRoot(root) && CanStarve(kinds, b)
    ensures |kinds| >= 2 && Ready(Hungry(kinds, b), PriceIgnored(kinds))
    ensures HungryFlow(root, kinds, b) == Exact(root, Hungry(kinds, b), PriceIgnored(kinds))
  {
    HungryReady(kinds, b);
    hide Exact, Ready, Hungry;
  }

  lemma {:induction false} HungryProportion(root: RootFunction, kinds: seq<nat>, b: nat, i: nat)
    requires IsRoot(root) && CanStarve(kinds, b) && i < |kinds|
    ensures var f, n := HungryFlow(root, kinds, b), |kinds|;
            f[i] * Weight(i, b, n) == f[0] * Weight(0, b, n)
  {
    hide HungryFlow, Weight, IsRoot;
    HungryCloses(root, kinds, b, i);
    if i > 0 { HungryProportion(root, kinds, b, i - 1); }
  }

  /** A node with a stock that is not the starved one. */
  function Other(b: nat, n: nat): (d: nat)
    requires b < n && n >= 2
    ensures d < n && d != Before(b, n)
  {
    if Before(b, n) != 0 then 0 else 1
  }

  /** The exact flow gives one unit everywhere, a quarter before `b`. */
  lemma HungryExact(root: RootFunction, kinds: seq<nat>, b: nat)
    requires IsRoot(root) && CanStarve(kinds, b)
    ensures Ready(Hungry(kinds, b), PriceIgnored(kinds))
    ensures var f, n := HungryFlow(root, kinds, b), |kinds|;
            forall i :: 0 <= i < n ==> f[i] == if i == Before(b, n) then 0.25 else 1.0
    ensures Exhausted(root, Hungry(kinds, b), PriceIgnored(kinds)) != Before(b, |kinds|)
  {
    hide *;
    StarveSize(kinds, b);
    HungryIs(root, kinds, b);
    var ex := HungryBounds(root, kinds, b);
    var f, n := HungryFlow(root, kinds, b), |kinds|;
    HungryProportion(root, kinds, b, ex);
    HungryProportion(root, kinds, b, Other(b, n));
    OneUnit(f, b, ex);
    forall i | 0 <= i < n
      ensures f[i] == if i == Before(b, n) then 0.25 else 1.0
    {
      HungryProportion(root, kinds, b, i);
      UnitOf(f, b, i);
    }
  }

  lemma HungryBounds(root: RootFunction, kinds: seq<nat>, b: nat) returns (ex: nat)
    requires IsRoot(root) && CanStarve(kinds, b)
    ensures |kinds| >= 2 && Ready(Hungry(kinds, b), PriceIgnored(kinds))
    ensures ex == Exhausted(root, Hungry(kinds, b), PriceIgnored(kinds)) < |kinds|
    ensures HungryFlow(root, kinds, b)[ex] == 1.0 && HungryFlow(root, kinds, b)[Other(b, |kinds|)] <= 1.0
  {
    HungryIs(root, kinds, b);
    var y, ig, d := Hungry(kinds, b), PriceIgnored(kinds), Other(b, |kinds|);
    ex := Exhausted(root, y, ig);
    HungryNode(kinds, b, ex);
    HungryNode(kinds, b, d);
    HungryDefined(root, y, ig);
    hide Hungry, Ready, IsRoot, HungryFlow, Exact, Exhausted;
    ExactFits(root, y, ig);
    FitsAt(y, Exact(root, y, ig), d);
  }

  lemma OneUnit(f: seq<real>, b: nat, ex: nat)
    requires |f| >= 2 && b < |f| && ex < |f| && f[ex] == 1.0 && f[Other(b, |f|)] <= 1.0
    requires f[ex] * Weight(ex, b, |f|) == f[0] * Weight(0, b, |f|)
    requires f[Other(b, |f|)] * Weight(Other(b, |f|), b, |f|) == f[0] * Weight(0, b, |f|)
    ensures f[0] * Weight(0, b, |f|) == 1.0 && ex != Before(b, |f|)
  {}

  lemma UnitOf(f: seq<real>, b: nat, i: nat)
    requires i < |f| && b < |f| && f[i] * Weight(i, b, |f|) == f[0] * Weight(0, b, |f|) == 1.0
    ensures f[i] == if i == Before(b, |f|) then 0.25 else 1.0
  {}

  lemma FitsAt(x: seq<Tfl>, f: seq<real>, i: nat)
    requires |x| == |f| && Fits(x, f) && i < |x| && IsDefined(x[i])
    ensures f[i] <= x[i].qtt as real
  {}

  // ---------------------------------------------------------------------------
  // Its rounding

  function StarvedFloor(b: nat, n: nat): (v: seq<int>)
    requires b < n
    ensures |v| == n && forall i :: 0 <= i < n ==> v[i] == if i == Before(b, n) then 0 else 1
  {
    seq(n, i => if i == Before(b, n) then 0 else 1)
  }

  lemma SmallFloors(y: seq<Tfl>, exact: seq<real>, ex: nat)
    requires |exact| == |y| && ex < |y| && y[ex].qtt == 1 && exact[ex] == 1.0
    requires forall i :: 0 <= i < |y| ==> 0.0 <= exact[i] <= 1.0
    ensures FloorsUpTo(y, exact, ex, |y|).Ok?
  {
    hide FloorsUpTo;
    forall i | 0 <= i < |y|
      ensures FloorOf(y[i], exact[i], i == ex).Ok?
    {
      assert 0.0 <= exact[i] < (INT64_MAX_DOUBLE + 1) as real;
    }
  }

  lemma FloorIsStarved(c: Cube, b: nat)
    requires c.Valid() && b < |c.x| && c.ex != Before(b, |c.x|) && c.floor[c.ex] == 1
    requires forall i :: 0 <= i < |c.x| ==> c.exact[i] == if i == Before(b, |c.x|) then 0.25 else 1.0
    requires forall i :: 0 <= i < |c.x| && i != c.ex ==>
               c.floor[i] as real <= c.exact[i] < (c.floor[i] + 1) as real
    ensures c.floor == StarvedFloor(b, |c.x|)
  {
    forall i | 0 <= i < |c.x|
      ensures c.floor[i] == StarvedFloor(b, |c.x|)[i]
    {
      if i == c.ex { assert i != Before(b, |c.x|); }
    }
  }

  /** The cube of the starved cycle. */
  ghost predicate StarvedShape(root: RootFunction, kinds: seq<nat>, b: nat, c: Cube)
    requires IsRoot(root)
  {
    && CanStarve(kinds, b) && c.Valid()
    && c.x == Hungry(kinds, b) && c.ignoreLast == PriceIgnored(kinds)
    && Ready(c.x, c.ignoreLast) && CubeOf(root, c.x, c.ignoreLast) == Ok(c)
    && c.floor == StarvedFloor(b, |c.x|)
    && forall i :: 0 <= i < |c.x| ==> c.exact[i] == if i == Before(b, |c.x|) then 0.25 else 1.0
  }

  lemma StarvedCube(root: RootFunction, kinds: seq<nat>, b: nat) returns (c: Cube)
    requires IsRoot(root) && CanStarve(kinds, b)
    ensures StarvedShape(root, kinds, b, c)
  {
    hide *;
    StarveSize(kinds, b);
    HungryIs(root, kinds, b);
    HungryExact(root, kinds, b);
    var y, ig := Hungry(kinds, b), PriceIgnored(kinds);
    var ex := Exhausted(root, y, ig);
    HungryDefined(root, y, ig);
    HungryStock(kinds, b, ex);
    SmallFloors(y, Exact(root, y, ig), ex);
    CubeIfFloors(root, y, ig);
    c := CubeOf(root, y, ig).value;
    FloorsFound(root, y, ig, c);
    CubeSizes(c);
    FloorIsStarved(c, b);
    ShapeIs(root, kinds, b, c);
  }

  lemma HungryStock(kinds: seq<nat>, b: nat, i: nat)
    requires |kinds| >= 2 && b < |kinds| && i < |kinds| && IsDefined(Hungry(kinds, b)[i])
    ensures Hungry(kinds, b)[i].qtt == 1
  {
    HungryNode(kinds, b, i);
    hide Hungry;
  }

  lemma CubeIfFloors(root: RootFunction, y: seq<Tfl>, ig: bool)
    requires IsRoot(root) && Ready(y, ig)
    requires FloorsUpTo(y, Exact(root, y, ig), Exhausted(root, y, ig), |y|).Ok?
    ensures CubeOf(root, y, ig).Ok?
  {
    hide Exact, Exhausted, FloorsUpTo, Ready;
  }

  lemma CubeSizes(c: Cube)
    requires c.Valid()
    ensures |c.x| >= 2 && |c.omega| == |c.exact| == |c.floor| == |c.x| && c.ex < |c.x|
  {}

  lemma ShapeIs(root: RootFunction, kinds: seq<nat>, b: nat, c: Cube)
    requires IsRoot(root) && CanStarve(kinds, b) && c.Valid()
    requires c.x == Hungry(kinds, b) && c.ignoreLast == PriceIgnored(kinds)
    requires Ready(c.x, c.ignoreLast) && CubeOf(root, c.x, c.ignoreLast) == Ok(c)
    requires c.floor == StarvedFloor(b, |c.x|)
    requires forall i :: 0 <= i < |c.x| ==> c.exact[i] == if i == Before(b, |c.x|) then 0.25 else 1.0
    ensures StarvedShape(root, kinds, b, c)
  {
    hide CubeOf, Ready, Hungry, CanStarve, PriceIgnored, Cube.Valid;
  }

  lemma HungryDefined(root: RootFunction, y: seq<Tfl>, ig: bool)
    requires IsRoot(root) && Ready(y, ig)
    ensures IsDefined(y[Exhausted(root, y, ig)])
  {
    hide Ready;
  }

  lemma ExhaustedStays(c: Cube)
    ensures !BitSetInMatrix(0, c.ex)
  {
    NoBitInZero(c.ex % NMATBITS);
  }

  lemma StarvedLimit(kinds: seq<nat>, b: nat, k: nat, omega: seq<real>, v: seq<int>)
    requires CanStarve(kinds, b) && k < |kinds|
    requires |omega| == |kinds| && omega[k] == StarvedPrice(k, b, |kinds|)
    requires v == StarvedFloor(b, |kinds|)
    ensures NodeLimitObserved(Hungry(kinds, b), omega, v, PriceIgnored(kinds), k)
  {
    HungryNode(kinds, b, k);
    hide Hungry;
    if k != b {
      assert v[Before(k, |kinds|)] == 1;
      assert v[k] as real / 1.0 <= omega[k];
    }
  }

  lemma StarvedStocks(kinds: seq<nat>, b: nat)
    requires CanStarve(kinds, b)
    ensures StockAllows(Hungry(kinds, b), StarvedFloor(b, |kinds|))
  {
    hide Hungry;
    forall k | 0 <= k < |kinds| && IsDefined(Hungry(kinds, b)[k])
      ensures StarvedFloor(b, |kinds|)[k] <= Hungry(kinds, b)[k].qtt
    {
      HungryNode(kinds, b, k);
    }
  }

  lemma StarvedLimits(root: RootFunction, kinds: seq<nat>, b: nat, c: Cube)
    requires IsRoot(root) && StarvedShape(root, kinds, b, c)
    ensures |c.omega| == |c.x| == |c.floor| && LimitsObserved(c.x, c.omega, c.floor, c.ignoreLast)
  {
    CubeSizes(c);
    hide CubeOf, Ready, IsRoot, Cube.Valid, Omegas, NodeLimitObserved, AllPriced, Stocked, FloorsUpTo;
    hide Hungry, CanStarve;
    hide StarvedPrice, PriceIgnored;
    forall k | 0 <= k < |c.x|
      ensures NodeLimitObserved(c.x, c.omega, c.floor, c.ignoreLast, k)
    {
      HungryOmega(kinds, b, k);
      StarvedLimit(kinds, b, k, c.omega, c.floor);
    }
  }

  lemma AcceptsFloor(c: Cube)
    requires c.Valid() && c.Admissible(c.floor)
    ensures c.Accepts(0)
  {
    FloorIsVertexZero(c.floor);
    ExhaustedStays(c);
    hide Vertex, BitSetInMatrix, Cube.Valid, Cube.Admissible;
  }

  /** The floor is admissible. */
  lemma StarvedFloorAccepted(root: RootFunction, kinds: seq<nat>, b: nat, c: Cube)
    requires IsRoot(root) && StarvedShape(root, kinds, b, c)
    ensures c.Accepts(0)
  {
    StarvedLimits(root, kinds, b, c);
    ShapeFacts(root, kinds, b, c);
    StarvedStocks(kinds, b);
    hide CubeOf, Ready, IsRoot, Cube.Valid, LimitsObserved, StockAllows, Hungry;
    assert SetPriceIfIgnored(kinds, c.floor, c.prodPath) by {
      if PriceIgnored(kinds) { assert c.floor[|c.floor| - 2] == 0; }
    }
    AcceptsFloor(c);
  }

  predicate SetPriceIfIgnored(kinds: seq<nat>, v: seq<int>, prodPath: real)
    requires |v| == |kinds| >= 2
  {
    PriceIgnored(kinds) ==> SetPriceHolds(v, prodPath)
  }

  /** A vertex within the stocks, with a flow at each node, is one everywhere, or two
      at a last node without stock. */
  lemma FedNode(kinds: seq<nat>, b: nat, v: seq<int>, i: nat)
    requires CanStarve(kinds, b) && |v| == |kinds| && i < |v| && StockAllows(Hungry(kinds, b), v)
    requires v[i] > 0 && (v[i] == StarvedFloor(b, |v|)[i] || v[i] == StarvedFloor(b, |v|)[i] + 1)
    ensures v[i] == 1 || (v[i] == 2 && i == |v| - 1 && StockIgnored(kinds) && Before(b, |v|) != |v| - 1)
  {
    HungryNode(kinds, b, i);
    hide Hungry, CanStarve, StockIgnored;
    assert v[i] == 2 ==> StarvedFloor(b, |v|)[i] == 1;
  }

  lemma FedPrice(kinds: seq<nat>, v: seq<int>)
    requires |v| == |kinds| >= 2 && v[|v| - 2] == 1 && v[|v| - 1] <= 2
    ensures !SetPriceHolds(v, 0.25)
  {
    assert v[|v| - 1] as real / 1.0 * 0.25 <= 0.5;
  }

  /** An accepted vertex with a flow at each node is one everywhere, or two at a last
      node without stock; with the last price ignored there is none. */
  lemma FedVertex(root: RootFunction, kinds: seq<nat>, b: nat, c: Cube, mat: nat)
    requires IsRoot(root) && StarvedShape(root, kinds, b, c) && c.Accepts(mat)
    requires forall i :: 0 <= i < |kinds| ==> Vertex(c.floor, mat)[i] > 0
    ensures !PriceIgnored(kinds)
    ensures var v, n := Vertex(c.floor, mat), |kinds|;
            && n >= 2 && (forall i :: 0 <= i < n - 1 ==> v[i] == 1)
            && (v[n - 1] == 1 || (v[n - 1] == 2 && StockIgnored(kinds) && Before(b, n) != n - 1))
  {
    var v, n := Vertex(c.floor, mat), |kinds|;
    hide Hungry, CubeOf, Ready, Omegas, LimitsObserved, CanStarve, StockIgnored, StockAllows, BitSetInMatrix;
    hide SetPriceHolds;
    StarveSize(kinds, b);
    forall i | 0 <= i < n
      ensures v[i] == 1 || (v[i] == 2 && i == n - 1 && StockIgnored(kinds) && Before(b, n) != n - 1)
    {
      FedNode(kinds, b, v, i);
    }
    if PriceIgnored(kinds) {
      StarvedPathPrice(root, kinds, b, c);
      FedPrice(kinds, v);
    }
  }

  lemma StarvedPathPrice(root: RootFunction, kinds: seq<nat>, b: nat, c: Cube)
    requires IsRoot(root) && StarvedShape(root, kinds, b, c) && PriceIgnored(kinds)
    ensures c.prodPath == 0.25
  {
    PathOfHungry(kinds, b);
    CubePathPrice(root, c.x, c);
  }

  // ---------------------------------------------------------------------------
  // The floor is nearer to the exact flow than the positive vertices

  lemma {:induction false} DotConstant(a: seq<real>, b: seq<real>, p: nat, u: real, w: real)
    requires |a| == |b| && p < |a|
    requires forall i :: 0 <= i < |a| ==> a[i] * b[i] == if i == p then u else w
    ensures Dot(a, b) == u + (|a| - 1) as real * w
  {
    var n := |a| - 1;
    if p == n {
      DotUniform(a[..n], b[..n], w);
    } else {
      DotConstant(a[..n], b[..n], p, u, w);
      assert (n - 1) as real * w + w == n as real * w;
    }
  }

  lemma {:induction false} DotUniform(a: seq<real>, b: seq<real>, w: real)
    requires |a| == |b| && forall i :: 0 <= i < |a| ==> a[i] * b[i] == w
    ensures Dot(a, b) == |a| as real * w
  {
    if |a| > 0 {
      var n := |a| - 1;
      DotUniform(a[..n], b[..n], w);
      assert n as real * w + w == (n + 1) as real * w;
    }
  }

  /** The scalar products of a vector that is e at p and one elsewhere. */
  lemma DotsAround(v: seq<int>, exact: seq<real>, p: nat, e: int)
    requires |v| == |exact| && p < |v|
    requires forall i :: 0 <= i < |v| ==> v[i] == if i == p then e else 1
    requires forall i :: 0 <= i < |v| ==> exact[i] == if i == p then 0.25 else 1.0
    ensures Dot(Reals(v), exact) == (|v| - 1) as real + e as real * 0.25
    ensures Dot(Reals(v), Reals(v)) == (|v| - 1) as real + e as real * e as real
  {
    DotConstant(Reals(v), exact, p, e as real * 0.25, 1.0);
    DotConstant(Reals(v), Reals(v), p, e as real * e as real, 1.0);
  }

  /** The same with two at the last node, which is not p. */
  lemma DotsWithTwo(v: seq<int>, exact: seq<real>, p: nat)
    requires |v| == |exact| && p < |v| - 1
    requires forall i :: 0 <= i < |v| ==> v[i] == if i == |v| - 1 then 2 else 1
    requires forall i :: 0 <= i < |v| ==> exact[i] == if i == p then 0.25 else 1.0
    ensures Dot(Reals(v), exact) == (|v| - 1) as real + 1.25
    ensures Dot(Reals(v), Reals(v)) == (|v| - 1) as real + 4.0
  {
    var n := |v| - 1;
    DotsAround(v[..n], exact[..n], p, 1);
    assert Reals(v)[..n] == Reals(v[..n]);
    assert Dot(Reals(v), exact) == Dot(Reals(v)[..n], exact[..n]) + 2.0 * 1.0;
    assert Dot(Reals(v), Reals(v)) == Dot(Reals(v)[..n], Reals(v)[..n]) + 2.0 * 2.0;
  }

  lemma RootSquare(root: RootFunction, x: real)
    requires IsRoot(root) && x > 0.0
    ensures root(x, 2) > 0.0 && root(x, 2) * root(x, 2) == x
  {
    var r := root(x, 2);
    assert Pow(r, 2) == r * Pow(r, 1) == r * (r * Pow(r, 0));
  }

  lemma SquareOrder(a: real, b: real)
    requires a > 0.0 && b > 0.0 && a * a < b * b
    ensures a < b
  {
    if b <= a { MulMono(b, a, b, a); }
  }

  /** (m + 1/4) / sqrt(m + 1) < m / sqrt(m), for m at least one. */
  lemma NearerWithoutStep(m: real, r: real, q: real)
    requires m >= 1.0 && r > 0.0 && q > 0.0 && r * r == m + 1.0 && q * q == m
    ensures (m + 0.25) / r < m / q
  {
    var a, b := (m + 0.25) * q, m * r;
    MulPos(m + 0.25, q);
    MulPos(m, r);
    assert a * a == (m + 0.25) * (m + 0.25) * (q * q);
    assert b * b == m * m * (r * r);
    NearerSquares(m);
    SquareOrder(a, b);
    RatioCross(m, q, m + 0.25, r);
  }

  lemma NearerSquares(m: real)
    requires m >= 1.0
    ensures (m + 0.25) * (m + 0.25) * m < m * m * (m + 1.0)
  {
    var s := m * m;
    assert (m + 0.25) * (m + 0.25) == s + 0.5 * m + 0.0625;
    assert s >= m;
    assert s + 0.5 * m + 0.0625 < s + m;
    ScaleStrict(s + 0.5 * m + 0.0625, s + m, m);
    assert (s + m) * m == s * (m + 1.0);
  }

  lemma ScaleStrict(a: real, b: real, k: real)
    requires a < b && k > 0.0
    ensures a * k < b * k
  {
    MulPos(b - a, k);
  }

  /** (m + 5/4) / sqrt(m + 4) < m / sqrt(m), for m at least two. */
  lemma NearerWithoutTwo(m: real, r: real, q: real)
    requires m >= 2.0 && r > 0.0 && q > 0.0 && r * r == m + 4.0 && q * q == m
    ensures (m + 1.25) / r < m / q
  {
    var a, b := (m + 1.25) * q, m * r;
    MulPos(m + 1.25, q);
    MulPos(m, r);
    SquareOfProduct(m + 1.25, q, m);
    SquareOfProduct(m, r, m + 4.0);
    TwoSquares(m);
    SquareOrder(a, b);
    RatioCross(m, q, m + 1.25, r);
  }

  lemma SquareOfProduct(a: real, b: real, c: real)
    requires b * b == c
    ensures (a * b) * (a * b) == a * a * c
  {
    assert (a * b) * (a * b) == a * a * (b * b);
  }

  lemma TwoSquares(m: real)
    requires m >= 2.0
    ensures (m + 1.25) * (m + 1.25) * m < m * m * (m + 4.0)
  {
    var s := m * m;
    assert (m + 1.25) * (m + 1.25) == s + 2.5 * m + 1.5625;
    assert s + 2.5 * m + 1.5625 < s + 4.0 * m;
    ScaleStrict(s + 2.5 * m + 1.5625, s + 4.0 * m, m);
    assert (s + 4.0 * m) * m == s * (m + 4.0);
  }

  /** The floor, one everywhere but zero at p, is nearer to the exact flow than a
      vector of ones, and than one with two at a last node that is not p. */
  lemma FloorIsNearer(root: RootFunction, v: seq<int>, w: seq<int>, exact: seq<real>, p: nat)
    requires IsRoot(root) && |v| == |w| == |exact| >= 2 && p < |v|
    requires forall i :: 0 <= i < |v| ==> v[i] == if i == p then 0 else 1
    requires forall i :: 0 <= i < |w| - 1 ==> w[i] == 1
    requires w[|w| - 1] == 1 || (w[|w| - 1] == 2 && p != |w| - 1 && |w| >= 3)
    requires forall i :: 0 <= i < |v| ==> exact[i] == if i == p then 0.25 else 1.0
    ensures Dot(Reals(v), Reals(v)) > 0.0 && Dot(Reals(w), Reals(w)) > 0.0
    ensures Idistance(root, exact, w) < Idistance(root, exact, v)
  {
    hide Dot, IsRoot, Reals;
    var m := (|v| - 1) as real;
    DotsAround(v, exact, p, 0);
    RootSquare(root, m);
    if w[|w| - 1] == 1 {
      DotsAround(w, exact, p, 1);
      RootSquare(root, m + 1.0);
      NearerWithoutStep(m, root(m + 1.0, 2), root(m, 2));
    } else {
      DotsWithTwo(w, exact, p);
      RootSquare(root, m + 4.0);
      NearerWithoutTwo(m, root(m + 4.0, 2), root(m, 2));
    }
  }

  // ---------------------------------------------------------------------------
  // The theorem

  lemma ChosenAtLeastFloor(root: RootFunction, c: Cube)
    requires IsRoot(root) && c.Valid() && c.Accepts(0)
    ensures Choose(root, c).Chosen? && c.Accepts(Choose(root, c).mat)
    ensures c.Distance(root, 0) <= c.Distance(root, Choose(root, c).mat)
  {
    hide Cube.Valid, Cube.Accepts, IsRoot, Cube.Distance;
    BestBelowIsBest(c, root, MatMax(|c.x|), 0);
  }

  lemma FedIsFarther(root: RootFunction, kinds: seq<nat>, b: nat, c: Cube, mat: nat)
    requires IsRoot(root) && StarvedShape(root, kinds, b, c) && c.Accepts(0) && c.Accepts(mat)
    requires forall i :: 0 <= i < |c.x| ==> Vertex(c.floor, mat)[i] > 0
    ensures c.Distance(root, mat) < c.Distance(root, 0)
  {
    hide *;
    ShapeFacts(root, kinds, b, c);
    FedVertex(root, kinds, b, c, mat);
    if StockIgnored(kinds) && Before(b, |kinds|) != |kinds| - 1 { StarvedTwo(kinds, b); }
    FloorIsVertexZero(c.floor);
    DistanceIs(root, c, 0);
    DistanceIs(root, c, mat);
    FloorIsNearer(root, c.floor, Vertex(c.floor, mat), c.exact, Before(b, |c.x|));
  }

  lemma ShapeFacts(root: RootFunction, kinds: seq<nat>, b: nat, c: Cube)
    requires IsRoot(root) && StarvedShape(root, kinds, b, c)
    ensures c.Valid() && CanStarve(kinds, b) && |c.x| == |kinds| == |c.floor| == |c.exact| >= 2 && b < |kinds|
    ensures c.floor == StarvedFloor(b, |c.x|)
    ensures forall i :: 0 <= i < |c.x| ==> c.floor[i] == if i == Before(b, |c.x|) then 0 else 1
    ensures forall i :: 0 <= i < |c.x| ==> c.exact[i] == if i == Before(b, |c.x|) then 0.25 else 1.0
  {
    hide Hungry, CubeOf, Ready;
  }

  lemma DistanceIs(root: RootFunction, c: Cube, mat: nat)
    requires IsRoot(root) && c.Valid() && c.Accepts(mat)
    ensures var v := Reals(Vertex(c.floor, mat)); |v| == |c.exact| && Dot(v, v) > 0.0
    ensures c.Distance(root, mat) == Idistance(root, c.exact, Vertex(c.floor, mat))
  {
    VertexHasLength(c, mat);
    hide Vertex, Idistance, Dot, IsRoot;
  }

  lemma StarvedTwo(kinds: seq<nat>, b: nat)
    requires CanStarve(kinds, b) && !PriceIgnored(kinds) && StockIgnored(kinds) && Before(b, |kinds|) != |kinds| - 1
    ensures |kinds| >= 3
  {}

  /** The choice gives nothing somewhere. */
  lemma ChosenStarves(root: RootFunction, kinds: seq<nat>, b: nat, c: Cube)
    requires IsRoot(root) && StarvedShape(root, kinds, b, c) && c.Accepts(0)
    ensures Choose(root, c).Chosen?
    ensures exists i :: 0 <= i < |c.x| && Vertex(c.floor, Choose(root, c).mat)[i] <= 0
  {
    ChosenAtLeastFloor(root, c);
    var mat := Choose(root, c).mat;
    hide Vertex, Cube.Accepts, Cube.Distance, IsRoot, Cube.Valid, Choose, Ready, CubeOf, Hungry, CanStarve;
    if forall i :: 0 <= i < |c.x| ==> Vertex(c.floor, mat)[i] > 0 {
      FedIsFarther(root, kinds, b, c, mat);
    }
  }

  /** Orders of types that do not force positive flows: the draft found for the
      starved cycle has a node that gives nothing. */
  lemma StarvedDraft(root: RootFunction, kinds: seq<nat>, b: nat) returns (f: Tflow, g: Tflow)
    requires IsRoot(root) && CanStarve(kinds, b)
    ensures OfKinds(f.x, kinds) && FlowcMaximum(root, f) == Ok(Computed(Draft, g)) && !IsDraft(g)
  {
    hide *;
    StarveSize(kinds, b);
    var x := Starved(kinds, b);
    var c := StarvedCube(root, kinds, b);
    StarvedFloorAccepted(root, kinds, b, c);
    ChosenStarves(root, kinds, b, c);
    StarvedChecked(kinds, b);
    HungryProduct(kinds, b);
    f := FlowRecord(x, seq(|x|, i => 0));
    ShapeComputed(root, kinds, b, c, f);
    g := Kept(root, c).flow;
    KeptStarves(root, c);
  }

  lemma KeptStarves(root: RootFunction, c: Cube)
    requires IsRoot(root) && c.Valid() && Choose(root, c).Chosen?
    requires exists i :: 0 <= i < |c.x| && Vertex(c.floor, Choose(root, c).mat)[i] <= 0
    ensures Kept(root, c).status == Draft && !IsDraft(Kept(root, c).flow)
  {
    hide Choose, Vertex, IsRoot, Cube.Valid, Settled;
  }

  lemma ShapeComputed(root: RootFunction, kinds: seq<nat>, b: nat, c: Cube, f: Tflow)
    requires IsRoot(root) && StarvedShape(root, kinds, b, c) && f.x == Starved(kinds, b)
    requires 2 <= |f.x| <= FLOW_MAX_DIM && NonNegative(f.x) && DistinctOids(f.x) && !SomeStockEmpty(f.x)
    requires IgnoresOmega(f.x) <==> PriceIgnored(kinds)
    requires AllPriced(Hungry(kinds, b), PriceIgnored(kinds))
    requires ProdOmega(Hungry(kinds, b), PriceIgnored(kinds)) == 1.0
    ensures FlowcMaximum(root, f) == Ok(Kept(root, c)) && c.Valid()
  {
    hide CubeOf, AllPriced, IsRoot, Kept, Opened, NonNegative, DistinctOids, SomeStockEmpty, ProdOmega, Starved;
    hide CanStarve, PriceIgnored, IgnoresOmega, CalType, Stocked, Vertex;
    HungryReady(kinds, b);
    OpenedStocked(f.x);
  }

  lemma NotForcedStarves(kinds: seq<nat>) returns (b: nat)
    requires 2 <= |kinds| <= FLOW_MAX_DIM && !ForcesPositive(kinds)
    ensures CanStarve(kinds, b)
  {
    if PriceIgnored(kinds) {
      b := |kinds| - 1;
    } else if StockIgnored(kinds) && |kinds| == 2 {
      b := 0;
    } else {
      b :| 0 <= b < |kinds| && OrderType(kinds[b]) != ORDER_LIMIT;
    }
  }

  /** For orders of given types, quote flags included, every draft of every cycle of
      such orders gives something at each node if and only if the types force it. */
  lemma PositiveIff(root: RootFunction, kinds: seq<nat>)
    requires IsRoot(root) && 2 <= |kinds| <= FLOW_MAX_DIM
    ensures DraftsArePositive(root, kinds) <==> ForcesPositive(kinds)
  {
    hide FlowcMaximum, ForcesPositive, IsDraft, OfKinds, CanStarve;
    if ForcesPositive(kinds) {
      forall f: Tflow, g: Tflow | OfKinds(f.x, kinds) && FlowcMaximum(root, f) == Ok(Computed(Draft, g))
        ensures IsDraft(g)
      {
        ForcedIsPositive(root, kinds, f, g);
      }
    } else {
      var b := NotForcedStarves(kinds);
      var f, g := StarvedDraft(root, kinds, b);
    }
  }
}
