/** What a flow computed by the kernel guarantees, and when. */
module Guarantees {
  import opened Numeric
  import opened FlowTypes
  import opened Gains
  import opened ExactFlow
  import opened Rounding
  import opened Kernel

  /** The flow found is the vertex `mat` of the cube of the opened cycle. */
  ghost predicate FoundAt(root: RootFunction, x: seq<Tfl>, c: Cube, mat: nat, g: Tflow)
    requires IsRoot(root)
  {
    && 2 <= |x| <= FLOW_MAX_DIM
    && NonNegative(x) && DistinctOids(x) && !SomeStockEmpty(x)
    && Ready(Opened(x), IgnoresOmega(x))
    && (CalType(x) == CycleLimit ==> ProdOmega(Opened(x), IgnoresOmega(x)) >= 1.0)
    && CubeOf(root, Opened(x), IgnoresOmega(x)) == Ok(c)
    && Choose(root, c).Chosen? && Choose(root, c).mat == mat && c.Accepts(mat)
    && g.flowr == Vertex(c.floor, mat)
    && (forall i :: 0 <= i < |g.flowr| ==> 0 <= g.flowr[i] <= INT64_MAX)
    && g.x == Settled(Opened(x), g.flowr)
  }

  lemma RoundedFound(root: RootFunction, y: seq<Tfl>, ignoreLast: bool, g: Tflow) returns (c: Cube, mat: nat)
    requires IsRoot(root) && Ready(y, ignoreLast)
    requires Rounded(root, y, ignoreLast) == Ok(Computed(Draft, g))
    ensures CubeOf(root, y, ignoreLast) == Ok(c)
    ensures Choose(root, c).Chosen? && Choose(root, c).mat == mat && c.Accepts(mat)
    ensures g.flowr == Vertex(c.floor, mat)
    ensures forall i :: 0 <= i < |g.flowr| ==> 0 <= g.flowr[i] <= INT64_MAX
    ensures g.x == Settled(y, g.flowr)
  {
    hide CubeOf, Choose, Settled, Vertex, Ready, IsRoot;
    c := CubeOf(root, y, ignoreLast).value;
    mat := Choose(root, c).mat;
    VertexRange(c, mat);
  }

  lemma DraftFound(root: RootFunction, f: Tflow, g: Tflow) returns (c: Cube, mat: nat)
    requires IsRoot(root) && FlowcMaximum(root, f) == Ok(Computed(Draft, g))
    ensures FoundAt(root, f.x, c, mat, g)
  {
    hide CubeOf, Choose, Rounded, AllPriced, Stocked, ProdOmega, Vertex, DistinctOids, NonNegative, SomeStockEmpty;
    hide Opened, Settled, CalType, IgnoresOmega;
    OpenedStocked(f.x);
    c, mat := RoundedFound(root, Opened(f.x), IgnoresOmega(f.x), g);
  }

  // ---------------------------------------------------------------------------
  // Stocks

  /** No node gives more than its stock, and some stock is exhausted. */
  lemma DraftWithinStocks(root: RootFunction, f: Tflow, g: Tflow)
    requires IsRoot(root) && FlowcMaximum(root, f) == Ok(Computed(Draft, g))
    ensures var y := Opened(f.x);
            && |y| == |g.flowr|
            && (forall i :: 0 <= i < |y| ==> g.flowr[i] >= 0)
            && (forall i :: 0 <= i < |y| && IsDefined(y[i]) ==> g.flowr[i] <= y[i].qtt)
            && exists e :: 0 <= e < |y| && IsDefined(y[e]) && g.flowr[e] == y[e].qtt
  {
    hide FlowcMaximum, CubeOf, Choose, Settled, Opened, IgnoresOmega, Omegas, LimitsObserved, AllPriced;
    hide CalType, ProdOmega, DistinctOids, NonNegative, SomeStockEmpty, IsRoot, FloorsUpTo;
    var c, mat := DraftFound(root, f, g);
    var y := Opened(f.x);
    assert StockAllows(y, g.flowr);
    FloorsValid(y, c.exact, c.ex, c.floor);
    assert g.flowr[c.ex] == c.floor[c.ex] == y[c.ex].qtt;
  }

  ghost predicate WithinOne(v: seq<int>, exact: seq<real>) {
    |v| == |exact| && forall i :: 0 <= i < |v| ==> -1.0 < v[i] as real - exact[i] <= 1.0
  }

  lemma VertexNear(c: Cube, mat: nat)
    requires c.Valid() && c.floor[c.ex] as real == c.exact[c.ex]
    requires forall i :: 0 <= i < |c.x| && i != c.ex ==>
               c.floor[i] as real <= c.exact[i] < (c.floor[i] + 1) as real
    ensures WithinOne(Vertex(c.floor, mat), c.exact)
  {
    var v := Vertex(c.floor, mat);
    hide Vertex;
    forall i | 0 <= i < |v|
      ensures -1.0 < v[i] as real - c.exact[i] <= 1.0
    {
      assert v[i] == c.floor[i] || v[i] == c.floor[i] + 1;
    }
  }

  /** Each flow is within one of the exact flow, and equals it at the exhausted
      node. */
  lemma DraftNearExact(root: RootFunction, f: Tflow, g: Tflow)
    requires IsRoot(root) && FlowcMaximum(root, f) == Ok(Computed(Draft, g))
    ensures |f.x| >= 2 && Ready(Opened(f.x), IgnoresOmega(f.x))
    ensures var exact := Exact(root, Opened(f.x), IgnoresOmega(f.x));
            var ex := Exhausted(root, Opened(f.x), IgnoresOmega(f.x));
            && WithinOne(g.flowr, exact)
            && g.flowr[ex] as real == exact[ex]
  {
    var c, mat := DraftFound(root, f, g);
    var y, ig := Opened(f.x), IgnoresOmega(f.x);
    hide Exact, Exhausted, Opened, IgnoresOmega, Settled, WithinOne, CubeOf, Choose;
    ExactFits(root, y, ig);
    FloorsFound(root, y, ig, c);
    assert !BitSetInMatrix(mat, c.ex);
    VertexNear(c, mat);
  }

  lemma FloorsFound(root: RootFunction, x: seq<Tfl>, ignoreLast: bool, c: Cube)
    requires IsRoot(root) && Ready(x, ignoreLast) && CubeOf(root, x, ignoreLast) == Ok(c)
    ensures c.floor[c.ex] == x[c.ex].qtt
    ensures forall i :: 0 <= i < |c.x| && i != c.ex ==>
              c.floor[i] as real <= c.exact[i] < (c.floor[i] + 1) as real
  {
    FloorsValid(x, c.exact, c.ex, c.floor);
  }

  // ---------------------------------------------------------------------------
  // Limits

  lemma IntsAsReals(a: int, b: int)
    ensures (a * b) as real == a as real * b as real
  {}

  /** The ratio test on two integers is the cross product on their prices. */
  lemma RatioWithinCross(b: Tfl, give: int, take: int)
    requires Priced(b) && take >= 0
    ensures RatioWithin(give, take, Omega(b)) <==> GivesWithinLimit(b, give, take)
  {
    if take > 0 {
      RatioCross(give as real, take as real, b.qttProv as real, b.qttRequ as real);
      IntsAsReals(give, b.qttRequ);
      IntsAsReals(b.qttProv, take);
    }
  }

  /** What the limit of an order is worth on the quantities given and received. */
  ghost predicate GivesWithinLimit(b: Tfl, give: int, take: int) {
    take > 0 && give * b.qttRequ <= b.qttProv * take
  }

  /** An order that is LIMIT gives at most its price for what it receives, and
      receives something. */
  lemma DraftObservesLimit(root: RootFunction, f: Tflow, g: Tflow, k: nat)
    requires IsRoot(root) && FlowcMaximum(root, f) == Ok(Computed(Draft, g))
    requires k < |f.x| && f.x[k].IsLimit() && !(IgnoresOmega(f.x) && k == |f.x| - 1)
    ensures |g.flowr| == |f.x|
    ensures GivesWithinLimit(f.x[k], g.flowr[k], g.flowr[Before(k, |f.x|)])
  {
    hide FlowcMaximum, CubeOf, Choose, Settled, Vertex, Opened, IgnoresOmega, Omegas, GivesWithinLimit, AllPriced;
    hide CalType, ProdOmega, DistinctOids, NonNegative, SomeStockEmpty, IsRoot;
    var c, mat := DraftFound(root, f, g);
    OpenedKeepsPrice(f.x, k);
    LimitsAsQuantities(c, g.flowr, k);
    SamePriceSameLimit(c.x[k], f.x[k], g.flowr[k], g.flowr[Before(k, |f.x|)]);
  }

  lemma SamePriceSameLimit(a: Tfl, b: Tfl, give: int, take: int)
    requires a.qttRequ == b.qttRequ && a.qttProv == b.qttProv
    ensures GivesWithinLimit(a, give, take) == GivesWithinLimit(b, give, take)
  {}

  lemma OpenedKeepsPrice(x: seq<Tfl>, k: nat)
    requires |x| >= 1 && k < |x|
    ensures var y := Opened(x)[k];
            y.qttRequ == x[k].qttRequ && y.qttProv == x[k].qttProv && y.kind == x[k].kind && y.own == x[k].own
  {}

  lemma LimitsAsQuantities(c: Cube, v: seq<int>, k: nat)
    requires c.Valid() && |v| == |c.x| && c.Admissible(v) && k < |v|
    requires AllPriced(c.x, c.ignoreLast) && c.omega == Omegas(c.x, c.ignoreLast)
    requires forall i :: 0 <= i < |v| ==> v[i] >= 0
    requires c.x[k].IsLimit() && !(c.ignoreLast && k == |v| - 1)
    ensures GivesWithinLimit(c.x[k], v[k], v[Before(k, |v|)])
  {
    assert NodeLimitObserved(c.x, c.omega, v, c.ignoreLast, k);
    OmegaAt(c.x, c.ignoreLast, k);
    hide Omegas, Omega, RatioWithin;
    RatioWithinCross(c.x[k], v[k], v[Before(k, |v|)]);
  }

  lemma OmegaAt(x: seq<Tfl>, ignoreLast: bool, k: nat)
    requires |x| >= 1 && AllPriced(x, ignoreLast) && k < |x| && !(ignoreLast && k == |x| - 1)
    ensures Priced(x[k]) && Omegas(x, ignoreLast)[k] == Omega(x[k])
  {
    assert PricedNodes(x, ignoreLast)[k] == x[k];
  }

  // ---------------------------------------------------------------------------
  // A price that is set

  lemma SetPriceProduct(path: seq<real>, a: int, b: int, w: real)
    requires b > 0 && PriceNotBelowOne(a, b, Prod(path)) && w == a as real / b as real
    ensures Prod(path + [w]) >= 1.0
  {
    ProdSnoc(path, w);
  }

  lemma SettledPrices(y: seq<Tfl>, v: seq<int>)
    requires |y| == |v| >= 2 && forall i :: 0 <= i < |v| ==> 0 < v[i] <= INT64_MAX
    requires IgnoresOmega(y) && AllPriced(y, true) && y[|y| - 1].proba != 0.0
    ensures var z, n := Settled(y, v), |y|;
            && AllPriced(z, false)
            && z[n - 1].qttRequ == v[n - 2] && z[n - 1].qttProv == v[n - 1]
            && Omegas(z, false) == OmegaPath(PricedNodes(y, true)) + [v[n - 1] as real / v[n - 2] as real]
  {
    var z, n := Settled(y, v), |y|;
    forall i | 0 <= i < n
      ensures Priced(z[i])
    {
      if i < n - 1 { assert z[i] == PricedNodes(y, true)[i]; }
    }
    assert PricedNodes(z, false) == z;
    forall i | 0 <= i < n - 1
      ensures Omega(z[i]) == OmegaPath(PricedNodes(y, true))[i]
    {
      assert z[i] == PricedNodes(y, true)[i];
    }
  }

  /** When the price of the last node is ignored, a draft that can be executed sets
      it to the quantities exchanged, and with it the prices of the cycle multiply
      to at least one. */
  lemma DraftSetsPrice(root: RootFunction, f: Tflow, g: Tflow)
    requires IsRoot(root) && FlowcMaximum(root, f) == Ok(Computed(Draft, g)) && IsDraft(g)
    requires |f.x| >= 1 && IgnoresOmega(f.x) && f.x[|f.x| - 1].proba != 0.0
    ensures var n := |g.x|;
            && g.x[n - 1].qttRequ == g.flowr[n - 2] && g.x[n - 1].qttProv == g.flowr[n - 1]
            && AllPriced(g.x, false) && ProdOmega(g.x, false) >= 1.0
  {
    hide *;
    var c, mat := DraftFound(root, f, g);
    var y, v, n := Opened(f.x), g.flowr, |f.x|;
    LastOpened(f.x);
    FoundHoldsPrice(root, f.x, c, mat, g);
    DraftPositive(g);
    SettledPrices(y, v);
    SetPriceProduct(OmegaPath(PricedNodes(y, true)), v[n - 1], v[n - 2], v[n - 1] as real / v[n - 2] as real);
    ProdOfOmegas(g.x, false);
  }

  lemma DraftPositive(g: Tflow)
    requires IsDraft(g)
    ensures forall i :: 0 <= i < |g.flowr| ==> g.flowr[i] > 0
  {}

  lemma FoundHoldsPrice(root: RootFunction, x: seq<Tfl>, c: Cube, mat: nat, g: Tflow)
    requires IsRoot(root) && FoundAt(root, x, c, mat, g) && IgnoresOmega(x)
    ensures var y, n := Opened(x), |x|;
            && n >= 2 && |g.flowr| == n && (forall i :: 0 <= i < n ==> 0 <= g.flowr[i] <= INT64_MAX)
            && g.x == Settled(y, g.flowr)
            && AllPriced(y, true) && (forall i :: 0 <= i < |PricedNodes(y, true)| ==> Priced(PricedNodes(y, true)[i]))
            && PriceNotBelowOne(g.flowr[n - 1], g.flowr[n - 2], Prod(OmegaPath(PricedNodes(y, true))))
  {
    hide CubeOf, Choose, Settled, Vertex, Opened, IgnoresOmega, Prod, PriceNotBelowOne, LimitsObserved, StockAllows;
    hide CalType, ProdOmega, DistinctOids, NonNegative, SomeStockEmpty, IsRoot, Cube.Valid, BitSetInMatrix;
    CubePathPrice(root, Opened(x), c);
    assert c.Admissible(g.flowr);
  }

  lemma LastOpened(x: seq<Tfl>)
    requires |x| >= 1
    ensures IgnoresOmega(Opened(x)) == IgnoresOmega(x)
    ensures Opened(x)[|x| - 1].proba == x[|x| - 1].proba
  {}

  lemma CubePathPrice(root: RootFunction, y: seq<Tfl>, c: Cube)
    requires IsRoot(root) && Ready(y, true) && CubeOf(root, y, true) == Ok(c)
    ensures c.ignoreLast && c.prodPath == Prod(OmegaPath(PricedNodes(y, true)))
  {
    hide Exact, Exhausted, FloorsUpTo, Prod;
  }

  /** The exact flow of the kernel closes around the cycle. */
  lemma ExactCloses(root: RootFunction, x: seq<Tfl>, ignoreLast: bool, k: nat)
    requires IsRoot(root) && Ready(x, ignoreLast) && k < |x|
    ensures ClosesAt(Exact(root, x, ignoreLast), Corrected(root, x, ignoreLast), k)
  {
    hide ClosesAt, Corrected, Piom, FluxExact;
    FluxExactCloses(x, Corrected(root, x, ignoreLast), k);
  }

  /** The exact flow of the kernel is positive, fits the stocks, and takes the
      whole stock of the exhausted node. */
  lemma ExactFits(root: RootFunction, x: seq<Tfl>, ignoreLast: bool)
    requires IsRoot(root) && Ready(x, ignoreLast)
    ensures var f := Exact(root, x, ignoreLast);
            var ex := Exhausted(root, x, ignoreLast);
            Positive(f) && Fits(x, f) && f[ex] == x[ex].qtt as real
  {
    FluxExactFits(x, Piom(Corrected(root, x, ignoreLast)));
  }

  lemma CorrectedAtMost(root: RootFunction, x: seq<Tfl>, ignoreLast: bool, k: nat)
    requires IsRoot(root) && Ready(x, ignoreLast) && ProdOmega(x, ignoreLast) >= 1.0 && k < |x|
    ensures Corrected(root, x, ignoreLast)[k] <= Omegas(x, ignoreLast)[k]
  {
    CorrectedAtMostOmega(root, Omegas(x, ignoreLast), Grouped(x), ProdOmega(x, ignoreLast), k);
  }

  /** With a gain to share, the exact flow observes the limit of every order. */
  lemma ExactObservesLimits(root: RootFunction, x: seq<Tfl>, ignoreLast: bool, k: nat)
    requires IsRoot(root) && Ready(x, ignoreLast) && ProdOmega(x, ignoreLast) >= 1.0 && k < |x|
    ensures LimitedAt(Exact(root, x, ignoreLast), Omegas(x, ignoreLast), k)
  {
    hide Exact, Corrected, Omegas, ClosesAt, LimitedAt;
    ExactFits(root, x, ignoreLast);
    CorrectedAtMost(root, x, ignoreLast, k);
    ExactCloses(root, x, ignoreLast, k);
    ClosingBelowIsLimited(Exact(root, x, ignoreLast), Corrected(root, x, ignoreLast), Omegas(x, ignoreLast), k);
  }

  // ---------------------------------------------------------------------------
  // Cycles whose orders are all LIMIT

  ghost predicate AllLimit(x: seq<Tfl>) {
    forall i :: 0 <= i < |x| ==> x[i].IsLimit()
  }

  ghost predicate AllRatiosWithin(v: seq<int>, omega: seq<real>)
    requires |v| == |omega|
  {
    forall k :: 0 <= k < |v| ==> RatioWithin(v[k], v[Before(k, |v|)], omega[k])
  }

  lemma RatiosWithinPositive(v: seq<int>, omega: seq<real>)
    requires |v| == |omega| && AllRatiosWithin(v, omega)
    requires forall i :: 0 <= i < |v| ==> v[i] >= 0
    ensures forall i :: 0 <= i < |v| ==> v[i] > 0
  {
    forall i | 0 <= i < |v|
      ensures v[i] > 0
    {
      var next := if i == |v| - 1 then 0 else i + 1;
      assert Before(next, |v|) == i;
      assert RatioWithin(v[next], v[i], omega[next]);
    }
  }

  function Step(v: seq<int>, k: nat): (r: real)
    requires k < |v| && forall i :: 0 <= i < |v| ==> v[i] > 0
    ensures r > 0.0 && v[k] as real == r * v[Before(k, |v|)] as real
  {
    Quotient(v[k] as real, v[Before(k, |v|)] as real)
  }

  function Steps(v: seq<int>): (r: seq<real>)
    requires forall i :: 0 <= i < |v| ==> v[i] > 0
    ensures |r| == |v| && Positive(r)
    ensures forall k :: 0 <= k < |v| ==> r[k] == Step(v, k)
  {
    seq(|v|, k requires 0 <= k < |v| => Step(v, k))
  }

  lemma TelescopeStep(p: real, l: real, a: real, r: real, b: real)
    requires p * l == a && b == r * a
    ensures p * r * l == b
  {
    assert p * r * l == r * (p * l);
  }

  lemma EmptyProduct(s: seq<real>, l: real)
    requires s == []
    ensures Prod(s) * l == l
  {}

  lemma {:induction false} StepsTelescope(v: seq<int>, k: nat)
    requires k < |v| && forall i :: 0 <= i < |v| ==> v[i] > 0
    ensures Prod(Steps(v)[..k + 1]) * v[|v| - 1] as real == v[k] as real
  {
    hide Prod, Step;
    var r, l := Steps(v), v[|v| - 1] as real;
    ProdTake(r, k);
    assert r[k] == Step(v, k);
    if k == 0 {
      EmptyProduct(r[..0], l);
      TelescopeStep(Prod(r[..0]), l, l, r[0], v[0] as real);
    } else {
      StepsTelescope(v, k - 1);
      TelescopeStep(Prod(r[..k]), l, v[k - 1] as real, r[k], v[k] as real);
    }
  }

  lemma StepWithin(v: seq<int>, omega: seq<real>, k: nat)
    requires |v| == |omega| && k < |v| && forall i :: 0 <= i < |v| ==> v[i] > 0
    requires RatioWithin(v[k], v[Before(k, |v|)], omega[k])
    ensures Step(v, k) <= omega[k]
  {}

  lemma OneByCancellingSelf(p: real, l: real)
    requires p * l == l && l > 0.0
    ensures p == 1.0
  {
    assert p == l / l;
  }

  /** Integers that observe the price of every node all round a cycle are all
      positive, and exist only when the prices multiply to at least one. */
  lemma LimitsAllRound(v: seq<int>, omega: seq<real>)
    requires |v| == |omega| >= 1 && AllRatiosWithin(v, omega)
    requires forall i :: 0 <= i < |v| ==> v[i] >= 0
    ensures forall i :: 0 <= i < |v| ==> v[i] > 0
    ensures Prod(omega) >= 1.0
  {
    hide *;
    RatiosWithinPositive(v, omega);
    var r, n := Steps(v), |v|;
    StepsCancel(v);
    OneByCancellingSelf(Prod(r), v[n - 1] as real);
    forall k | 0 <= k < n
      ensures r[k] <= omega[k]
    {
      StepBound(v, omega, k);
    }
    ProdMonoOf(r, omega);
  }

  lemma StepsCancel(v: seq<int>)
    requires |v| >= 1 && forall i :: 0 <= i < |v| ==> v[i] > 0
    ensures Prod(Steps(v)) * v[|v| - 1] as real == v[|v| - 1] as real
  {
    hide *;
    StepsTelescope(v, |v| - 1);
    assert Steps(v)[..|v| - 1 + 1] == Steps(v);
  }

  lemma StepBound(v: seq<int>, omega: seq<real>, k: nat)
    requires |v| == |omega| && k < |v| && AllRatiosWithin(v, omega)
    requires forall i :: 0 <= i < |v| ==> v[i] > 0
    ensures Steps(v)[k] <= omega[k]
  {
    StepWithin(v, omega, k);
  }

  lemma ProdMonoOf(r: seq<real>, omega: seq<real>)
    requires |r| == |omega| && Positive(r) && forall k :: 0 <= k < |r| ==> r[k] <= omega[k]
    ensures Prod(r) <= Prod(omega)
  {
    ProdMono(r, omega);
  }

  /** Refusing a cycle of LIMIT orders whose prices multiply to less than one
      loses nothing: no flow at all observes its limits. */
  lemma RefusalLosesNothing(x: seq<Tfl>, v: seq<int>)
    requires |x| == |v| >= 1 && AllLimit(x) && AllPriced(x, false) && ProdOmega(x, false) < 1.0
    requires forall i :: 0 <= i < |v| ==> v[i] >= 0
    ensures !LimitsObserved(x, Omegas(x, false), v, false)
  {
    if LimitsObserved(x, Omegas(x, false), v, false) {
      LimitsAllRoundOf(x, v);
      ProdOfOmegas(x, false);
    }
  }

  lemma LimitsAllRoundOf(x: seq<Tfl>, v: seq<int>)
    requires |x| == |v| >= 1 && AllLimit(x) && AllPriced(x, false)
    requires forall i :: 0 <= i < |v| ==> v[i] >= 0
    requires LimitsObserved(x, Omegas(x, false), v, false)
    ensures forall i :: 0 <= i < |v| ==> v[i] > 0
    ensures Prod(Omegas(x, false)) >= 1.0
  {
    var omega := Omegas(x, false);
    hide Omegas, RatioWithin, Prod;
    forall k | 0 <= k < |v|
      ensures RatioWithin(v[k], v[Before(k, |v|)], omega[k])
    {
      assert NodeLimitObserved(x, omega, v, false, k);
    }
    LimitsAllRound(v, omega);
  }

  /** In a cycle of LIMIT orders whose prices are all read, every order of a
      draft gives something. */
  lemma AllLimitDraftIsPositive(root: RootFunction, f: Tflow, g: Tflow)
    requires IsRoot(root) && FlowcMaximum(root, f) == Ok(Computed(Draft, g))
    requires AllLimit(f.x) && |f.x| >= 1 && !IgnoresOmega(f.x)
    ensures IsDraft(g)
  {
    var c, mat := DraftFound(root, f, g);
    forall k | 0 <= k < |f.x|
      ensures c.x[k].IsLimit()
    {
      OpenedKeepsPrice(f.x, k);
    }
    LimitsAllRoundOf(c.x, g.flowr);
  }

  // ---------------------------------------------------------------------------
  // When a flow is found

  lemma {:induction false} NoBitInZero(k: nat)
    ensures !Bit(0, k)
  {
    if k > 0 { NoBitInZero(k - 1); }
  }

  lemma FloorIsVertexZero(floor: seq<int>)
    ensures Vertex(floor, 0) == floor
  {
    forall j | 0 <= j < |floor|
      ensures !BitSetInMatrix(0, j)
    {
      NoBitInZero(j % NMATBITS);
    }
  }

  /** The exact flow never overflows the rounding when every stock is defined. */
  lemma FloorsDefined(x: seq<Tfl>, exact: seq<real>, ex: nat)
    requires Stocked(x) && |exact| == |x| && ex < |x| && Positive(exact) && Fits(x, exact)
    requires forall i :: 0 <= i < |x| ==> IsDefined(x[i]) && x[i].qtt <= INT64_MAX_DOUBLE
    ensures FloorsUpTo(x, exact, ex, |x|).Ok?
  {
    hide FloorsUpTo;
    forall i | 0 <= i < |x|
      ensures FloorOf(x[i], exact[i], i == ex).Ok?
    {
      assert 0.0 <= exact[i] < (INT64_MAX_DOUBLE + 1) as real;
    }
  }

  /** No sanity error of the rounding can be raised: its only error is a flow
      above the range of int64. */
  lemma OnlyRangeErrors(root: RootFunction, x: seq<Tfl>, ignoreLast: bool)
    requires IsRoot(root) && Ready(x, ignoreLast)
    ensures CubeOf(root, x, ignoreLast).Err? ==> CubeOf(root, x, ignoreLast).error == CannotBeRounded
  {
    var exact, ex := Exact(root, x, ignoreLast), Exhausted(root, x, ignoreLast);
    ExactFits(root, x, ignoreLast);
    hide Exact, Exhausted;
    FloorErrors(x, exact, ex, |x|);
  }

  lemma {:induction false} FloorErrors(x: seq<Tfl>, exact: seq<real>, ex: nat, n: nat)
    requires |exact| == |x| && ex < |x| && n <= |x|
    requires IsDefined(x[ex]) && exact[ex] == x[ex].qtt as real
    ensures FloorsUpTo(x, exact, ex, n).Err? ==> FloorsUpTo(x, exact, ex, n).error == CannotBeRounded
  {
    if n > 0 { FloorErrors(x, exact, ex, n - 1); }
  }

  /** A cycle without quote flags, whose nodes are priced and stocked. */
  ghost predicate Plain(x: seq<Tfl>) {
    && 2 <= |x| <= FLOW_MAX_DIM
    && DistinctOids(x)
    && !IgnoresQtt(x)
    && forall i :: 0 <= i < |x| ==> Priced(x[i]) && x[i].proba > 0.0 && 0 < x[i].qtt <= INT64_MAX_DOUBLE
  }

  lemma PlainReady(x: seq<Tfl>)
    requires Plain(x)
    ensures 2 <= |x| <= FLOW_MAX_DIM && DistinctOids(x) && NonNegative(x) && !SomeStockEmpty(x)
    ensures Opened(x) == x && !IgnoresOmega(x) && !IgnoresQtt(x)
    ensures Ready(x, false)
  {}

  lemma PlainCube(root: RootFunction, x: seq<Tfl>)
    requires IsRoot(root) && Plain(x)
    ensures Ready(x, false) && CubeOf(root, x, false).Ok?
  {
    PlainReady(x);
    ExactFits(root, x, false);
    FloorsDefined(x, Exact(root, x, false), Exhausted(root, x, false));
  }

  /** On a plain cycle the kernel raises nothing and leaves the nodes alone. */
  lemma PlainComputes(root: RootFunction, f: Tflow)
    requires IsRoot(root) && Plain(f.x)
    ensures FlowcMaximum(root, f).Ok?
    ensures FlowcMaximum(root, f).value.flow.x == f.x
  {
    hide FlowOpened, IsRoot, Plain, Opened, NonNegative, DistinctOids, SomeStockEmpty, IgnoresOmega, IgnoresQtt;
    PlainReady(f.x);
    PlainOpened(root, f.x);
  }

  lemma PlainOpened(root: RootFunction, x: seq<Tfl>)
    requires IsRoot(root) && Plain(x)
    ensures |x| >= 2 && Stocked(x)
    ensures FlowOpened(root, x).Ok? && FlowOpened(root, x).value.flow.x == x
  {
    hide Rounded, AllPriced, IsRoot, Plain, IgnoresOmega, IgnoresQtt, CalType, ProdOmega, Stocked;
    PlainReady(x);
    PlainRounded(root, x);
  }

  lemma PlainRounded(root: RootFunction, x: seq<Tfl>)
    requires IsRoot(root) && Plain(x)
    ensures Ready(x, false) && Rounded(root, x, false).Ok? && Rounded(root, x, false).value.flow.x == x
  {
    hide CubeOf, IsRoot, Plain, Ready, Kept, IgnoresOmega, IgnoresQtt;
    PlainReady(x);
    PlainCube(root, x);
  }

  /** What is left when a stock is empty is not a draft. */
  lemma EmptyStockDrops(root: RootFunction, f: Tflow)
    requires IsRoot(root) && 2 <= |f.x| <= FLOW_MAX_DIM && DistinctOids(f.x) && NonNegative(f.x)
    requires SomeStockEmpty(f.x)
    ensures FlowcMaximum(root, f) == Ok(Computed(Undefined, Dropped(f.x)))
    ensures !IsDraft(Dropped(f.x))
  {
    assert Dropped(f.x).flowr[0] == QTTFLOW_UNDEFINED;
  }

  /** A cycle is rounded exactly when an admissible vector is in its cube. */
  lemma DraftIffAdmissible(root: RootFunction, c: Cube)
    requires IsRoot(root) && c.Valid()
    ensures Choose(root, c).Chosen? <==> exists v :: CubeVertex(c, v) && c.Admissible(v)
  {
    if v :| CubeVertex(c, v) && c.Admissible(v) {
      var mat := AdmissibleMask(c, v);
      BestBelowIsBest(c, root, MatMax(|c.x|), mat);
    }
    if Choose(root, c).Chosen? {
      var v := Vertex(c.floor, Choose(root, c).mat);
      assert VisitedAt(c, Choose(root, c).mat, v);
      VisitsExactlyTheCube(c, v);
    }
  }

  lemma AdmissibleMask(c: Cube, v: seq<int>) returns (mat: nat)
    requires c.Valid() && CubeVertex(c, v) && c.Admissible(v)
    ensures mat < MatMax(|c.x|) && c.Accepts(mat) && v == Vertex(c.floor, mat)
  {
    VisitsExactlyTheCube(c, v);
    mat :| VisitedAt(c, mat, v);
  }

  /** No admissible vector of the cube is at a smaller angle from the exact flow
      than the one chosen. */
  lemma ChosenIsNearest(root: RootFunction, c: Cube, v: seq<int>)
    requires IsRoot(root) && c.Valid() && Dot(c.exact, c.exact) > 0.0
    requires CubeVertex(c, v) && c.Admissible(v)
    ensures Choose(root, c).Chosen?
    ensures var w := Vertex(c.floor, Choose(root, c).mat);
            && Dot(Reals(v), Reals(v)) > 0.0 && Dot(Reals(w), Reals(w)) > 0.0
            && Cosine(root, Reals(v), c.exact) <= Cosine(root, Reals(w), c.exact)
  {
    var mat := AdmissibleMask(c, v);
    var b := Choose(root, c);
    BestBelowIsBest(c, root, MatMax(|c.x|), mat);
    VertexHasLength(c, mat);
    VertexHasLength(c, b.mat);
    DistanceOrdersCosines(root, c.exact, v, Vertex(c.floor, b.mat));
  }

  /** A plain cycle without LIMIT order always gets a flow. */
  lemma AllBestIsFound(root: RootFunction, f: Tflow)
    requires IsRoot(root) && Plain(f.x) && CalType(f.x) == CycleBest
    ensures FlowcMaximum(root, f).Ok? && FlowcMaximum(root, f).value.status == Draft
  {
    hide Rounded, Ready, Dropped, CalType, IsRoot, Cube.BestBelow;
    PlainReady(f.x);
    AllBestRounds(root, f.x);
  }

  lemma AllBestRounds(root: RootFunction, x: seq<Tfl>)
    requires IsRoot(root) && Plain(x) && CalType(x) == CycleBest
    ensures Ready(x, false) && Rounded(root, x, false).Ok? && Rounded(root, x, false).value.status == Draft
  {
    PlainCube(root, x);
    FloorChosen(root, x, CubeOf(root, x, false).value);
    hide CubeOf, Kept, Ready, Choose, CalType, Plain;
  }

  lemma FloorChosen(root: RootFunction, x: seq<Tfl>, c: Cube)
    requires IsRoot(root) && Ready(x, false) && CubeOf(root, x, false) == Ok(c) && CalType(x) == CycleBest
    ensures Choose(root, c).Chosen?
  {
    hide CubeOf, Ready, Cube.Valid, Cube.Accepts, CalType, IsRoot, Cube.BestBelow;
    FloorAccepted(root, x, c);
    BestBelowIsBest(c, root, MatMax(|c.x|), 0);
  }

  lemma FloorAccepted(root: RootFunction, x: seq<Tfl>, c: Cube)
    requires IsRoot(root) && Ready(x, false) && CubeOf(root, x, false) == Ok(c)
    requires CalType(x) == CycleBest
    ensures c.Accepts(0)
  {
    hide Exact, Exhausted, CubeOf, Vertex, Stocked, AllPriced, IsRoot, RatioWithin;
    FloorIsVertexZero(c.floor);
    NoBitInZero(c.ex % NMATBITS);
    FloorsFound(root, x, false, c);
    ExactFits(root, x, false);
    forall k | 0 <= k < |x| && IsDefined(x[k])
      ensures c.floor[k] <= x[k].qtt
    {
      if k != c.ex { assert c.floor[k] as real <= c.exact[k] <= x[k].qtt as real; }
    }
  }
}
