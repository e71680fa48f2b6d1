/** What the kernel reads of a cycle: not the ids of the last node, nor its prices
    when they are ignored. */
module Congruence {
  import opened Numeric
  import opened FlowTypes
  import opened Gains
  import opened ExactFlow
  import opened Rounding
  import opened Kernel

  /** The same node, but for its ids, and for its prices when they are not read. */
  predicate NodeAlike(a: Tfl, b: Tfl, ignored: bool) {
    && a.kind == b.kind && a.own == b.own && a.qtt == b.qtt && a.proba == b.proba
    && (!ignored ==> a.qttRequ == b.qttRequ && a.qttProv == b.qttProv)
  }

  /** The same nodes, but for what is not read of the last one. */
  ghost predicate Alike(x: seq<Tfl>, y: seq<Tfl>, ignoreLast: bool) {
    && |x| == |y| >= 2
    && (forall i :: 0 <= i < |x| - 1 ==> x[i] == y[i])
    && NodeAlike(x[|x| - 1], y[|x| - 1], ignoreLast)
  }

  function Stocks(x: seq<Tfl>): (q: seq<int>)
    ensures |q| == |x| && forall i :: 0 <= i < |x| ==> q[i] == x[i].qtt
  {
    seq(|x|, i requires 0 <= i < |x| => x[i].qtt)
  }

  /** The tightest node, from the stocks alone. */
  function TightestStock(q: seq<int>, piom: seq<real>, n: nat): Tightest
    requires n <= |q| == |piom| && Positive(piom)
  {
    if n == 0 then Tightest(-1.0, 0)
    else
      var t := TightestStock(q, piom, n - 1);
      if q[n - 1] <= 0 then t
      else
        var c := q[n - 1] as real / piom[n - 1];
        if t.min == -1.0 || c < t.min then Tightest(c, n - 1) else t
  }

  lemma {:induction false} TightestIsOfStocks(x: seq<Tfl>, piom: seq<real>, n: nat)
    requires Stocked(x) && |piom| == |x| && Positive(piom) && n <= |x|
    ensures TightestOf(x, piom, n) == TightestStock(Stocks(x), piom, n)
  {
    if n > 0 {
      TightestIsOfStocks(x, piom, n - 1);
      assert x[n - 1].qtt <= 0 <==> !IsDefined(x[n - 1]);
    }
  }

  lemma SameTightest(x: seq<Tfl>, y: seq<Tfl>, ignoreLast: bool, piom: seq<real>)
    requires Alike(x, y, ignoreLast) && Stocked(x) && Stocked(y) && |piom| == |x| && Positive(piom)
    ensures TightestOf(x, piom, |x|) == TightestOf(y, piom, |y|)
  {
    assert Stocks(x) == Stocks(y);
    hide *;
    TightestIsOfStocks(x, piom, |x|);
    TightestIsOfStocks(y, piom, |y|);
  }

  lemma {:induction false} SameFloors(x: seq<Tfl>, y: seq<Tfl>, ignoreLast: bool, exact: seq<real>, ex: nat, n: nat)
    requires Alike(x, y, ignoreLast) && |exact| == |x| && n <= |x|
    ensures FloorsUpTo(x, exact, ex, n) == FloorsUpTo(y, exact, ex, n)
  {
    hide FloorInt64;
    if n > 0 { SameFloors(x, y, ignoreLast, exact, ex, n - 1); }
  }

  /** The prices that are read are the same. */
  lemma SamePrices(x: seq<Tfl>, y: seq<Tfl>, ignoreLast: bool)
    requires Alike(x, y, ignoreLast)
    ensures AllPriced(x, ignoreLast) <==> AllPriced(y, ignoreLast)
    ensures AllPriced(x, ignoreLast) ==>
              OmegaPath(PricedNodes(x, ignoreLast)) == OmegaPath(PricedNodes(y, ignoreLast))
  {
    var p, q := PricedNodes(x, ignoreLast), PricedNodes(y, ignoreLast);
    assert |p| == |q| && forall i :: 0 <= i < |p| ==> p[i].qttRequ == q[i].qttRequ && p[i].qttProv == q[i].qttProv;
  }

  lemma SameOwners(x: seq<Tfl>, y: seq<Tfl>, ignoreLast: bool)
    requires Alike(x, y, ignoreLast)
    ensures Grouped(x) == Grouped(y) && CalType(x) == CalType(y)
    ensures Stocked(x) <==> Stocked(y)
  {
    assert OwnersOf(x) == OwnersOf(y);
    assert forall i :: 0 <= i < |x| ==> x[i].kind == y[i].kind && x[i].qtt == y[i].qtt;
  }

  lemma AlikeReady(x: seq<Tfl>, y: seq<Tfl>, ignoreLast: bool)
    requires Alike(x, y, ignoreLast) && Ready(x, ignoreLast)
    ensures Ready(y, ignoreLast)
    ensures Omegas(x, ignoreLast) == Omegas(y, ignoreLast) && Grouped(x) == Grouped(y)
    ensures ProdOmega(x, ignoreLast) == ProdOmega(y, ignoreLast)
    ensures PathPrice(x, ignoreLast) == PathPrice(y, ignoreLast)
  {
    SamePrices(x, y, ignoreLast);
    SameOwners(x, y, ignoreLast);
    hide AllPriced, OmegaPath, Stocked, Alike;
  }

  lemma SameExact(root: RootFunction, x: seq<Tfl>, y: seq<Tfl>, ignoreLast: bool)
    requires IsRoot(root) && Alike(x, y, ignoreLast) && Ready(x, ignoreLast)
    ensures Ready(y, ignoreLast)
    ensures Exact(root, x, ignoreLast) == Exact(root, y, ignoreLast)
    ensures Exhausted(root, x, ignoreLast) == Exhausted(root, y, ignoreLast)
  {
    AlikeReady(x, y, ignoreLast);
    hide Ready, Omegas, Alike, TightestOf, Piom, Scaled, IsRoot, OmegaCorrige, Grouped;
    assert Corrected(root, x, ignoreLast) == Corrected(root, y, ignoreLast);
    ReadyStocked(x, ignoreLast);
    ReadyStocked(y, ignoreLast);
    SameTightest(x, y, ignoreLast, Piom(Corrected(root, x, ignoreLast)));
  }

  lemma ReadyStocked(x: seq<Tfl>, ignoreLast: bool)
    requires Ready(x, ignoreLast)
    ensures Stocked(x) && AllPriced(x, ignoreLast)
  {}

  lemma SameCube(root: RootFunction, x: seq<Tfl>, y: seq<Tfl>, ignoreLast: bool)
    requires IsRoot(root) && Alike(x, y, ignoreLast) && Ready(x, ignoreLast)
    ensures Ready(y, ignoreLast)
    ensures var r := CubeOf(root, x, ignoreLast);
            CubeOf(root, y, ignoreLast) == if r.Ok? then Ok(r.value.(x := y)) else r
  {
    hide *;
    AlikeReady(x, y, ignoreLast);
    SameExact(root, x, y, ignoreLast);
    ReadyStocked(x, ignoreLast);
    ReadyStocked(y, ignoreLast);
    AlikeLength(x, y, ignoreLast);
    SameFloors(x, y, ignoreLast, Exact(root, x, ignoreLast), Exhausted(root, x, ignoreLast), |x|);
    CubeIs(root, x, ignoreLast);
    CubeIs(root, y, ignoreLast);
  }

  /** The cube, from what it is made of. */
  lemma CubeIs(root: RootFunction, x: seq<Tfl>, ignoreLast: bool)
    requires IsRoot(root) && Ready(x, ignoreLast)
    ensures |x| >= 1 && AllPriced(x, ignoreLast)
    ensures var exact, ex := Exact(root, x, ignoreLast), Exhausted(root, x, ignoreLast);
            var floor := FloorsUpTo(x, exact, ex, |x|);
            CubeOf(root, x, ignoreLast) ==
            if floor.Err? then Err(floor.error)
            else Ok(Cube(x, Omegas(x, ignoreLast), exact, floor.value, ex, ignoreLast, PathPrice(x, ignoreLast)))
  {
    hide Exact, Exhausted, FloorsUpTo, Omegas, PathPrice, AllPriced, Stocked, IsRoot;
  }

  lemma SameChecks(c: Cube, y: seq<Tfl>, mat: nat)
    requires c.Valid() && Alike(c.x, y, c.ignoreLast)
    ensures c.(x := y).Valid()
    ensures c.Accepts(mat) <==> c.(x := y).Accepts(mat)
    ensures c.Accepts(mat) ==> !BitSetInMatrix(mat, c.ex)
    ensures c.Refuses(mat) <==> c.(x := y).Refuses(mat)
  {
    var d := c.(x := y);
    var v := Vertex(c.floor, mat);
    hide Vertex, BitSetInMatrix, RatioWithin;
    assert forall k :: 0 <= k < |c.x| ==> c.x[k].qtt == y[k].qtt && c.x[k].kind == y[k].kind;
    assert StockAllows(c.x, v) <==> StockAllows(y, v);
    forall k | 0 <= k < |c.x|
      ensures NodeLimitObserved(c.x, c.omega, v, c.ignoreLast, k) <==>
              NodeLimitObserved(y, c.omega, v, c.ignoreLast, k)
    {
    }
    assert LimitsObserved(c.x, c.omega, v, c.ignoreLast) <==> LimitsObserved(y, c.omega, v, c.ignoreLast);
  }

  lemma {:induction false} SameBest(root: RootFunction, c: Cube, y: seq<Tfl>, m: nat)
    requires IsRoot(root) && c.Valid() && Alike(c.x, y, c.ignoreLast)
    ensures c.(x := y).Valid()
    ensures c.BestBelow(root, m) == c.(x := y).BestBelow(root, m)
  {
    hide Cube.Valid, Cube.Accepts, Cube.Distance, IsRoot, Alike;
    SameChecks(c, y, 0);
    if m > 0 {
      SameBest(root, c, y, m - 1);
      SameScore(root, c, y, m - 1);
    }
  }

  /** A vertex is accepted for both, with one distance. */
  lemma SameScore(root: RootFunction, c: Cube, y: seq<Tfl>, mat: nat)
    requires IsRoot(root) && c.Valid() && Alike(c.x, y, c.ignoreLast)
    ensures c.(x := y).Valid()
    ensures c.Accepts(mat) <==> c.(x := y).Accepts(mat)
    ensures c.Accepts(mat) ==> c.Distance(root, mat) == c.(x := y).Distance(root, mat)
  {
    SameChecks(c, y, mat);
    hide Cube.Valid, Cube.Accepts, Cube.Distance, IsRoot, Alike;
    if c.Accepts(mat) { SameDistance(root, c, y, mat); }
  }

  lemma SameDistance(root: RootFunction, c: Cube, y: seq<Tfl>, mat: nat)
    requires IsRoot(root) && c.Valid() && Alike(c.x, y, c.ignoreLast) && c.(x := y).Valid()
    requires !BitSetInMatrix(mat, c.ex)
    ensures c.Distance(root, mat) == c.(x := y).Distance(root, mat)
  {
    hide IsRoot, Vertex, Idistance, Cube.Valid;
  }

  lemma SameChoice(root: RootFunction, c: Cube, y: seq<Tfl>)
    requires IsRoot(root) && c.Valid() && Alike(c.x, y, c.ignoreLast)
    ensures c.(x := y).Valid()
    ensures Choose(root, c.(x := y)) == Choose(root, c)
    ensures Choose(root, c).Chosen? ==> ChosenFlow(root, c.(x := y)) == ChosenFlow(root, c)
  {
    hide Cube.Valid, Cube.BestBelow, IsRoot, Vertex, MatMax, Alike;
    AlikeLength(c.x, y, c.ignoreLast);
    SameBest(root, c, y, MatMax(|c.x|));
  }

  lemma AlikeLength(x: seq<Tfl>, y: seq<Tfl>, ignoreLast: bool)
    requires Alike(x, y, ignoreLast)
    ensures |x| == |y| >= 2 && IgnoresOmega(x) == IgnoresOmega(y) && IgnoresQtt(x) == IgnoresQtt(y)
  {}

  // ---------------------------------------------------------------------------
  // The flow of nodes that are alike

  /** What is computed for x, on the nodes y. */
  function Moved(g: Computed, y: seq<Tfl>): Computed
    requires |g.flow.flowr| == |y| >= 2
    requires g.status == Draft ==> forall i :: 0 <= i < |y| ==> 0 <= g.flow.flowr[i] <= INT64_MAX
  {
    if g.status == Draft then Computed(Draft, FlowRecord(Settled(y, g.flow.flowr), g.flow.flowr))
    else Computed(g.status, Dropped(y))
  }

  ghost predicate Movable(g: Computed, n: nat) {
    && |g.flow.flowr| == n >= 2
    && (g.status == Draft ==> forall i :: 0 <= i < n ==> 0 <= g.flow.flowr[i] <= INT64_MAX)
  }

  lemma KeptIsMovable(root: RootFunction, c: Cube)
    requires IsRoot(root) && c.Valid()
    ensures Movable(Kept(root, c), |c.x|)
  {
    hide Choose, IsRoot, Settled;
  }

  lemma SameFailure(c: Cube, y: seq<Tfl>)
    requires c.Valid() && Alike(c.x, y, c.ignoreLast)
    ensures c.(x := y).Valid() && c.(x := y).Failed() == c.Failed()
  {
    hide Cube.Valid, Cube.Refuses, Alike, MatMax;
    AlikeLength(c.x, y, c.ignoreLast);
    SameChecks(c, y, 0);
    forall mat: nat
      ensures c.Refuses(mat) <==> c.(x := y).Refuses(mat)
    {
      SameChecks(c, y, mat);
    }
  }

  lemma KeptIs(root: RootFunction, c: Cube)
    requires IsRoot(root) && c.Valid()
    ensures |c.x| >= 2
    ensures Kept(root, c) ==
            if Choose(root, c).Unchosen? then Computed(c.Failed(), Dropped(c.x))
            else Computed(Draft, FlowRecord(Settled(c.x, ChosenFlow(root, c)), ChosenFlow(root, c)))
    ensures c.Failed() != Draft
  {
    hide Choose, IsRoot, Settled, ChosenFlow;
  }

  lemma SameKept(root: RootFunction, c: Cube, y: seq<Tfl>)
    requires IsRoot(root) && c.Valid() && Alike(c.x, y, c.ignoreLast)
    ensures c.(x := y).Valid()
    ensures Movable(Kept(root, c), |y|)
    ensures Kept(root, c.(x := y)) == Moved(Kept(root, c), y)
  {
    hide Cube.Valid, Choose, IsRoot, Settled, Alike, ChosenFlow, Movable;
    AlikeLength(c.x, y, c.ignoreLast);
    KeptIsMovable(root, c);
    SameChoice(root, c, y);
    SameFailure(c, y);
    KeptIs(root, c);
    KeptIs(root, c.(x := y));
  }

  lemma SameRounded(root: RootFunction, x: seq<Tfl>, y: seq<Tfl>, ignoreLast: bool)
    requires IsRoot(root) && Alike(x, y, ignoreLast) && Ready(x, ignoreLast)
    ensures Ready(y, ignoreLast)
    ensures var r := Rounded(root, x, ignoreLast);
            if r.Ok? then Movable(r.value, |y|) && Rounded(root, y, ignoreLast) == Ok(Moved(r.value, y))
            else Rounded(root, y, ignoreLast) == r
  {
    hide Cube.Valid, Kept, IsRoot, Alike, CubeOf, Ready, Moved, Movable;
    SameCube(root, x, y, ignoreLast);
    var c := CubeOf(root, x, ignoreLast);
    if c.Ok? { SameKept(root, c.value, y); }
  }

  /** The flow of nodes that are alike is the same. */
  lemma SameOpened(root: RootFunction, x: seq<Tfl>, y: seq<Tfl>)
    requires |x| >= 2 && IsRoot(root) && Alike(x, y, IgnoresOmega(x)) && Stocked(x)
    ensures Stocked(y)
    ensures var r := FlowOpened(root, x);
            if r.Ok? then Movable(r.value, |y|) && FlowOpened(root, y) == Ok(Moved(r.value, y))
            else FlowOpened(root, y) == r
  {
    hide IsRoot, Alike, Rounded, Ready, AllPriced, ProdOmega, CalType, Stocked;
    var ig := IgnoresOmega(x);
    AlikeLength(x, y, ig);
    SameOwners(x, y, ig);
    SamePrices(x, y, ig);
    if AllPriced(x, ig) {
      IsReady(x, ig);
      AlikeReady(x, y, ig);
      SameRounded(root, x, y, ig);
      DroppedMoves(x, y);
    }
  }

  lemma IsReady(x: seq<Tfl>, ignoreLast: bool)
    requires |x| >= 2 && Stocked(x) && AllPriced(x, ignoreLast)
    ensures Ready(x, ignoreLast)
  {}

  lemma DroppedMoves(x: seq<Tfl>, y: seq<Tfl>)
    requires |x| == |y| >= 2
    ensures Movable(Computed(Refused, Dropped(x)), |y|)
    ensures Moved(Computed(Refused, Dropped(x)), y) == Computed(Refused, Dropped(y))
  {}
}
