/** When the rounding finds a draft, refuses the cycle, or leaves it undefined, in terms
    of integers that the orders could exchange. */
module Verdicts {
  import opened Numeric
  import opened FlowTypes
  import opened Gains
  import opened ExactFlow
  import opened Rounding
  import opened Kernel
  import opened Guarantees

  // ---------------------------------------------------------------------------
  // Integers that could be exchanged

  ghost predicate WithinStocks(x: seq<Tfl>, v: seq<int>) {
    |v| == |x| && forall k :: 0 <= k < |x| && x[k].qtt != -1 ==> v[k] <= x[k].qtt
  }

  /** Each LIMIT order receives something, and gives at most its price for it; the last
      one is exempt when its price is ignored. */
  ghost predicate WithinPrices(x: seq<Tfl>, v: seq<int>, ignoreLast: bool) {
    |v| == |x| && forall k :: 0 <= k < |x| ==> WithinPrice(x, v, ignoreLast, k)
  }

  ghost predicate WithinPrice(x: seq<Tfl>, v: seq<int>, ignoreLast: bool, k: nat)
    requires |v| == |x| && k < |x|
  {
    x[k].kind % 4 == 1 && !(ignoreLast && k == |x| - 1) ==>
      var b := if k == 0 then |x| - 1 else k - 1;
      v[b] > 0 && v[k] * x[k].qttRequ <= x[k].qttProv * v[b]
  }

  /** With the price that it sets for the last order, the prices multiply to at least one;
      no price is set if it receives nothing. */
  ghost predicate SetsPrice(x: seq<Tfl>, v: seq<int>)
    requires |x| >= 2 && AllPriced(x, true)
  {
    && |v| == |x|
    && (v[|x| - 2] == 0 ||
        v[|x| - 1] as real * Prod(OmegaPath(PricedNodes(x, true))) >= v[|x| - 2] as real)
  }

  ghost predicate Exchangeable(x: seq<Tfl>, v: seq<int>, ignoreLast: bool)
    requires |x| >= 2 && AllPriced(x, ignoreLast)
  {
    WithinStocks(x, v) && WithinPrices(x, v, ignoreLast) && (ignoreLast ==> SetsPrice(x, v))
  }

  lemma PriceIff(a: int, b: int, p: real)
    requires b >= 0
    ensures PriceNotBelowOne(a, b, p) <==> b == 0 || a as real * p >= b as real
  {
    if b != 0 {
      var q, d := a as real / b as real, b as real;
      assert a as real == q * d;
      TimesIff(q, p, d);
    }
  }

  lemma TimesIff(q: real, p: real, d: real)
    requires d > 0.0
    ensures q * p >= 1.0 <==> q * d * p >= d
  {
    var t := q * p;
    assert q * d * p == t * d;
    if t >= 1.0 { assert (t - 1.0) * d >= 0.0; } else { assert (1.0 - t) * d > 0.0; }
  }

  lemma NodeIff(x: seq<Tfl>, omega: seq<real>, v: seq<int>, ignoreLast: bool, k: nat)
    requires |v| == |x| == |omega| && k < |x| && AllPriced(x, ignoreLast) && omega == Omegas(x, ignoreLast)
    requires forall i :: 0 <= i < |v| ==> v[i] >= 0
    ensures NodeLimitObserved(x, omega, v, ignoreLast, k) <==> WithinPrice(x, v, ignoreLast, k)
  {
    if x[k].IsLimit() && !(ignoreLast && k == |x| - 1) {
      OmegaAt(x, ignoreLast, k);
      hide Omegas, RatioWithin, Omega, AllPriced;
      RatioWithinCross(x[k], v[k], v[Before(k, |x|)]);
    }
  }

  lemma LimitsIff(x: seq<Tfl>, omega: seq<real>, v: seq<int>, ignoreLast: bool)
    requires |v| == |x| == |omega| >= 2 && AllPriced(x, ignoreLast) && omega == Omegas(x, ignoreLast)
    requires forall i :: 0 <= i < |v| ==> v[i] >= 0
    ensures LimitsObserved(x, omega, v, ignoreLast) <==> WithinPrices(x, v, ignoreLast)
  {
    hide Omegas, NodeLimitObserved, AllPriced, WithinPrice;
    forall k | 0 <= k < |x|
      ensures NodeLimitObserved(x, omega, v, ignoreLast, k) <==> WithinPrice(x, v, ignoreLast, k)
    {
      NodeIff(x, omega, v, ignoreLast, k);
    }
  }

  lemma StocksIff(x: seq<Tfl>, v: seq<int>)
    requires |v| == |x|
    ensures StockAllows(x, v) <==> WithinStocks(x, v)
  {}

  lemma SetsIff(x: seq<Tfl>, v: seq<int>, p: real)
    requires |v| == |x| >= 2 && AllPriced(x, true) && p == Prod(OmegaPath(PricedNodes(x, true)))
    requires forall i :: 0 <= i < |v| ==> v[i] >= 0
    ensures SetPriceHolds(v, p) <==> SetsPrice(x, v)
  {
    hide Prod, OmegaPath, PricedNodes, AllPriced, PriceNotBelowOne;
    PriceIff(v[|v| - 1], v[|v| - 2], p);
  }

  /** What the search of the vertices accepts are the integers that could be exchanged. */
  lemma AdmissibleIff(root: RootFunction, x: seq<Tfl>, ignoreLast: bool, c: Cube, v: seq<int>)
    requires IsRoot(root) && Ready(x, ignoreLast) && CubeOf(root, x, ignoreLast) == Ok(c)
    requires |v| == |x| && forall i :: 0 <= i < |v| ==> v[i] >= 0
    ensures |x| >= 2 && AllPriced(x, ignoreLast) && c.Valid() && c.x == x && c.ignoreLast == ignoreLast
    ensures |c.omega| == |x|
    ensures StockAllows(x, v) <==> WithinStocks(x, v)
    ensures LimitsObserved(x, c.omega, v, ignoreLast) <==> WithinPrices(x, v, ignoreLast)
    ensures c.Admissible(v) <==> Exchangeable(x, v, ignoreLast)
  {
    CubePrices(root, x, ignoreLast, c);
    hide CubeOf, Ready, Omegas, Cube.Valid;
    LimitsIff(x, c.omega, v, ignoreLast);
    StocksIff(x, v);
    if ignoreLast { SetsIff(x, v, c.prodPath); }
    hide LimitsObserved, WithinPrices, StockAllows, WithinStocks, SetPriceHolds, SetsPrice, AllPriced;
    AdmissibleParts(c, v);
  }

  lemma AdmissibleParts(c: Cube, v: seq<int>)
    requires c.Valid() && |v| == |c.x|
    ensures |v| >= 2 && |c.omega| == |c.x|
    ensures c.Admissible(v) <==> StockAllows(c.x, v) && LimitsObserved(c.x, c.omega, v, c.ignoreLast)
                                 && (c.ignoreLast ==> SetPriceHolds(v, c.prodPath))
  {
    hide LimitsObserved, StockAllows, SetPriceHolds;
  }

  lemma CubePrices(root: RootFunction, x: seq<Tfl>, ignoreLast: bool, c: Cube)
    requires IsRoot(root) && Ready(x, ignoreLast) && CubeOf(root, x, ignoreLast) == Ok(c)
    ensures |x| >= 2 && AllPriced(x, ignoreLast) && c.Valid() && c.x == x && c.ignoreLast == ignoreLast
    ensures c.omega == Omegas(x, ignoreLast) && |c.omega| == |x|
    ensures ignoreLast ==> c.prodPath == Prod(OmegaPath(PricedNodes(x, true)))
  {
    hide Exact, Exhausted, FloorsUpTo, Omegas, OmegaPath, Prod;
  }

  // ---------------------------------------------------------------------------
  // The status

  /** Some vector of the cube could be exchanged. */
  ghost predicate SomeExchangeable(c: Cube)
    requires c.Valid() && AllPriced(c.x, c.ignoreLast)
  {
    exists v :: CubeVertex(c, v) && Exchangeable(c.x, v, c.ignoreLast)
  }

  /** Some vector of the cube is within the stocks, but not within the prices. */
  ghost predicate SomeAbovePrices(c: Cube)
    requires c.Valid()
  {
    exists v :: CubeVertex(c, v) && WithinStocks(c.x, v) && !WithinPrices(c.x, v, c.ignoreLast)
  }

  lemma CubeIsNatural(c: Cube, v: seq<int>)
    requires c.Valid() && CubeVertex(c, v)
    ensures |v| == |c.x| && forall i :: 0 <= i < |v| ==> v[i] >= 0
  {}

  /** A mask that is refused, and the vector that it builds. */
  lemma RefusedVector(root: RootFunction, x: seq<Tfl>, ignoreLast: bool, c: Cube, mat: nat)
    requires IsRoot(root) && Ready(x, ignoreLast) && CubeOf(root, x, ignoreLast) == Ok(c) && c.Valid()
    requires mat < MatMax(|c.x|) && c.Refuses(mat)
    ensures SomeAbovePrices(c)
  {
    var v := Vertex(c.floor, mat);
    assert VisitedAt(c, mat, v);
    VisitsExactlyTheCube(c, v);
    CubeIsNatural(c, v);
    CubePrices(root, x, ignoreLast, c);
    AdmissibleIff(root, x, ignoreLast, c, v);
    assert StockAllows(c.x, v) && !LimitsObserved(c.x, c.omega, v, c.ignoreLast);
    hide *;
    AbovePrices(c, v);
  }

  lemma AbovePrices(c: Cube, v: seq<int>)
    requires c.Valid() && CubeVertex(c, v) && WithinStocks(c.x, v) && !WithinPrices(c.x, v, c.ignoreLast)
    ensures SomeAbovePrices(c)
  {}

  lemma RefusedMask(root: RootFunction, x: seq<Tfl>, ignoreLast: bool, c: Cube, v: seq<int>) returns (mat: nat)
    requires IsRoot(root) && Ready(x, ignoreLast) && CubeOf(root, x, ignoreLast) == Ok(c) && c.Valid()
    requires CubeVertex(c, v) && WithinStocks(c.x, v) && !WithinPrices(c.x, v, c.ignoreLast)
    ensures mat < MatMax(|c.x|) && c.Refuses(mat)
  {
    hide CubeOf, Ready, Cube.Valid, CubeVertex, Vertex, MatMax, WithinStocks, WithinPrices, BitSetInMatrix, Omegas;
    hide AllPriced, OmegaPath, Prod, Exchangeable, Cube.Admissible, LimitsObserved, StockAllows;
    CubePrices(root, x, ignoreLast, c);
    VisitsExactlyTheCube(c, v);
    CubeIsNatural(c, v);
    AdmissibleIff(root, x, ignoreLast, c, v);
    mat :| VisitedAt(c, mat, v);
  }

  lemma RefusesIff(root: RootFunction, x: seq<Tfl>, ignoreLast: bool, c: Cube)
    requires IsRoot(root) && Ready(x, ignoreLast) && CubeOf(root, x, ignoreLast) == Ok(c)
    ensures c.Valid() && (c.RefusesBelow(MatMax(|c.x|)) <==> SomeAbovePrices(c))
  {
    CubePrices(root, x, ignoreLast, c);
    hide CubeOf, Ready, Cube.Valid, CubeVertex, MatMax, WithinStocks, WithinPrices, AllPriced, Cube.Refuses;
    if mat: nat :| mat < MatMax(|c.x|) && c.Refuses(mat) { RefusedVector(root, x, ignoreLast, c, mat); }
    if v :| CubeVertex(c, v) && WithinStocks(c.x, v) && !WithinPrices(c.x, v, c.ignoreLast) {
      var mat := RefusedMask(root, x, ignoreLast, c, v);
    }
  }

  lemma ChoosesIff(root: RootFunction, x: seq<Tfl>, ignoreLast: bool, c: Cube)
    requires IsRoot(root) && Ready(x, ignoreLast) && CubeOf(root, x, ignoreLast) == Ok(c)
    ensures c.Valid() && AllPriced(c.x, c.ignoreLast) && (Choose(root, c).Chosen? <==> SomeExchangeable(c))
  {
    CubePrices(root, x, ignoreLast, c);
    hide CubeOf, Ready, Cube.Valid, CubeVertex, Omegas, AllPriced, OmegaPath, Prod, Exchangeable, Choose;
    hide Cube.Admissible, LimitsObserved, StockAllows, WithinStocks, WithinPrices;
    DraftIffAdmissible(root, c);
    forall v | CubeVertex(c, v)
      ensures c.Admissible(v) <==> Exchangeable(c.x, v, c.ignoreLast)
    {
      CubeIsNatural(c, v);
      AdmissibleIff(root, x, ignoreLast, c, v);
    }
  }

  /** The status of the rounding: a draft when some vector of the cube could be exchanged;
      else refused when one is within the stocks but above some price, and undefined
      when the stocks alone exclude them all. */
  lemma StatusIff(root: RootFunction, x: seq<Tfl>, ignoreLast: bool, c: Cube)
    requires IsRoot(root) && Ready(x, ignoreLast) && CubeOf(root, x, ignoreLast) == Ok(c)
    ensures c.Valid() && AllPriced(c.x, c.ignoreLast) && Rounded(root, x, ignoreLast).Ok?
    ensures Rounded(root, x, ignoreLast).value.status ==
            if SomeExchangeable(c) then Draft else if SomeAbovePrices(c) then Refused else Undefined
  {
    RefusesIff(root, x, ignoreLast, c);
    ChoosesIff(root, x, ignoreLast, c);
    hide CubeOf, Ready, Cube.Valid, AllPriced, Choose, SomeExchangeable, SomeAbovePrices, Cube.RefusesBelow, MatMax;
    hide Settled, ChosenFlow;
  }

  // ---------------------------------------------------------------------------
  // The first of equals

  /** Of the masks accepted at the greatest distance the first one is kept. */
  lemma {:induction false} FirstIsKept(root: RootFunction, c: Cube, m: nat, mat: nat)
    requires IsRoot(root) && c.Valid() && c.BestBelow(root, m).Chosen?
    requires mat < c.BestBelow(root, m).mat && c.Accepts(mat)
    ensures c.Distance(root, mat) < c.BestBelow(root, m).dist
  {
    hide Cube.Valid, Cube.Accepts, Cube.Distance, IsRoot, BitSetInMatrix;
    var before := c.BestBelow(root, m - 1);
    if before == c.BestBelow(root, m) {
      FirstIsKept(root, c, m - 1, mat);
    } else {
      BestBelowIsBest(c, root, m - 1, mat);
    }
  }

  /** Of two masks, the lower one has the highest bit that differs clear. */
  lemma {:induction false} HighestBit(a: nat, b: nat, n: nat) returns (k: nat)
    requires a < b < Exp2(n)
    ensures k < n && !Bit(a, k) && Bit(b, k) && forall j :: k < j < n ==> (Bit(a, j) <==> Bit(b, j))
  {
    assert a == a / 2 * 2 + a % 2 && b == b / 2 * 2 + b % 2;
    if a / 2 == b / 2 {
      k := 0;
    } else {
      var h := HighestBit(a / 2, b / 2, n - 1);
      k := h + 1;
    }
  }

  lemma MatMaxIs(n: nat)
    ensures MatMax(n) == Exp2(if n < 8 then n else 8) && NMATBITS == 8
  {}

  lemma VertexBit(floor: seq<int>, mat: nat, k: nat)
    requires k < |floor| && k < 8
    ensures Vertex(floor, mat)[k] == floor[k] + if Bit(mat, k) then 1 else 0
  {
    hide Bit;
    assert k % NMATBITS == k;
  }

  lemma LowerVertex(floor: seq<int>, a: nat, b: nat) returns (k: nat)
    requires a < b < MatMax(|floor|)
    ensures k < |floor| && k < 8 && Vertex(floor, a)[k] == floor[k] && Vertex(floor, b)[k] == floor[k] + 1
    ensures forall j :: k < j < |floor| && j < 8 ==> Vertex(floor, a)[j] == Vertex(floor, b)[j]
  {
    hide Bit, Vertex, MatMax;
    MatMaxIs(|floor|);
    k := HighestBit(a, b, if |floor| < 8 then |floor| else 8);
    VertexBit(floor, a, k);
    VertexBit(floor, b, k);
    forall j | k < j < |floor| && j < 8
      ensures Vertex(floor, a)[j] == Vertex(floor, b)[j]
    {
      VertexBit(floor, a, j);
      VertexBit(floor, b, j);
    }
  }

  /** Of the vectors nearest to the exact flow, the flow is the one that is at its floor at
      the last of the first eight nodes where it differs from another. */
  lemma EqualsGoLow(root: RootFunction, c: Cube, v: seq<int>) returns (k: nat)
    requires IsRoot(root) && c.Valid() && Choose(root, c).Chosen? && CubeVertex(c, v) && c.Admissible(v)
    requires v != ChosenFlow(root, c) && Dot(Reals(v), Reals(v)) > 0.0
    requires Idistance(root, c.exact, v) >= Choose(root, c).dist
    ensures k < |v| && k < 8 && ChosenFlow(root, c)[k] == c.floor[k] && v[k] == c.floor[k] + 1
    ensures forall j :: k < j < |v| && j < 8 ==> ChosenFlow(root, c)[j] == v[j]
  {
    hide *;
    VisitsExactlyTheCube(c, v);
    var mat: nat :| VisitedAt(c, mat, v);
    CubeIsNatural(c, v);
    VisitedIs(c, mat, v);
    ChosenIs(root, c);
    var m := Choose(root, c).mat;
    if mat < m {
      FirstIsKept(root, c, MatMax(|c.x|), mat);
      DistanceIs(root, c, mat, v);
    }
    k := LowerVertex(c.floor, m, mat);
  }

  lemma VisitedIs(c: Cube, mat: nat, v: seq<int>)
    requires c.Valid() && VisitedAt(c, mat, v) && |v| == |c.x| && c.Admissible(v)
    ensures mat < MatMax(|c.x|) && c.Accepts(mat) && v == Vertex(c.floor, mat) && |c.floor| == |c.x|
  {
    hide Cube.Admissible, BitSetInMatrix, Vertex, MatMax;
  }

  lemma DistanceIs(root: RootFunction, c: Cube, mat: nat, v: seq<int>)
    requires IsRoot(root) && c.Valid() && c.Accepts(mat) && v == Vertex(c.floor, mat) && |v| == |c.exact|
    requires Dot(Reals(v), Reals(v)) > 0.0
    ensures c.Distance(root, mat) == Idistance(root, c.exact, v)
  {
    hide Cube.Admissible, BitSetInMatrix, Vertex, Idistance, Dot;
  }

  lemma ChosenIs(root: RootFunction, c: Cube)
    requires IsRoot(root) && c.Valid() && Choose(root, c).Chosen?
    ensures Choose(root, c) == c.BestBelow(root, MatMax(|c.x|)) && Choose(root, c).mat < MatMax(|c.x|)
    ensures ChosenFlow(root, c) == Vertex(c.floor, Choose(root, c).mat) && |c.x| == |c.floor| == |c.exact|
  {
    hide Cube.BestBelow, Vertex, MatMax, Cube.Accepts;
  }

  /** The exhausted node is the first one whose whole stock the exact flow takes. */
  lemma {:induction false} FirstIsExhausted(x: seq<Tfl>, piom: seq<real>, n: nat, i: nat)
    requires Stocked(x) && |piom| == |x| && Positive(piom) && n <= |x|
    requires n > 0 && i < TightestOf(x, piom, n).node && IsDefined(x[i])
    ensures Exhausting(x[i], piom[i]) > TightestOf(x, piom, n).min
  {
    hide Exhausting, Stocked;
    if i < n - 1 && TightestOf(x, piom, n - 1).node == TightestOf(x, piom, n).node && n > 1 {
      FirstIsExhausted(x, piom, n - 1, i);
    }
  }

  /** The stocks of the nodes before it are not taken whole. */
  lemma StockLeftBefore(root: RootFunction, x: seq<Tfl>, ignoreLast: bool, i: nat)
    requires IsRoot(root) && Ready(x, ignoreLast) && i < Exhausted(root, x, ignoreLast) && x[i].qtt != -1
    ensures Exact(root, x, ignoreLast)[i] < x[i].qtt as real
  {
    var piom := Piom(Corrected(root, x, ignoreLast));
    hide Corrected, Piom, TightestOf;
    FirstIsExhausted(x, piom, |x|, i);
    ScaledFits(x, piom, TightestOf(x, piom, |x|).min, i);
    StrictlyFits(x, piom, TightestOf(x, piom, |x|).min, i);
  }

  lemma StrictlyFits(x: seq<Tfl>, piom: seq<real>, k: real, i: nat)
    requires Stocked(x) && |piom| == |x| && Positive(piom) && i < |x| && IsDefined(x[i])
    requires k < Exhausting(x[i], piom[i])
    ensures Scaled(k, piom)[i] < x[i].qtt as real
  {
    assert Scaled(k, piom)[i] == k * piom[i];
    var c, p := Exhausting(x[i], piom[i]), piom[i];
    hide *;
    MulPos(c - k, p);
    Expand(c, k, p);
  }

  lemma Expand(c: real, k: real, p: real)
    ensures (c - k) * p == c * p - k * p
  {}

  /** The rounding raises exactly when the exact flow of some node is not below the least
      double above the bigints that are doubles. */
  lemma RangeErrorIff(root: RootFunction, x: seq<Tfl>, ignoreLast: bool)
    requires IsRoot(root) && Ready(x, ignoreLast)
    ensures Rounded(root, x, ignoreLast).Err? <==>
            exists i :: 0 <= i < |x| && Exact(root, x, ignoreLast)[i] >= 0x7FFF_FFFF_FFFF_FC01 as real
    ensures Rounded(root, x, ignoreLast).Err? ==> Rounded(root, x, ignoreLast).error == CannotBeRounded
  {
    OnlyRangeErrors(root, x, ignoreLast);
    ExactFits(root, x, ignoreLast);
    RoundedIffFloored(root, x, ignoreLast);
    hide Exact, Exhausted, Rounded, Ready, IsRoot, FloorsUpTo, FloorInt64, CubeOf;
    var exact, ex := Exact(root, x, ignoreLast), Exhausted(root, x, ignoreLast);
    forall i | 0 <= i < |x|
      ensures FloorOf(x[i], exact[i], i == ex).Err? <==> exact[i] >= 0x7FFF_FFFF_FFFF_FC01 as real
    {
      FloorFails(x[i], exact[i], i == ex);
    }
  }

  lemma RoundedIffFloored(root: RootFunction, x: seq<Tfl>, ignoreLast: bool)
    requires IsRoot(root) && Ready(x, ignoreLast)
    ensures var r, c := Rounded(root, x, ignoreLast), CubeOf(root, x, ignoreLast);
            && (r.Err? <==> FloorsUpTo(x, Exact(root, x, ignoreLast), Exhausted(root, x, ignoreLast), |x|).Err?)
            && (r.Err? ==> c == Err(r.error))
  {
    hide Exact, Exhausted, FloorsUpTo, Ready, Kept, IsRoot;
  }

  lemma FloorFails(b: Tfl, d: real, exhausted: bool)
    requires d > 0.0 && (exhausted ==> b.qtt != QTTFLOW_UNDEFINED && d == b.qtt as real)
    ensures FloorOf(b, d, exhausted).Err? <==> d >= 0x7FFF_FFFF_FFFF_FC01 as real
  {
    hide FloorInt64;
  }

  // ---------------------------------------------------------------------------
  // What the kernel turns down before the rounding

  predicate NegativeAt(x: seq<Tfl>, i: int) {
    0 <= i < |x| && (x[i].qtt < 0 || x[i].proba < 0.0)
  }

  predicate TwiceAt(x: seq<Tfl>, i: int, j: int) {
    0 <= i < j < |x| && x[i].oid == x[j].oid
  }

  /** The stock of the node limits the flow, and is empty: the stock of the last node is not
      read when bit 4 or bit 8 of its type is set. */
  predicate EmptyAt(x: seq<Tfl>, i: int) {
    0 <= i < |x| && (i < |x| - 1 || x[i].kind % 16 < 4) && x[i].qtt == 0
  }

  /** The price of the node is read, and missing: the price of the last node is not read
      when bit 8 of its type is set. */
  predicate UnpricedAt(x: seq<Tfl>, i: int) {
    && 0 <= i < |x| && (i < |x| - 1 || x[i].kind % 16 < 8)
    && (x[i].qttProv == 0 || x[i].qttRequ == 0 || x[i].proba == 0.0)
  }

  ghost predicate SomeNegative(x: seq<Tfl>) {
    exists i :: NegativeAt(x, i)
  }

  ghost predicate SomeTwice(x: seq<Tfl>) {
    exists i, j :: TwiceAt(x, i, j)
  }

  ghost predicate SomeEmpty(x: seq<Tfl>) {
    exists i :: EmptyAt(x, i)
  }

  ghost predicate SomeUnpriced(x: seq<Tfl>) {
    exists i :: UnpricedAt(x, i)
  }

  lemma BitsOf(kind: nat)
    ensures IsNoQttLimit(kind) || IsIgnoreOmega(kind) <==> kind % 16 >= 4
    ensures IsIgnoreOmega(kind) <==> kind % 16 >= 8
  {
    var q, k := kind / 16, kind % 16;
    FourthOf(kind, q, k);
    EighthOf(kind, q, k);
    Nibble(k);
  }

  lemma FourthOf(n: nat, q: nat, k: nat)
    requires n == 16 * q + k && k < 16
    ensures n / 4 % 2 == k / 4 % 2
  {
    var a, r := k / 4, k % 4;
    assert n == 4 * (4 * q + a) + r;
    assert n / 4 == 2 * (2 * q) + a;
  }

  lemma EighthOf(n: nat, q: nat, k: nat)
    requires n == 16 * q + k && k < 16
    ensures n / 8 % 2 == k / 8 % 2
  {
    var a, r := k / 8, k % 8;
    assert n == 8 * (2 * q + a) + r;
    assert n / 8 == 2 * q + a;
  }

  lemma Nibble(k: nat)
    requires k < 16
    ensures k / 4 % 2 == 1 || k / 8 % 2 == 1 <==> k >= 4
    ensures k / 8 % 2 == 1 <==> k >= 8
  {}

  lemma SignsIff(x: seq<Tfl>)
    ensures NonNegative(x) <==> !SomeNegative(x)
  {
    if !NonNegative(x) {
      var i :| 0 <= i < |x| && !(x[i].qtt >= 0 && x[i].proba >= 0.0);
      assert NegativeAt(x, i);
    }
  }

  lemma DistinctIff(x: seq<Tfl>)
    ensures DistinctOids(x) <==> !SomeTwice(x)
  {
    if !DistinctOids(x) {
      var i, j :| 0 <= i < j < |x| && x[i].oid == x[j].oid;
      assert TwiceAt(x, i, j);
    }
  }

  lemma EmptyIff(x: seq<Tfl>)
    requires |x| >= 2
    ensures SomeStockEmpty(x) <==> SomeEmpty(x)
  {
    BitsOf(x[|x| - 1].kind);
    if i :| 0 <= i < |x| && !(IgnoresQtt(x) && i == |x| - 1) && x[i].qtt == 0 { assert EmptyAt(x, i); }
    if i :| EmptyAt(x, i) { assert !(IgnoresQtt(x) && i == |x| - 1) && x[i].qtt == 0; }
  }

  lemma UnpricedIff(x: seq<Tfl>)
    requires |x| >= 2
    ensures AllPriced(Opened(x), IgnoresOmega(Opened(x))) <==> !SomeUnpriced(x)
  {
    BitsOf(x[|x| - 1].kind);
    var y := Opened(x);
    assert y[|x| - 1].kind == x[|x| - 1].kind;
    var z := PricedNodes(y, IgnoresOmega(y));
    assert forall i :: 0 <= i < |z| ==> (Priced(z[i]) <==> !UnpricedAt(x, i));
    assert forall i :: UnpricedAt(x, i) ==> i < |z|;
  }

  /** Past the stocks, ZeroPrice is raised when a price that is read is missing, and else
      only CannotBeRounded. */
  lemma OpenedVerdict(root: RootFunction, y: seq<Tfl>)
    requires IsRoot(root) && |y| >= 2 && Stocked(y)
    ensures var m := FlowOpened(root, y);
            if !AllPriced(y, IgnoresOmega(y)) then m == Err(ZeroPrice)
            else if m.Ok? then m.value.status in {Draft, Refused, Undefined}
            else m.error == CannotBeRounded
  {
    hide Rounded, ProdOmega, CalType, IsRoot, Stocked, AllPriced, IgnoresOmega, Dropped;
    if AllPriced(y, IgnoresOmega(y)) {
      StockedIsReady(y, IgnoresOmega(y));
      RoundedVerdict(root, y, IgnoresOmega(y));
    }
  }

  lemma RoundedVerdict(root: RootFunction, y: seq<Tfl>, ignoreLast: bool)
    requires IsRoot(root) && Ready(y, ignoreLast)
    ensures var m := Rounded(root, y, ignoreLast);
            if m.Ok? then m.value.status in {Draft, Refused, Undefined} else m.error == CannotBeRounded
  {
    hide CubeOf, Kept, IsRoot, Ready, Cube.Valid;
    OnlyRangeErrors(root, y, ignoreLast);
    if CubeOf(root, y, ignoreLast).Ok? { KeptStatus(root, CubeOf(root, y, ignoreLast).value); }
  }

  lemma KeptStatus(root: RootFunction, c: Cube)
    requires IsRoot(root) && c.Valid()
    ensures Kept(root, c).status in {Draft, Refused, Undefined}
  {
    hide Choose, ChosenFlow, Settled, IsRoot, Cube.Valid;
  }

  lemma StockedIsReady(y: seq<Tfl>, ignoreLast: bool)
    requires |y| >= 2 && Stocked(y) && AllPriced(y, ignoreLast)
    ensures Ready(y, ignoreLast)
  {}

  lemma FlowMaximumIs(root: RootFunction, x: seq<Tfl>)
    requires IsRoot(root) && |x| >= 2 && NonNegative(x)
    ensures SomeStockEmpty(x) ==> FlowMaximum(root, x) == Ok(Computed(Undefined, FlowRecord(x, seq(|x|, i => -1))))
    ensures !SomeStockEmpty(x) ==> Stocked(Opened(x)) && FlowMaximum(root, x) == FlowOpened(root, Opened(x))
  {
    hide FlowOpened, Opened, SomeStockEmpty;
    if SomeStockEmpty(x) { assert Dropped(x).flowr == seq(|x|, i => -1); } else { OpenedStocked(x); }
  }

  /** What is found for two nodes or more. */
  lemma MaximumVerdict(root: RootFunction, x: seq<Tfl>)
    requires IsRoot(root) && |x| >= 2 && NonNegative(x)
    ensures var m := FlowMaximum(root, x);
            if SomeEmpty(x) then m == Ok(Computed(Undefined, FlowRecord(x, seq(|x|, i => -1))))
            else if SomeUnpriced(x) then m == Err(ZeroPrice)
            else if m.Ok? then m.value.status in {Draft, Refused, Undefined}
            else m.error == CannotBeRounded
  {
    hide *;
    EmptyIff(x);
    UnpricedIff(x);
    FlowMaximumIs(root, x);
    if !SomeStockEmpty(x) { OpenedVerdict(root, Opened(x)); }
  }

  /** The kernel raises MaxDimReached, NegativeQuantity, OidFoundTwice and ZeroPrice exactly
      in the cases named, checked in this order; an empty stock that limits the flow makes
      it undefined at once, and cycles of no node or one are left alone. */
  lemma KernelRaisesIff(root: RootFunction, f: Tflow)
    requires IsRoot(root)
    ensures var m, n := FlowcMaximum(root, f), |f.x|;
            var formed := n <= 64 && !SomeNegative(f.x) && !SomeTwice(f.x);
            && (m == Err(MaxDimReached) <==> n > 64)
            && (m == Err(NegativeQuantity) <==> n <= 64 && SomeNegative(f.x))
            && (m == Err(OidFoundTwice) <==> n <= 64 && !SomeNegative(f.x) && SomeTwice(f.x))
            && (m == Err(ZeroPrice) <==> n >= 2 && formed && !SomeEmpty(f.x) && SomeUnpriced(f.x))
            && (m == Ok(Computed(Empty, f)) <==> n == 0)
            && (m == Ok(Computed(NoLoop, f)) <==> n == 1 && formed)
            && (n >= 2 && formed && SomeEmpty(f.x) ==>
                m == Ok(Computed(Undefined, FlowRecord(f.x, seq(n, i => -1)))))
            && (m.Err? ==> m.error in {MaxDimReached, NegativeQuantity, OidFoundTwice, ZeroPrice, CannotBeRounded})
  {
    SignsIff(f.x);
    DistinctIff(f.x);
    hide NonNegative, DistinctOids, FlowMaximum, SomeNegative, SomeTwice, SomeEmpty, SomeUnpriced;
    if |f.x| >= 2 && NonNegative(f.x) { MaximumVerdict(root, f.x); }
    if |f.x| == 0 { NothingNegative(f.x); }
  }

  lemma NothingNegative(x: seq<Tfl>)
    requires x == []
    ensures !SomeNegative(x) && !SomeTwice(x)
  {}
}
