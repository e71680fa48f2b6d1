/** An exact flow of integers that could be exchanged is not changed by the rounding. */
module Integral {
  import opened Numeric
  import opened FlowTypes
  import opened Rounding
  import opened Kernel
  import opened Guarantees
  import opened Verdicts
  import Gains
  import Owners
  import Shares

  // ---------------------------------------------------------------------------
  // Vectors at an angle

  function Less(p: real, t: real, q: real): real {
    p - t * q
  }

  /** a - t * b. */
  function Minus(a: seq<real>, t: real, b: seq<real>): (w: seq<real>)
    requires |a| == |b|
    ensures |w| == |a| && forall i :: 0 <= i < |w| ==> w[i] == Less(a[i], t, b[i])
  {
    seq(|a|, i requires 0 <= i < |a| => Less(a[i], t, b[i]))
  }

  function Times(a: real, b: real): real {
    a * b
  }

  lemma DotTake(a: seq<real>, b: seq<real>, i: nat)
    requires |a| == |b| && i < |a|
    ensures Dot(a[..i + 1], b[..i + 1]) == Dot(a[..i], b[..i]) + Times(a[i], b[i])
  {
    assert a[..i + 1][..i] == a[..i] && b[..i + 1][..i] == b[..i];
  }

  lemma DotNone(a: seq<real>, b: seq<real>)
    requires a == [] && b == []
    ensures Dot(a, b) == 0.0
  {}

  /** The square of a - t * b, from the products of a and b. */
  predicate IsSquareOf(w: real, aa: real, ab: real, bb: real, t: real) {
    w == aa - 2.0 * t * ab + t * t * bb
  }

  lemma SquareStep(t: real, p: real, q: real, w: real, aa: real, ab: real, bb: real, r: real)
    requires IsSquareOf(w, aa, ab, bb, t) && r == Less(p, t, q)
    ensures IsSquareOf(w + Times(r, r), aa + Times(p, p), ab + Times(p, q), bb + Times(q, q), t)
  {
    assert r * r == p * p - 2.0 * t * (p * q) + t * t * (q * q);
    assert 2.0 * t * (ab + p * q) == 2.0 * t * ab + 2.0 * t * (p * q);
    assert t * t * (bb + q * q) == t * t * bb + t * t * (q * q);
  }

  lemma NoSquare(t: real)
    ensures IsSquareOf(0.0, 0.0, 0.0, 0.0, t)
  {}

  lemma {:induction false} DotMinus(a: seq<real>, t: real, b: seq<real>, n: nat)
    requires |a| == |b| && n <= |a|
    ensures var w := Minus(a, t, b);
            IsSquareOf(Dot(w[..n], w[..n]), Dot(a[..n], a[..n]), Dot(a[..n], b[..n]), Dot(b[..n], b[..n]), t)
  {
    var w := Minus(a, t, b);
    hide *;
    if n == 0 {
      DotNone(w[..0], w[..0]);
      DotNone(a[..0], a[..0]);
      DotNone(a[..0], b[..0]);
      DotNone(b[..0], b[..0]);
      NoSquare(t);
    } else {
      DotMinus(a, t, b, n - 1);
      DotTake(w, w, n - 1);
      DotTake(a, a, n - 1);
      DotTake(a, b, n - 1);
      DotTake(b, b, n - 1);
      MinusAt(a, t, b, n - 1);
      SquareStep(t, a[n - 1], b[n - 1], Dot(w[..n - 1], w[..n - 1]), Dot(a[..n - 1], a[..n - 1]),
                 Dot(a[..n - 1], b[..n - 1]), Dot(b[..n - 1], b[..n - 1]), w[n - 1]);
    }
  }

  lemma MinusAt(a: seq<real>, t: real, b: seq<real>, i: nat)
    requires |a| == |b| && i < |a|
    ensures |Minus(a, t, b)| == |a| && Minus(a, t, b)[i] == Less(a[i], t, b[i])
  {}

  lemma DotMinusAll(a: seq<real>, t: real, b: seq<real>)
    requires |a| == |b|
    ensures IsSquareOf(Dot(Minus(a, t, b), Minus(a, t, b)), Dot(a, a), Dot(a, b), Dot(b, b), t)
  {
    var n, w := |a|, Minus(a, t, b);
    DotMinus(a, t, b, n);
    hide *;
    assert w[..n] == w && a[..n] == a && b[..n] == b;
  }

  lemma DotPositive(a: seq<real>, k: nat)
    requires k < |a| && a[k] != 0.0
    ensures Dot(a, a) > 0.0
  {
    DotSelfLower(a, k);
    hide Dot;
    if a[k] > 0.0 { AboveProduct(a[k], a[k], Dot(a, a)); } else { AboveNegative(a[k], Dot(a, a)); }
  }

  lemma AboveNegative(a: real, d: real)
    requires a < 0.0 && d >= a * a
    ensures d > 0.0
  {
    var b := -a;
    assert b * b == a * a;
    AboveProduct(b, b, d);
  }

  /** A vector other than e that agrees with it somewhere is at an angle from it. */
  lemma AtAnAngle(v: seq<real>, e: seq<real>, k: nat)
    requires |v| == |e| && k < |e| && v[k] == e[k] > 0.0 && v != e
    ensures Dot(e, e) > 0.0 && Dot(v, e) * Dot(v, e) < Dot(v, v) * Dot(e, e)
  {
    hide *;
    DotPositive(e, k);
    var d, s := Dot(v, e), Dot(e, e);
    var t := d / s;
    var i := SomeDifference(v, t, e, k);
    DotPositive(Minus(v, t, e), i);
    DotMinusAll(v, t, e);
    Discriminant(Dot(Minus(v, t, e), Minus(v, t, e)), Dot(v, v), d, s, t);
  }

  lemma SomeDifference(v: seq<real>, t: real, e: seq<real>, k: nat) returns (i: nat)
    requires |v| == |e| && k < |e| && v[k] == e[k] > 0.0 && v != e
    ensures i < |v| && Minus(v, t, e)[i] != 0.0
  {
    var w := Minus(v, t, e);
    if w[k] != 0.0 {
      i := k;
    } else {
      OneByCancellingSelf(t, e[k]);
      i :| 0 <= i < |v| && v[i] != e[i];
    }
  }

  lemma Discriminant(w: real, a: real, d: real, s: real, t: real)
    requires s > 0.0 && t == d / s && IsSquareOf(w, a, d, s, t) && w > 0.0
    ensures d * d < a * s
  {
    assert t * s == d;
    assert t * t * s == t * d;
    var r := a - t * d;
    assert r > 0.0;
    MulPos(r, s);
    assert r * s == a * s - t * d * s;
    assert t * d * s == d * d;
  }

  /** Its cosine is smaller than that of e with itself. */
  lemma SmallerCosine(root: RootFunction, v: seq<real>, e: seq<real>, k: nat)
    requires IsRoot(root) && |v| == |e| && k < |e| && v[k] == e[k] > 0.0 && v != e
    ensures Dot(v, v) > 0.0 && Dot(e, e) > 0.0 && Cosine(root, v, e) < Cosine(root, e, e)
  {
    hide *;
    DotPositive(v, k);
    AtAnAngle(v, e, k);
    NormSquare(root, v);
    NormSquare(root, e);
    Cosines(Dot(v, e), Norm(root, v), Norm(root, e), Dot(v, v), Dot(e, e));
    CosineIs(root, v, e);
    CosineIs(root, e, e);
  }

  lemma CosineIs(root: RootFunction, a: seq<real>, b: seq<real>)
    requires IsRoot(root) && |a| == |b| && Dot(a, a) > 0.0 && Dot(b, b) > 0.0
    ensures Norm(root, a) * Norm(root, b) > 0.0
    ensures Cosine(root, a, b) == Dot(a, b) / (Norm(root, a) * Norm(root, b))
  {
    hide Dot, IsRoot, Norm;
  }

  lemma NormSquare(root: RootFunction, a: seq<real>)
    requires IsRoot(root) && Dot(a, a) > 0.0
    ensures Norm(root, a) * Norm(root, a) == Dot(a, a)
  {
    var r := root(Dot(a, a), 2);
    assert Pow(r, 2) == r * Pow(r, 1) && Pow(r, 1) == r * Pow(r, 0);
  }

  lemma Cosines(d: real, r: real, q: real, a: real, s: real)
    requires r > 0.0 && q > 0.0 && r * r == a && q * q == s && d * d < a * s
    ensures r * q > 0.0 && q * q > 0.0 && d / (r * q) < s / (q * q)
  {
    MulPos(r, q);
    MulPos(q, q);
    var p := r * q;
    assert p * p == r * r * (q * q);
    Below(d, p);
    DivideBelow(d, p);
    assert s / (q * q) == 1.0;
  }

  lemma Below(d: real, p: real)
    requires p > 0.0 && d * d < p * p
    ensures d < p
  {
    if d >= p { MulMono(p, d, p, d); }
  }

  lemma DivideBelow(d: real, p: real)
    requires p > 0.0 && d < p
    ensures d / p < 1.0
  {
    var q := d / p;
    assert d == q * p;
    if q >= 1.0 { MulMono(1.0, q, p, p); }
  }

  // ---------------------------------------------------------------------------
  // The rounding of integers

  lemma IntegralFloors(x: seq<Tfl>, exact: seq<real>, ex: nat, v: seq<int>)
    requires |exact| == |x| == |v| && ex < |x| && x[ex].qtt != QTTFLOW_UNDEFINED && v[ex] == x[ex].qtt
    requires forall i :: 0 <= i < |x| ==> exact[i] == v[i] as real && 0 <= v[i] <= INT64_MAX_DOUBLE
    ensures FloorsUpTo(x, exact, ex, |x|) == Ok(v)
  {
    IntegralFloorsUpTo(x, exact, ex, v, |x|);
    assert v[..|x|] == v;
  }

  lemma {:induction false} IntegralFloorsUpTo(x: seq<Tfl>, exact: seq<real>, ex: nat, v: seq<int>, n: nat)
    requires |exact| == |x| == |v| && ex < |x| && x[ex].qtt != QTTFLOW_UNDEFINED && v[ex] == x[ex].qtt
    requires forall i :: 0 <= i < |x| ==> exact[i] == v[i] as real && 0 <= v[i] <= INT64_MAX_DOUBLE
    requires n <= |x|
    ensures FloorsUpTo(x, exact, ex, n) == Ok(v[..n])
  {
    if n > 0 {
      IntegralFloorsUpTo(x, exact, ex, v, n - 1);
      assert FloorOf(x[n - 1], exact[n - 1], n - 1 == ex) == Ok(v[n - 1]);
      assert v[..n] == v[..n - 1] + [v[n - 1]];
    }
  }

  /** An exact flow of integers that could be exchanged is the flow found. */
  lemma IntegralFlowIsKept(root: RootFunction, x: seq<Tfl>, ignoreLast: bool, v: seq<int>)
    requires IsRoot(root) && Ready(x, ignoreLast) && |v| == |x| >= 2
    requires forall i :: 0 <= i < |v| ==> 0 <= v[i] <= INT64_MAX_DOUBLE && Exact(root, x, ignoreLast)[i] == v[i] as real
    requires Gains.AllPriced(x, ignoreLast) && Exchangeable(x, v, ignoreLast)
    ensures Rounded(root, x, ignoreLast) == Ok(Computed(Draft, FlowRecord(Settled(x, v), v)))
  {
    hide *;
    Limits();
    var exact, ex := Exact(root, x, ignoreLast), Exhausted(root, x, ignoreLast);
    ExactFits(root, x, ignoreLast);
    IntegralFloors(x, exact, ex, v);
    var c := FlooredCube(root, x, ignoreLast, v);
    FloorInCube(c);
    StatusIff(root, x, ignoreLast, c);
    SomeIs(c, v);
    var w := KeptVertex(root, x, ignoreLast, c);
    if w != v {
      AdmissibleIff(root, x, ignoreLast, c, v);
      ExactIsReal(exact, v);
      SmallerCosine(root, Reals(w), Reals(v), ex);
      ChosenIsNearest(root, c, v);
    }
  }

  lemma Limits()
    ensures INT64_MAX_DOUBLE <= INT64_MAX && QTTFLOW_UNDEFINED == -1
  {}

  lemma FlooredCube(root: RootFunction, x: seq<Tfl>, ignoreLast: bool, v: seq<int>) returns (c: Cube)
    requires IsRoot(root) && Ready(x, ignoreLast)
    requires FloorsUpTo(x, Exact(root, x, ignoreLast), Exhausted(root, x, ignoreLast), |x|) == Ok(v)
    ensures CubeOf(root, x, ignoreLast) == Ok(c) && c.Valid() && c.floor == v && c.x == x && c.ignoreLast == ignoreLast
    ensures c.exact == Exact(root, x, ignoreLast) && c.ex == Exhausted(root, x, ignoreLast) < |x|
  {
    hide Exact, Exhausted, FloorsUpTo, Gains.Omegas, PathPrice, Ready;
    c := CubeOf(root, x, ignoreLast).value;
  }

  lemma FloorInCube(c: Cube)
    requires c.Valid()
    ensures CubeVertex(c, c.floor)
  {}

  lemma SomeIs(c: Cube, v: seq<int>)
    requires c.Valid() && Gains.AllPriced(c.x, c.ignoreLast)
    requires CubeVertex(c, v) && Exchangeable(c.x, v, c.ignoreLast)
    ensures SomeExchangeable(c)
  {}

  lemma KeptVertex(root: RootFunction, x: seq<Tfl>, ignoreLast: bool, c: Cube) returns (w: seq<int>)
    requires IsRoot(root) && Ready(x, ignoreLast) && CubeOf(root, x, ignoreLast) == Ok(c) && c.Valid() && c.x == x
    requires Rounded(root, x, ignoreLast).Ok? && Rounded(root, x, ignoreLast).value.status == Draft
    ensures Choose(root, c).Chosen? && w == Vertex(c.floor, Choose(root, c).mat) && |w| == |x| >= 2
    ensures w[c.ex] == c.floor[c.ex]
    ensures forall i :: 0 <= i < |w| ==> 0 <= w[i] <= INT64_MAX
    ensures Rounded(root, x, ignoreLast) == Ok(Computed(Draft, FlowRecord(Settled(x, w), w)))
  {
    hide CubeOf, Choose, Ready, Settled, Vertex, BitSetInMatrix;
    w := ChosenFlow(root, c);
    AcceptedFixes(c, Choose(root, c).mat);
  }

  lemma AcceptedFixes(c: Cube, mat: nat)
    requires c.Valid() && c.Accepts(mat)
    ensures Vertex(c.floor, mat)[c.ex] == c.floor[c.ex]
  {
    hide BitSetInMatrix, Cube.Admissible;
  }

  lemma ExactIsReal(exact: seq<real>, v: seq<int>)
    requires |exact| == |v| && forall i :: 0 <= i < |v| ==> exact[i] == v[i] as real
    ensures Reals(v) == exact
  {}

  // ---------------------------------------------------------------------------
  // Orders at par

  /** LIMIT orders that each ask for as much as they provide, the same for all. */
  predicate AtPar(x: seq<Tfl>, q: int) {
    && 2 <= |x| <= 64 && DistinctOids(x) && 0 < q <= INT64_MAX_DOUBLE
    && forall i :: 0 <= i < |x| ==> OneAtPar(x[i], q)
  }

  predicate OneAtPar(b: Tfl, q: int) {
    b.kind == 1 && b.qttRequ == b.qttProv == b.qtt == q && b.proba > 0.0
  }

  lemma AtParIsPlain(x: seq<Tfl>, q: int)
    requires AtPar(x, q)
    ensures Plain(x) && Ready(x, false) && Opened(x) == x && !IgnoresOmega(x) && !IgnoresQtt(x)
    ensures |x| <= FLOW_MAX_DIM && NonNegative(x) && !SomeStockEmpty(x) && Gains.AllPriced(x, false)
  {
    hide DistinctOids;
    assert forall i :: 0 <= i < |x| ==> OneAtPar(x[i], q);
  }

  lemma RootOfOne(root: RootFunction, n: nat)
    requires IsRoot(root) && n >= 1
    ensures root(1.0, n) == 1.0
  {
    var r := root(1.0, n);
    PowOfOne(n);
    if r < 1.0 { PowStrict(r, 1.0, n); }
    if r > 1.0 { PowStrict(1.0, r, n); }
  }

  lemma PricesAtPar(x: seq<Tfl>, q: int, i: nat)
    requires AtPar(x, q) && i < |x|
    ensures Ready(x, false) && Gains.Omegas(x, false)[i] == 1.0
  {
    AtParIsPlain(x, q);
    assert OneAtPar(x[i], q);
    OmegaAt(x, false, i);
    hide Gains.Omegas, Ready, DistinctOids;
    SelfRatio(q as real);
  }

  lemma SelfRatio(a: real)
    requires a > 0.0
    ensures a / a == 1.0
  {}

  lemma ProductAtPar(x: seq<Tfl>, q: int)
    requires AtPar(x, q)
    ensures Ready(x, false) && Gains.ProdOmega(x, false) == 1.0
  {
    AtParIsPlain(x, q);
    Gains.ProdOfOmegas(x, false);
    hide AtPar, Ready, Gains.Omegas, Gains.ProdOmega;
    var om := Gains.Omegas(x, false);
    forall i | 0 <= i < |om|
      ensures om[i] == 1.0
    {
      PricesAtPar(x, q, i);
    }
    ProdConstant(om, 1.0);
    PowOfOne(|om|);
  }

  /** There is no gain to share. */
  lemma CorrectedAtPar(root: RootFunction, x: seq<Tfl>, q: int, i: nat)
    requires IsRoot(root) && AtPar(x, q) && i < |x|
    ensures Ready(x, false) && Corrected(root, x, false)[i] == 1.0
  {
    ProductAtPar(x, q);
    PricesAtPar(x, q, i);
    Shares.PricesAre(root, x, false);
    hide AtPar, Ready, Gains.Omegas, Gains.ProdOmega, Corrected, Grouped, Gains.AllPriced;
    GainOfOne(root, Grouped(x), i);
  }

  lemma GainOfOne(root: RootFunction, g: Owners.Grouping, i: nat)
    requires IsRoot(root) && Gains.ValidGrouping(g) && i < |g.index|
    ensures Gains.NodeGains(root, 1.0, g)[i] == 1.0
  {
    RootOfOne(root, g.nbOwn);
    RootOfOne(root, Owners.Count(g.index, g.index[i]));
    hide Owners.Count, IsRoot;
  }

  lemma {:induction false} SameAround(f: seq<real>, i: nat)
    requires i < |f| && forall k :: 0 < k < |f| ==> f[k] == f[k - 1]
    ensures f[i] == f[0]
  {
    if i > 0 { SameAround(f, i - 1); }
  }

  lemma ExactAtPar(root: RootFunction, x: seq<Tfl>, q: int, i: nat)
    requires IsRoot(root) && AtPar(x, q) && i < |x|
    ensures Ready(x, false) && Exact(root, x, false)[i] == q as real
  {
    AtParIsPlain(x, q);
    ExactFits(root, x, false);
    var f, ex := Exact(root, x, false), Exhausted(root, x, false);
    assert OneAtPar(x[ex], q);
    hide AtPar, Ready, Exact, Exhausted, Corrected, IsRoot, DistinctOids;
    forall k | 0 < k < |f|
      ensures f[k] == f[k - 1]
    {
      ExactCloses(root, x, false, k);
      CorrectedAtPar(root, x, q, k);
    }
    SameAround(f, i);
    SameAround(f, ex);
  }

  lemma ExchangeableAtPar(x: seq<Tfl>, q: int, v: seq<int>)
    requires AtPar(x, q) && |v| == |x| && forall i :: 0 <= i < |v| ==> v[i] == q
    ensures Gains.AllPriced(x, false) && Exchangeable(x, v, false)
  {
    AtParIsPlain(x, q);
    hide DistinctOids;
    forall k | 0 <= k < |x|
      ensures v[k] <= x[k].qtt && WithinPrice(x, v, false, k)
    {
      assert OneAtPar(x[k], q);
    }
  }

  /** Orders at par exchange all that they provide, however many they are and whoever owns
      them: prices that multiply to one are not refused, and there is nothing to round. */
  lemma ParIsExchanged(root: RootFunction, f: Tflow, q: int, v: seq<int>)
    requires IsRoot(root) && AtPar(f.x, q) && |v| == |f.x| && forall i :: 0 <= i < |v| ==> v[i] == q
    ensures FlowcMaximum(root, f) == Ok(Computed(Draft, FlowRecord(f.x, v)))
  {
    hide *;
    AtParIsPlain(f.x, q);
    ProductAtPar(f.x, q);
    ExchangeableAtPar(f.x, q, v);
    ParBounds(f.x, q);
    forall i | 0 <= i < |v|
      ensures Exact(root, f.x, false)[i] == v[i] as real
    {
      ExactAtPar(root, f.x, q, i);
    }
    IntegralFlowIsKept(root, f.x, false, v);
    SettledPlain(f.x, v);
    ParIsRounded(root, f);
  }

  lemma ParBounds(x: seq<Tfl>, q: int)
    requires AtPar(x, q)
    ensures |x| >= 2 && DistinctOids(x) && 0 < q <= INT64_MAX_DOUBLE <= INT64_MAX
  {}

  lemma SettledPlain(x: seq<Tfl>, v: seq<int>)
    requires |x| == |v| >= 2 && (forall i :: 0 <= i < |v| ==> 0 <= v[i] <= INT64_MAX) && !IgnoresQtt(x)
    ensures Settled(x, v) == x
  {}

  /** Nothing is turned down before the rounding. */
  lemma ParIsRounded(root: RootFunction, f: Tflow)
    requires IsRoot(root) && Ready(f.x, false) && 2 <= |f.x| <= FLOW_MAX_DIM && DistinctOids(f.x) && NonNegative(f.x)
    requires !SomeStockEmpty(f.x) && Opened(f.x) == f.x && !IgnoresOmega(f.x) && Gains.ProdOmega(f.x, false) >= 1.0
    ensures FlowcMaximum(root, f) == Rounded(root, f.x, false)
  {
    hide Rounded, CalType, IsRoot, Gains.ProdOmega, DistinctOids, NonNegative, SomeStockEmpty, Opened, IgnoresOmega;
  }
}
