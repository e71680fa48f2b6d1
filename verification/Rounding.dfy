/** Rounding of the exact flow to integers: a search of the vertices of the
    hypercube above the floors, under the stocks and the limits. */
module Rounding {
  import opened Numeric
  import opened FlowTypes
  import opened ExactFlow

  const NMATBITS: nat := 8

  function Exp2(n: nat): (p: nat)
    ensures p >= 1
  {
    if n == 0 then 1 else 2 * Exp2(n - 1)
  }

  /** Bit k of the mask: mat >> k & 1. */
  predicate Bit(mat: nat, k: nat) {
    if k == 0 then mat % 2 == 1 else Bit(mat / 2, k - 1)
  }

  /** Nodes whose indices are equal modulo 8 share a bit. */
  predicate BitSetInMatrix(mat: nat, i: nat) {
    Bit(mat, i % NMATBITS)
  }

  function Vertex(floor: seq<int>, mat: nat): (v: seq<int>)
    ensures |v| == |floor|
    ensures forall j :: 0 <= j < |v| ==> v[j] == floor[j] + if BitSetInMatrix(mat, j) then 1 else 0
  {
    seq(|floor|, j requires 0 <= j < |floor| => floor[j] + if BitSetInMatrix(mat, j) then 1 else 0)
  }

  /** The number of masks tried for a cycle of n nodes. */
  function MatMax(n: nat): nat {
    Exp2(if n < NMATBITS then n else NMATBITS)
  }

  /** The floor of a double as an int64, or an error when it does not fit. */
  function FloorInt64(d: real): (r: Result<int>)
    ensures r.Ok? ==> 0 <= r.value <= INT64_MAX_DOUBLE && r.value as real <= d < (r.value + 1) as real
    ensures r.Ok? <==> 0.0 <= d < 0x7FFF_FFFF_FFFF_FC01 as real
  {
    if 0 <= d.Floor <= INT64_MAX_DOUBLE then Ok(d.Floor) else Err(CannotBeRounded)
  }

  /** The floor of one node; the exhausted node takes its whole stock. */
  function FloorOf(b: Tfl, d: real, exhausted: bool): Result<int> {
    var f :- FloorInt64(d);
    if !exhausted then Ok(f)
    else if b.qtt == QTTFLOW_UNDEFINED then Err(ExhaustedUndefined)
    else if f > b.qtt then Err(ShouldExhaust)
    else Ok(b.qtt)
  }

  lemma FloorOfBounds(b: Tfl, d: real, exhausted: bool, f: int)
    requires FloorOf(b, d, exhausted) == Ok(f)
    ensures 0 <= f
    ensures !exhausted ==> f <= INT64_MAX_DOUBLE && f as real <= d < (f + 1) as real
    ensures exhausted ==> f == b.qtt != QTTFLOW_UNDEFINED
  {}

  /** The floors of the first n nodes. */
  function FloorsUpTo(x: seq<Tfl>, exact: seq<real>, ex: nat, n: nat): (r: Result<seq<int>>)
    requires |exact| == |x| && n <= |x|
    ensures r.Ok? ==> |r.value| == n
    ensures r.Ok? ==> forall i :: 0 <= i < n ==> FloorOf(x[i], exact[i], i == ex) == Ok(r.value[i])
    ensures r.Err? ==> exists i :: 0 <= i < n && FloorOf(x[i], exact[i], i == ex).Err?
  {
    if n == 0 then Ok([])
    else
      var fs :- FloorsUpTo(x, exact, ex, n - 1);
      var f :- FloorOf(x[n - 1], exact[n - 1], n - 1 == ex);
      Ok(fs + [f])
  }

  /** An error on a node is the error of the whole vector. */
  lemma {:induction false} FloorErrorStays(x: seq<Tfl>, exact: seq<real>, ex: nat, m: nat, n: nat)
    requires |exact| == |x| && m <= n <= |x| && FloorsUpTo(x, exact, ex, m).Err?
    ensures FloorsUpTo(x, exact, ex, n) == FloorsUpTo(x, exact, ex, m)
    decreases n
  {
    if m < n { FloorErrorStays(x, exact, ex, m, n - 1); }
  }

  // ---------------------------------------------------------------------------
  // Checks made on a vertex

  predicate StockAllows(x: seq<Tfl>, v: seq<int>)
    requires |v| == |x|
  {
    forall k :: 0 <= k < |x| && IsDefined(x[k]) ==> v[k] <= x[k].qtt
  }

  /** The test "a / b <= w" of the code on doubles: with b zero the quotient is
      infinite or not a number, and the test fails. */
  predicate RatioWithin(a: int, b: int, w: real) {
    b != 0 && a as real / b as real <= w
  }

  predicate NodeLimitObserved(x: seq<Tfl>, omega: seq<real>, v: seq<int>, ignoreLast: bool, k: nat)
    requires |v| == |x| == |omega| && k < |x|
  {
    x[k].IsLimit() && !(ignoreLast && k == |x| - 1) ==>
      RatioWithin(v[k], v[Before(k, |x|)], omega[k])
  }

  predicate LimitsObserved(x: seq<Tfl>, omega: seq<real>, v: seq<int>, ignoreLast: bool)
    requires |v| == |x| == |omega|
  {
    forall k :: 0 <= k < |x| ==> NodeLimitObserved(x, omega, v, ignoreLast, k)
  }

  /** The test "a / b * p < 1.0" of the code fails. With b zero the quotient is
      infinite or not a number, and is not less than one. */
  predicate PriceNotBelowOne(a: int, b: int, p: real) {
    b == 0 || a as real / b as real * p >= 1.0
  }

  /** With the last price ignored, the price just set must not make the product
      of the prices less than one. */
  predicate SetPriceHolds(v: seq<int>, prodPath: real)
    requires |v| >= 2
  {
    PriceNotBelowOne(v[|v| - 1], v[|v| - 2], prodPath)
  }

  // ---------------------------------------------------------------------------
  // Distance

  function Dot(a: seq<real>, b: seq<real>): real
    requires |a| == |b|
  {
    if |a| == 0 then 0.0
    else Dot(a[..|a| - 1], b[..|b| - 1]) + a[|a| - 1] * b[|b| - 1]
  }

  function Reals(v: seq<int>): (a: seq<real>)
    ensures |a| == |v| && forall i :: 0 <= i < |v| ==> a[i] == v[i] as real
  {
    seq(|v|, i requires 0 <= i < |v| => v[i] as real)
  }

  /** The scalar product with the exact flow over the length of the vertex. */
  function Idistance(root: RootFunction, exact: seq<real>, v: seq<int>): real
    requires IsRoot(root) && |exact| == |v| && Dot(Reals(v), Reals(v)) > 0.0
  {
    Dot(Reals(v), exact) / root(Dot(Reals(v), Reals(v)), 2)
  }

  // ---------------------------------------------------------------------------
  // The search

  /** What the search reads. */
  datatype Cube = Cube(
    x: seq<Tfl>,
    omega: seq<real>,
    exact: seq<real>,
    floor: seq<int>,
    ex: nat,
    ignoreLast: bool,
    prodPath: real)
  {
    predicate Valid() {
      && |x| >= 2
      && |omega| == |exact| == |floor| == |x|
      && ex < |x|
      && floor[ex] > 0
      && forall i :: 0 <= i < |x| ==> 0 <= floor[i] <= INT64_MAX && (i != ex ==> floor[i] < INT64_MAX)
    }

    predicate Admissible(v: seq<int>)
      requires Valid() && |v| == |x|
    {
      && StockAllows(x, v)
      && LimitsObserved(x, omega, v, ignoreLast)
      && (ignoreLast ==> SetPriceHolds(v, prodPath))
    }

    /** The loop keeps the mask: the exhausted node does not change, and the
        vertex passes the checks. */
    predicate Accepts(mat: nat)
      requires Valid()
    {
      !BitSetInMatrix(mat, ex) && Admissible(Vertex(floor, mat))
    }

    /** A vertex is turned down for a limit, not for a stock. */
    predicate Refuses(mat: nat)
      requires Valid()
    {
      var v := Vertex(floor, mat);
      !BitSetInMatrix(mat, ex) && StockAllows(x, v) && !LimitsObserved(x, omega, v, ignoreLast)
    }

    function Distance(root: RootFunction, mat: nat): real
      requires IsRoot(root) && Valid() && !BitSetInMatrix(mat, ex)
    {
      VertexHasLength(this, mat);
      Idistance(root, exact, Vertex(floor, mat))
    }

    /** Some mask below m is refused. */
    predicate RefusesBelow(m: nat)
      requires Valid()
    {
      exists mat: nat :: mat < m && Refuses(mat)
    }

    /** The choice after the masks below m. */
    function BestBelow(root: RootFunction, m: nat): (c: Choice)
      requires IsRoot(root) && Valid()
      ensures c.Chosen? ==> c.mat < m && Accepts(c.mat) && c.dist == Distance(root, c.mat)
    {
      if m == 0 then Unchosen
      else
        var c := BestBelow(root, m - 1);
        if Accepts(m - 1) && (c.Unchosen? || c.dist < Distance(root, m - 1))
        then Chosen(m - 1, Distance(root, m - 1))
        else c
    }

    /** The status when no vertex is kept. */
    function Failed(): (s: Status)
      requires Valid()
      ensures s == Refused || s == Undefined
    {
      if RefusesBelow(MatMax(|x|)) then Refused else Undefined
    }
  }

  datatype Choice = Unchosen | Chosen(mat: nat, dist: real)

  lemma {:induction false} DotSelfLower(a: seq<real>, i: nat)
    requires i < |a|
    ensures Dot(a, a) >= a[i] * a[i] >= 0.0
  {
    var n := |a| - 1;
    assert a[n] * a[n] >= 0.0;
    DotSelfNonNegative(a[..n]);
    if i < n { DotSelfLower(a[..n], i); }
  }

  lemma {:induction false} DotSelfNonNegative(a: seq<real>)
    ensures Dot(a, a) >= 0.0
  {
    if |a| > 0 {
      DotSelfNonNegative(a[..|a| - 1]);
      assert a[|a| - 1] * a[|a| - 1] >= 0.0;
    }
  }

  lemma VertexHasLength(c: Cube, mat: nat)
    requires c.Valid() && !BitSetInMatrix(mat, c.ex)
    ensures var v := Reals(Vertex(c.floor, mat)); Dot(v, v) > 0.0
  {
    var v := Reals(Vertex(c.floor, mat));
    assert v[c.ex] == c.floor[c.ex] as real > 0.0;
    hide *;
    DotSelfLower(v, c.ex);
    AboveProduct(v[c.ex], v[c.ex], Dot(v, v));
  }

  lemma AboveProduct(a: real, b: real, d: real)
    requires a > 0.0 && b > 0.0 && d >= a * b
    ensures d > 0.0
  {
    MulPos(a, b);
  }

  lemma VertexRange(c: Cube, mat: nat)
    requires c.Valid() && !BitSetInMatrix(mat, c.ex)
    ensures var v := Vertex(c.floor, mat);
            forall i :: 0 <= i < |v| ==> 0 <= v[i] <= INT64_MAX
  {
    hide BitSetInMatrix;
  }

  // ---------------------------------------------------------------------------
  // Which vectors the search visits

  /** A vector of the cube: each node is at its floor or one above, the exhausted
      node at its floor, and nodes that share a bit are moved together. For at
      most eight nodes no two share a bit. */
  ghost predicate CubeVertex(c: Cube, v: seq<int>)
    requires c.Valid()
  {
    && |v| == |c.x|
    && v[c.ex] == c.floor[c.ex]
    && (forall i :: 0 <= i < |v| ==> v[i] == c.floor[i] || v[i] == c.floor[i] + 1)
    && (forall i, j :: 0 <= i < j < |v| && i % 8 == j % 8 ==>
          v[i] - c.floor[i] == v[j] - c.floor[j])
  }

  ghost predicate VisitedAt(c: Cube, mat: nat, v: seq<int>)
    requires c.Valid()
  {
    mat < MatMax(|c.x|) && !BitSetInMatrix(mat, c.ex) && v == Vertex(c.floor, mat)
  }

  function MaskOf(bits: seq<bool>): (mat: nat) {
    if |bits| == 0 then 0 else (if bits[0] then 1 else 0) + 2 * MaskOf(bits[1..])
  }

  lemma {:induction false} MaskHasBits(bits: seq<bool>, k: nat)
    requires k < |bits|
    ensures Bit(MaskOf(bits), k) == bits[k]
  {
    LowestBit(if bits[0] then 1 else 0, MaskOf(bits[1..]), k);
    hide Bit;
    if k > 0 { MaskHasBits(bits[1..], k - 1); }
  }

  lemma LowestBit(b: nat, m: nat, k: nat)
    requires b < 2
    ensures Bit(b + 2 * m, k) == if k == 0 then b == 1 else Bit(m, k - 1)
  {
    assert (b + 2 * m) / 2 == m && (b + 2 * m) % 2 == b;
  }

  lemma {:induction false} MaskBelow(bits: seq<bool>)
    ensures MaskOf(bits) < Exp2(|bits|)
  {
    if |bits| > 0 { MaskBelow(bits[1..]); }
  }

  /** The masks of the loop visit exactly the vectors of the cube. */
  lemma VisitsExactlyTheCube(c: Cube, v: seq<int>)
    requires c.Valid()
    ensures (exists mat: nat :: VisitedAt(c, mat, v)) <==> CubeVertex(c, v)
  {
    if CubeVertex(c, v) {
      var n := if |v| < NMATBITS then |v| else NMATBITS;
      var bits := seq(n, i requires 0 <= i < n => v[i] != c.floor[i]);
      MaskBelow(bits);
      var mat := MaskOf(bits);
      forall i | 0 <= i < |v|
        ensures BitSetInMatrix(mat, i) <==> v[i] != c.floor[i]
      {
        CubeBit(c, v, bits, i);
      }
      assert v == Vertex(c.floor, mat);
      assert VisitedAt(c, mat, v);
    }
  }

  /** The mask of a vector of the cube has the bits of its nodes. */
  lemma CubeBit(c: Cube, v: seq<int>, bits: seq<bool>, i: nat)
    requires c.Valid() && CubeVertex(c, v) && i < |v| && |bits| == if |v| < NMATBITS then |v| else NMATBITS
    requires forall k :: 0 <= k < |bits| ==> bits[k] == (v[k] != c.floor[k])
    ensures BitSetInMatrix(MaskOf(bits), i) <==> v[i] != c.floor[i]
  {
    ModBelow(i, |bits|, |v|);
    MaskHasBits(bits, i % NMATBITS);
    SameResidue(i);
    hide Bit, MaskOf;
  }

  lemma ModBelow(i: nat, n: nat, len: nat)
    requires i < len && n == (if len < NMATBITS then len else NMATBITS)
    ensures i % NMATBITS < n && i % NMATBITS <= i
  {}

  lemma SameResidue(i: nat)
    ensures i % NMATBITS % NMATBITS == i % NMATBITS
  {}

  // ---------------------------------------------------------------------------
  // The choice is the best one

  lemma {:induction false} BestBelowIsBest(c: Cube, root: RootFunction, m: nat, mat: nat)
    requires IsRoot(root) && c.Valid() && mat < m && c.Accepts(mat)
    ensures var b := c.BestBelow(root, m); b.Chosen? && c.Distance(root, mat) <= b.dist
  {
    hide Cube.Valid, Cube.Accepts, Cube.Distance, IsRoot, BitSetInMatrix;
    if mat < m - 1 { BestBelowIsBest(c, root, m - 1, mat); }
  }

  function Norm(root: RootFunction, a: seq<real>): (r: real)
    requires IsRoot(root) && Dot(a, a) > 0.0
    ensures r > 0.0
  {
    root(Dot(a, a), 2)
  }

  /** The cosine of the angle of two vectors. */
  function Cosine(root: RootFunction, a: seq<real>, b: seq<real>): real
    requires IsRoot(root) && |a| == |b| && Dot(a, a) > 0.0 && Dot(b, b) > 0.0
  {
    Dot(a, b) / (Norm(root, a) * Norm(root, b))
  }

  lemma DivideOrder(s: real, n: real, t: real, m: real, k: real)
    requires n > 0.0 && m > 0.0 && k > 0.0
    ensures n * k > 0.0 && m * k > 0.0
    ensures s / n <= t / m <==> s / (n * k) <= t / (m * k)
  {
    MulPos(n, k);
    MulPos(m, k);
    RatioCross(s, n, t, m);
    RatioCross(s, n * k, t, m * k);
    assert s * (m * k) == s * m * k;
    assert t * (n * k) == t * n * k;
    ScaleOrder(s * m, t * n, k);
  }

  lemma ScaleOrder(a: real, b: real, k: real)
    requires k > 0.0
    ensures a <= b <==> a * k <= b * k
  {
    if a <= b { assert (b - a) * k >= 0.0; } else { assert (a - b) * k > 0.0; }
  }

  /** Comparing the distances of the code compares the cosines. */
  lemma DistanceOrdersCosines(root: RootFunction, exact: seq<real>, v: seq<int>, w: seq<int>)
    requires IsRoot(root) && |exact| == |v| == |w| && Dot(exact, exact) > 0.0
    requires Dot(Reals(v), Reals(v)) > 0.0 && Dot(Reals(w), Reals(w)) > 0.0
    ensures Idistance(root, exact, v) <= Idistance(root, exact, w) <==>
            Cosine(root, Reals(v), exact) <= Cosine(root, Reals(w), exact)
  {
    DivideOrder(Dot(Reals(v), exact), Norm(root, Reals(v)),
                Dot(Reals(w), exact), Norm(root, Reals(w)), Norm(root, exact));
  }
}
