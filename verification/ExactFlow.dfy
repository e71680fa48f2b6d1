/** The largest proportional flow that the stocks of a cycle allow. */
module ExactFlow {
  import opened Numeric
  import opened FlowTypes

  /** The flow at node i for one unit at node 0. */
  function PrefixProduct(om: seq<real>, i: nat): (p: real)
    requires Positive(om) && i < |om|
    ensures p > 0.0
  {
    ProdPos(om[1..i + 1]);
    Prod(om[1..i + 1])
  }

  function Piom(om: seq<real>): (piom: seq<real>)
    requires Positive(om)
    ensures |piom| == |om| && Positive(piom)
    ensures forall i :: 0 <= i < |om| ==> piom[i] == PrefixProduct(om, i)
  {
    seq(|om|, i requires 0 <= i < |om| => PrefixProduct(om, i))
  }

  predicate IsDefined(b: Tfl) {
    b.qtt != QTTFLOW_UNDEFINED
  }

  /** A stock is either undefined or positive, and the first one is defined. */
  predicate Stocked(x: seq<Tfl>) {
    && |x| >= 1
    && IsDefined(x[0])
    && forall i :: 0 <= i < |x| && IsDefined(x[i]) ==> x[i].qtt > 0
  }

  /** The flow at node 0 that exhausts node i. */
  function Exhausting(b: Tfl, p: real): (c: real)
    requires b.qtt > 0 && p > 0.0
    ensures c > 0.0 && b.qtt as real == c * p
  {
    Quotient(b.qtt as real, p)
  }

  datatype Tightest = Tightest(min: real, node: nat)

  /** The least of these flows over the first n nodes; -1.0 before any. */
  function TightestOf(x: seq<Tfl>, piom: seq<real>, n: nat): (t: Tightest)
    requires Stocked(x) && |piom| == |x| && Positive(piom) && n <= |x|
    ensures n == 0 ==> t == Tightest(-1.0, 0)
    ensures n > 0 ==> t.node < n && IsDefined(x[t.node])
    ensures n > 0 ==> t.min > 0.0 && t.min == Exhausting(x[t.node], piom[t.node])
    ensures forall i :: 0 <= i < n && IsDefined(x[i]) ==> t.min <= Exhausting(x[i], piom[i])
  {
    if n == 0 then Tightest(-1.0, 0)
    else
      var t := TightestOf(x, piom, n - 1);
      if !IsDefined(x[n - 1]) then t
      else
        var c := Exhausting(x[n - 1], piom[n - 1]);
        if t.min == -1.0 || c < t.min then Tightest(c, n - 1) else t
  }

  /** The proportional flow with k units at node 0. */
  function Scaled(k: real, piom: seq<real>): (f: seq<real>)
    ensures |f| == |piom|
  {
    seq(|piom|, i requires 0 <= i < |piom| => k * piom[i])
  }

  function FluxExact(x: seq<Tfl>, piom: seq<real>): (f: seq<real>)
    requires Stocked(x) && |piom| == |x| && Positive(piom)
    ensures |f| == |x| && f == Scaled(TightestOf(x, piom, |x|).min, piom)
  {
    Scaled(TightestOf(x, piom, |x|).min, piom)
  }

  function ExhaustedNode(x: seq<Tfl>, piom: seq<real>): (i: nat)
    requires Stocked(x) && |piom| == |x| && Positive(piom)
    ensures i < |x| && IsDefined(x[i])
  {
    TightestOf(x, piom, |x|).node
  }

  /** Every defined stock can provide the flow. */
  ghost predicate Fits(x: seq<Tfl>, f: seq<real>)
    requires |f| == |x|
  {
    forall i :: 0 <= i < |x| && IsDefined(x[i]) ==> f[i] <= x[i].qtt as real
  }

  lemma ScaleCompare(k: real, c: real, p: real, q: real)
    requires p > 0.0 && q == c * p
    ensures k <= c <==> k * p <= q
  {
    if k <= c { assert (c - k) * p >= 0.0; } else { assert (k - c) * p > 0.0; }
  }

  lemma ScaledFits(x: seq<Tfl>, piom: seq<real>, k: real, i: nat)
    requires Stocked(x) && |piom| == |x| && Positive(piom)
    requires i < |x| && IsDefined(x[i])
    ensures k <= Exhausting(x[i], piom[i]) <==> Scaled(k, piom)[i] <= x[i].qtt as real
  {
    assert Scaled(k, piom)[i] == k * piom[i];
    hide *;
    ScaleCompare(k, Exhausting(x[i], piom[i]), piom[i], x[i].qtt as real);
  }

  lemma ScaledPositive(k: real, piom: seq<real>)
    requires k > 0.0 && Positive(piom)
    ensures Positive(Scaled(k, piom))
  {
    forall i | 0 <= i < |piom|
      ensures Scaled(k, piom)[i] > 0.0
    {
      MulPos(k, piom[i]);
    }
  }

  /** The exact flow is positive, every stock can provide it, and the exhausted
      node provides its whole stock. */
  lemma FluxExactFits(x: seq<Tfl>, piom: seq<real>)
    requires Stocked(x) && |piom| == |x| && Positive(piom)
    ensures var f := FluxExact(x, piom);
            && Positive(f)
            && Fits(x, f)
            && f[ExhaustedNode(x, piom)] == x[ExhaustedNode(x, piom)].qtt as real
  {
    var t := TightestOf(x, piom, |x|);
    var f := FluxExact(x, piom);
    assert t.min * piom[t.node] == f[t.node];
    hide TightestOf, FluxExact, Scaled, Exhausting, Quotient;
    ScaledPositive(t.min, piom);
    forall i | 0 <= i < |x| && IsDefined(x[i])
      ensures f[i] <= x[i].qtt as real
    {
      ScaledFits(x, piom, t.min, i);
    }
  }

  /** No larger proportional flow fits. */
  lemma FluxExactIsLargest(x: seq<Tfl>, piom: seq<real>, k: real)
    requires Stocked(x) && |piom| == |x| && Positive(piom)
    requires Fits(x, Scaled(k, piom))
    ensures k <= TightestOf(x, piom, |x|).min
  {
    var t := TightestOf(x, piom, |x|);
    hide TightestOf, Scaled, Exhausting, Quotient;
    ScaledFits(x, piom, k, t.node);
  }

  /** The flow at node i is what its price makes of the flow before it. */
  ghost predicate ClosesAt(f: seq<real>, om: seq<real>, i: nat)
    requires |f| == |om| && i < |f|
  {
    f[i] == om[i] * f[Before(i, |f|)]
  }

  /** The flow at node i is at most what its price allows. */
  ghost predicate LimitedAt(f: seq<real>, omega: seq<real>, i: nat)
    requires |f| == |omega| && i < |f|
  {
    f[i] <= omega[i] * f[Before(i, |f|)]
  }

  lemma ClosingBelowIsLimited(f: seq<real>, om: seq<real>, omega: seq<real>, i: nat)
    requires |f| == |om| == |omega| && i < |f| && Positive(f)
    requires ClosesAt(f, om, i) && om[i] <= omega[i]
    ensures LimitedAt(f, omega, i)
  {
    assert (omega[i] - om[i]) * f[Before(i, |f|)] >= 0.0;
  }

  /** The exact flow closes around the cycle, the wrap at node 0 included. */
  lemma FluxExactCloses(x: seq<Tfl>, om: seq<real>, i: nat)
    requires Stocked(x) && |om| == |x| && Positive(om) && Prod(om) == 1.0 && i < |x|
    ensures ClosesAt(FluxExact(x, Piom(om)), om, i)
  {
    hide *;
    var piom := Piom(om);
    var k := TightestOf(x, piom, |x|).min;
    PiomStep(om, i);
    ScaledStep(k, piom, om, i);
  }

  lemma ScaledStep(k: real, piom: seq<real>, om: seq<real>, i: nat)
    requires |om| == |piom| && i < |om|
    requires piom[i] == om[i] * piom[Before(i, |om|)]
    ensures ClosesAt(Scaled(k, piom), om, i)
  {
    var m, q := om[i], piom[Before(i, |om|)];
    assert k * (m * q) == m * (k * q);
  }

  lemma PiomStep(om: seq<real>, i: nat)
    requires Positive(om) && Prod(om) == 1.0 && i < |om|
    ensures Piom(om)[i] == om[i] * Piom(om)[Before(i, |om|)]
  {
    hide Prod;
    if i == 0 {
      var rest := om[1..|om|];
      assert om == [om[0]] + rest;
      ProdCons(om[0], rest);
      Substitute(om[0], Prod(rest), PrefixProduct(om, |om| - 1), 1.0);
      EmptyPrefix(om);
    } else {
      PrefixSnoc(om, i);
    }
  }

  lemma PrefixSnoc(om: seq<real>, i: nat)
    requires Positive(om) && 0 < i < |om|
    ensures PrefixProduct(om, i) == om[i] * PrefixProduct(om, i - 1)
  {
    hide Prod;
    assert om[1..i + 1] == om[1..i] + [om[i]];
    ProdSnoc(om[1..i], om[i]);
  }

  lemma EmptyPrefix(om: seq<real>)
    requires Positive(om) && |om| > 0
    ensures PrefixProduct(om, 0) == 1.0
  {}

  lemma Substitute(a: real, b: real, c: real, r: real)
    requires b == c && r == a * b
    ensures r == a * c
  {}
}
